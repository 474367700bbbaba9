/** Unigram encoding: the segmentation of the text into tokens with the best total score. */
module UnigramEncoding {
  import opened Wrappers
  import opened TokenTrie
  import opened TextScan
  import opened Viterbi
  import T = Tokenizers

  /** The tokens that start at i and reach at least to j, the shortest first. */
  function TokensFrom(dict: Dict, s: string, i: nat, j: nat): seq<Edge>
    requires i <= j
    decreases |s| - j
  {
    if j > |s| then []
    else
      (if s[i..j] in dict then [Edge(dict[s[i..j]].id, dict[s[i..j]].score, j - i)] else [])
      + TokensFrom(dict, s, i, j + 1)
  }

  /** A stretch from i that is a special token. */
  ghost predicate SpecialAt(special: Dict, s: string, i: nat)
    requires i <= |s|
  {
    var far := FarEnd(special, s, i, i);
    far > i && s[i..far] in special
  }

  /** The cells at each position from i: a special token where there is one, which hides the positions inside it; else
      all tokens. */
  ghost function Cells(dict: Dict, special: Dict, s: string, i: nat): seq<seq<Edge>>
    requires i <= |s|
    decreases |s| - i
  {
    if i == |s| then []
    else if SpecialAt(special, s, i) then
      var far := FarEnd(special, s, i, i);
      [[Edge(special[s[i..far]].id, special[s[i..far]].score, far - i)]] + seq(far - i - 1, k => [])
          + Cells(dict, special, s, far)
    else [TokensFrom(dict, s, i, i + 1)] + Cells(dict, special, s, i + 1)
  }

  const END_CELL := [Edge(NONE, 0.0, 0)]

  ghost function LatticeOf(dict: Dict, special: Dict, s: string): Lattice {
    Cells(dict, special, s, 0) + [END_CELL]
  }

  ghost predicate BytesKnown(dict: Dict, s: string) {
    forall i :: 0 <= i < |s| ==> [s[i]] in dict
  }

  /** What the tokens from i are. */
  lemma {:induction false} TokensFromAre(dict: Dict, s: string, i: nat, j: nat)
    requires i <= j
    ensures forall e :: e in TokensFrom(dict, s, i, j) ==>
              && j <= i + e.size <= |s| && s[i..i + e.size] in dict
              && e.id == dict[s[i..i + e.size]].id && e.score == dict[s[i..i + e.size]].score
    ensures forall m :: j <= m <= |s| && s[i..m] in dict ==>
              Edge(dict[s[i..m]].id, dict[s[i..m]].score, m - i) in TokensFrom(dict, s, i, j)
    decreases |s| - j
  {
    if j <= |s| {
      TokensFromAre(dict, s, i, j + 1);
      var first := if s[i..j] in dict then [Edge(dict[s[i..j]].id, dict[s[i..j]].score, j - i)] else [];
      var rest := TokensFrom(dict, s, i, j + 1);
      forall m | j <= m <= |s|
          && s[i..m] in dict ensures Edge(dict[s[i..m]].id, dict[s[i..m]].score, m - i) in first + rest {
        if m == j {
          assert first[0] in first + rest;
        }
      }
    }
  }

  /** The lattice from i on, in place: its cells lead forward, within the text. */
  lemma {:induction false} CellsForward(dict: Dict, special: Dict, s: string, i: nat)
    requires i <= |s|
    ensures |Cells(dict, special, s, i)| == |s| - i
    ensures forall p, b :: 0 <= p < |s| - i && 0 <= b < |Cells(dict, special, s, i)[p]| ==>
              1 <= Cells(dict, special, s, i)[p][b].size && i + p + Cells(dict, special, s, i)[p][b].size <= |s|
    decreases |s| - i
  {
    if i < |s| {
      var far := FarEnd(special, s, i, i);
      TokensFromAre(dict, s, i, i + 1);
      var next := if SpecialAt(special, s, i) then far else i + 1;
      CellsForward(dict, special, s, next);
      var all: Lattice, rest: Lattice := Cells(dict, special, s, i), Cells(dict, special, s, next);
      forall p, b | 0 <= p < |s| - i && 0 <= b < |all[p]| ensures 1 <= all[p][b].size && i + p + all[p][b].size <= |s| {
        if p >= next - i {
          assert all[p] == rest[p - (next - i)];
        } else if p == 0 {
          assert !SpecialAt(special, s, i) ==> all[p][b] in TokensFrom(dict, s, i, i + 1);
        }
      }
    }
  }

  lemma LatticeForward(dict: Dict, special: Dict, s: string)
    ensures Forward(LatticeOf(dict, special, s)) && |LatticeOf(dict, special, s)| == |s| + 1
  {
    CellsForward(dict, special, s, 0);
    var lattice: Lattice := LatticeOf(dict, special, s);
    forall a, b | 0 <= a < |lattice| - 1 && 0 <= b < |lattice[a]| ensures 1 <= lattice[a][b].size
        && a + lattice[a][b].size < |lattice| {
      assert lattice[a] == Cells(dict, special, s, 0)[a];
    }
  }

  /** In the cells from position i on, cell (a, b) leads to position p. */
  predicate LeadsOn(cells: Lattice, i: nat, a: int, b: int, p: int) {
    0 <= a - i < |cells| && 0 <= b < |cells[a - i]| && a + cells[a - i][b].size == p
  }

  /** Where the scan goes on behind position i. */
  ghost function NextPlace(special: Dict, s: string, i: nat): (next: nat)
    requires i < |s|
    ensures i < next <= |s|
  {
    if SpecialAt(special, s, i) then FarEnd(special, s, i, i) else i + 1
  }

  /** The cells from i on are those of the positions up to the next place, followed by the cells from there on. */
  lemma CellsSplit(dict: Dict, special: Dict, s: string, i: nat, p: nat)
    requires i < |s| && i < p < |s|
    ensures |Cells(dict, special, s, i)| == |s| - i
    ensures p < NextPlace(special, s, i) ==> Cells(dict, special, s, i)[p - i] == []
    ensures p >= NextPlace(special, s, i) ==>
              && p - NextPlace(special, s, i) < |Cells(dict, special, s, NextPlace(special, s, i))|
              && Cells(dict, special, s, i)[p - i]
                  == Cells(dict, special, s, NextPlace(special, s, i))[p - NextPlace(special, s, i)]
  {
    CellsForward(dict, special, s, i);
    CellsForward(dict, special, s, NextPlace(special, s, i));
  }

  /** From i on, every position with cells, and the end, is where some earlier cell leads to. */
  lemma {:induction false} CellsReachable(dict: Dict, special: Dict, s: string, i: nat, p: nat) returns (a: nat, b: nat)
    requires i < p <= |s| && BytesKnown(dict, s)
    requires p < |s| ==> |Cells(dict, special, s, i)| == |s| - i && Cells(dict, special, s, i)[p - i] != []
    ensures a < |s| && LeadsOn(Cells(dict, special, s, i), i, a, b, p)
    decreases |s| - i
  {
    var next := NextPlace(special, s, i);
    if p < |s| {
      CellsSplit(dict, special, s, i, p);
    }
    if p == next {
      a := i;
      b := NextReachable(dict, special, s, i);
    } else {
      a, b := CellsReachable(dict, special, s, next, p);
      CellsSplit(dict, special, s, i, a);
    }
  }

  lemma NextReachable(dict: Dict, special: Dict, s: string, i: nat) returns (b: nat)
    requires i < |s| && BytesKnown(dict, s)
    ensures LeadsOn(Cells(dict, special, s, i), i, i, b, NextPlace(special, s, i))
  {
    if SpecialAt(special, s, i) {
      b := 0;
    } else {
      TokensFromAre(dict, s, i, i + 1);
      assert s[i..i + 1] == [s[i]];
      var e := Edge(dict[s[i..i + 1]].id, dict[s[i..i + 1]].score, 1);
      b :| 0 <= b < |TokensFrom(dict, s, i, i + 1)| && TokensFrom(dict, s, i, i + 1)[b] == e;
    }
  }

  lemma LatticeReachable(dict: Dict, special: Dict, s: string)
    requires BytesKnown(dict, s)
    ensures Reachable(LatticeOf(dict, special, s))
  {
    LatticeForward(dict, special, s);
    CellsForward(dict, special, s, 0);
    var lattice: Lattice, cells: Lattice := LatticeOf(dict, special, s), Cells(dict, special, s, 0);
    forall p | 0 < p < |lattice| && lattice[p] != [] ensures exists a, b :: LeadsTo(lattice, a, b, p) {
      var a, b := CellsReachable(dict, special, s, 0, p);
      assert lattice[a] == cells[a];
      assert LeadsTo(lattice, a, b, p);
    }
  }

  /** A segmentation: tokens, none of them empty, one behind the other. */
  ghost predicate Segments(dict: Dict, pieces: seq<string>, text: string) {
    Concat(pieces) == text && forall i :: 0 <= i < |pieces| ==> pieces[i] != "" && pieces[i] in dict
  }

  function Concat(pieces: seq<string>): string {
    if pieces == [] then "" else Concat(pieces[..|pieces| - 1]) + pieces[|pieces| - 1]
  }

  function ScoreSum(dict: Dict, pieces: seq<string>): real {
    if pieces == [] then 0.0
    else
      var last := pieces[|pieces| - 1];
      ScoreSum(dict, pieces[..|pieces| - 1]) + if last in dict then dict[last].score else 0.0
  }

  function PieceIds(dict: Dict, pieces: seq<string>): seq<int> {
    if pieces == [] then []
    else
      var last := pieces[|pieces| - 1];
      PieceIds(dict, pieces[..|pieces| - 1]) + [if last in dict then dict[last].id else 0]
  }

  ghost predicate NoSpecial(special: Dict, s: string) {
    forall i :: 0 <= i < |s| ==> !SpecialAt(special, s, i)
  }

  /** Without special tokens, the cells of a position are the tokens that start there. */
  lemma {:induction false} PlainCells(dict: Dict, special: Dict, s: string, i: nat, p: nat)
    requires NoSpecial(special, s) && i <= p < |s|
    ensures |Cells(dict, special, s, i)| == |s| - i
        && Cells(dict, special, s, i)[p - i] == TokensFrom(dict, s, p, p + 1)
    decreases |s| - i
  {
    CellsForward(dict, special, s, i);
    if p > i {
      PlainCells(dict, special, s, i + 1, p);
    }
  }

  lemma PlainLattice(dict: Dict, special: Dict, s: string, p: nat)
    requires NoSpecial(special, s) && p < |s|
    ensures |LatticeOf(dict, special, s)| == |s| + 1 && LatticeOf(dict, special, s)[p] == TokensFrom(dict, s, p, p + 1)
  {
    PlainCells(dict, special, s, 0, p);
  }

  /** A segmentation of the text up to p is a path to each cell of p. */
  lemma {:induction false} SegmentsPath(dict: Dict, special: Dict, s: string, pieces: seq<string>, p: nat, q: nat)
    returns (path: seq<(int, int)>)
    requires NoSpecial(special, s) && p <= |s| && Segments(dict, pieces, s[..p])
        && IsCell(LatticeOf(dict, special, s), p, q)
    ensures IsPath(LatticeOf(dict, special, s), path) && path[|path| - 1] == (p, q)
    ensures Total(LatticeOf(dict, special, s), path)
        == ScoreSum(dict, pieces) + ScoreOf(LatticeOf(dict, special, s), (p, q))
    decreases |pieces|
  {
    var lattice := LatticeOf(dict, special, s);
    LatticeForward(dict, special, s);
    if pieces == [] {
      path := [(p, q)];
      assert path[..0] == [];
    } else {
      var init, last := pieces[..|pieces| - 1], pieces[|pieces| - 1];
      var before := p - |last|;
      assert s[..p] == Concat(init) + last;
      assert Concat(init) == s[..p][..before] == s[..before] && last == s[before..p];
      PlainLattice(dict, special, s, before);
      TokensFromAre(dict, s, before, before + 1);
      var e := Edge(dict[last].id, dict[last].score, |last|);
      var b :| 0 <= b < |lattice[before]| && lattice[before][b] == e;
      var rest := SegmentsPath(dict, special, s, init, before, b);
      path := rest + [(p, q)];
      assert path[..|path| - 1] == rest;
      assert LeadsTo(lattice, before, b, p);
    }
  }

  /** A path to a cell of p is a segmentation of the text up to p. */
  lemma {:induction false} PathSegments(dict: Dict, special: Dict, s: string, path: seq<(int, int)>)
    returns (pieces: seq<string>)
    requires NoSpecial(special, s) && IsPath(LatticeOf(dict, special, s), path)
    ensures 0 <= path[|path| - 1].0 <= |s| && Segments(dict, pieces, s[..path[|path| - 1].0])
    ensures Total(LatticeOf(dict, special, s), path)
        == ScoreSum(dict, pieces) + ScoreOf(LatticeOf(dict, special, s), path[|path| - 1])
    ensures IdsAlong(LatticeOf(dict, special, s), path[..|path| - 1]) == PieceIds(dict, pieces)
    decreases |path|
  {
    hide LatticeOf, TokensFrom, SpecialAt;
    var lattice := LatticeOf(dict, special, s);
    LatticeForward(dict, special, s);
    var last := path[|path| - 1];
    assert IsCell(lattice, last.0, last.1);
    if |path| == 1 {
      pieces := [];
      assert path[..0] == [];
    } else {
      var init := path[..|path| - 1];
      var before := path[|path| - 2];
      var rest := PathSegments(dict, special, s, init);
      assert init[|init| - 1] == before;
      assert LeadsTo(lattice, path[|path| - 2].0, path[|path| - 2].1, path[|path| - 2 + 1].0);
      PlainLattice(dict, special, s, before.0);
      TokensFromAre(dict, s, before.0, before.0 + 1);
      var e := lattice[before.0][before.1];
      assert e in TokensFrom(dict, s, before.0, before.0 + 1);
      var piece := s[before.0..last.0];
      pieces := rest + [piece];
      assert pieces[..|pieces| - 1] == rest;
      assert s[..before.0] + piece == s[..last.0];
    }
  }

  lemma {:induction false} NoTokens(dict: Dict, s: string, i: nat, j: nat)
    requires i <= j && forall m :: j <= m <= |s| ==> s[i..m] !in dict
    ensures TokensFrom(dict, s, i, j) == []
    decreases |s| - j
  {
    if j <= |s| {
      NoTokens(dict, s, i, j + 1);
    }
  }

  /** The cells of a position where no special token starts. */
  method TokenCells(t: T.Tokenizer, s: string, i: nat) returns (cells: seq<Edge>)
    requires t.Valid() && i < |s|
    ensures cells == TokensFrom(t.root.dict, s, i, i + 1)
  {
    hide Walk, Holds, TreeInv, NoDeadEnds;
    var root := t.root;
    cells := [];
    var now := root.root;
    assert s[i..i] == "";
    T.WalkStart(root.heap, root.root, root.path);
    var j := i;
    while j < |s|
      invariant i <= j <= |s| && Walk(root.heap, root.root, s[i..j]) == Some(now)
      invariant cells + TokensFrom(root.dict, s, i, j + 1) == TokensFrom(root.dict, s, i, i + 1)
    {
      T.WalkNext(root.heap, root.root, root.path, s, i, j, now);
      T.TokenWalk(root.heap, root.root, root.dict, s[i..j + 1]);
      if s[j] in root.heap[now].next {
        WalkPath(root.heap, root.root, root.path, s[i..j + 1]);
        now := root.heap[now].next[s[j]];
        if root.heap[now].tokenId != NONE {
          cells := cells + [Edge(root.heap[now].tokenId, root.heap[now].score, j - i + 1)];
        }
      } else {
        forall m | j + 1 <= m <= |s| ensures s[i..m] !in root.dict {
          T.WalkStops(root.heap, root.root, s, i, j + 1, m);
          T.TokenWalk(root.heap, root.root, root.dict, s[i..m]);
        }
        NoTokens(root.dict, s, i, j + 1);
        return;
      }
      j := j + 1;
    }
  }

  /** The cells that one turn of the scan adds. */
  ghost function Added(dict: Dict, special: Dict, s: string, i: nat): seq<seq<Edge>>
    requires i < |s|
  {
    if SpecialAt(special, s, i) then
      var far := FarEnd(special, s, i, i);
      [[Edge(special[s[i..far]].id, special[s[i..far]].score, far - i)]] + seq(far - i - 1, k => [])
    else [TokensFrom(dict, s, i, i + 1)]
  }

  lemma AddedStep(dict: Dict, special: Dict, s: string, i: nat, lattice: Lattice, all: Lattice)
    requires i < |s| && lattice + Cells(dict, special, s, i) == all
    ensures lattice + Added(dict, special, s, i) + Cells(dict, special, s, NextPlace(special, s, i)) == all
    ensures |Added(dict, special, s, i)| == NextPlace(special, s, i) - i
  {
    var added, rest := Added(dict, special, s, i), Cells(dict, special, s, NextPlace(special, s, i));
    assert Cells(dict, special, s, i) == added + rest;
    assert (lattice + added) + rest == lattice + (added + rest);
  }

  /** Lists the cells of every position, and the cell that ends the text. */
  method BuildLattice(t: T.Tokenizer, s: string) returns (lattice: Lattice)
    requires t.Valid() && T.NoFixToken(s) && BytesKnown(t.root.dict, s)
    ensures lattice == LatticeOf(t.root.dict, t.specialRoot.dict, s)
  {
    hide Walk, Holds, TreeInv, NoDeadEnds, FarEnd, TokensFrom, Cells;
    lattice := [];
    var i := 0;
    while i < |s|
      invariant 0 <= i <= |s| && |lattice| == i
      invariant lattice + Cells(t.root.dict, t.specialRoot.dict, s, i) == Cells(t.root.dict, t.specialRoot.dict, s, 0)
    {
      AddedStep(t.root.dict, t.specialRoot.dict, s, i, lattice, Cells(t.root.dict, t.specialRoot.dict, s, 0));
      var special, far := t.FollowSpecial(s, i);
      T.TokenWalk(t.specialRoot.heap, t.specialRoot.root, t.specialRoot.dict, s[i..far]);
      if t.specialRoot.heap[special].tokenId != NONE && far > i {
        var cell := Edge(t.specialRoot.heap[special].tokenId, t.specialRoot.heap[special].score, far - i);
        lattice := lattice + ([[cell]] + seq(far - i - 1, k => []));
        i := far;
      } else {
        var cells := TokenCells(t, s, i);
        lattice := lattice + [cells];
        i := i + 1;
      }
    }
    CellsDone(t.root.dict, t.specialRoot.dict, s);
    lattice := lattice + [END_CELL];
  }

  lemma CellsDone(dict: Dict, special: Dict, s: string)
    ensures Cells(dict, special, s, |s|) == []
  {
  }

  /** Encodes a text all of whose bytes are tokens: the ids along a path of best total score through the lattice of
      tokens, of several such paths the first one, seen from the end. */
  method UnigramEncode(t: T.Tokenizer, s: string) returns (v: seq<int>, ghost path: seq<(int, int)>)
    requires t.Valid() && T.NoFixToken(s) && BytesKnown(t.root.dict, s)
    ensures var lattice := LatticeOf(t.root.dict, t.specialRoot.dict, s);
      && IsPath(lattice, path) && path[|path| - 1] == (|s|, 0)
      && v == IdsAlong(lattice, path[..|path| - 1])
      && forall other :: IsPath(lattice, other) && other[|other| - 1] == (|s|, 0) ==>
          Total(lattice, other) <= Total(lattice, path)
              && (Total(lattice, other) == Total(lattice, path) ==> other == path || Earlier(path, other))
  {
    hide LatticeOf, Forward, Reachable, IsPath, Total, BytesKnown, AllOk, T.NoFixToken, Earlier;
    LatticeForward(t.root.dict, t.specialRoot.dict, s);
    LatticeReachable(t.root.dict, t.specialRoot.dict, s);
    var lattice := BuildLattice(t, s);
    var scores := Solve(lattice);
    v := Backtrack(lattice, scores);
    path := Trace(lattice, scores, |lattice| - 1, 0);
    BestPath(lattice, scores);
  }

  /** A best path is a best segmentation: it spells the text, and no segmentation scores better. */
  lemma BestSegmentation(dict: Dict, special: Dict, s: string, path: seq<(int, int)>) returns (pieces: seq<string>)
    requires NoSpecial(special, s) && IsPath(LatticeOf(dict, special, s), path) && path[|path| - 1] == (|s|, 0)
    requires forall other :: IsPath(LatticeOf(dict, special, s), other) && other[|other| - 1] == (|s|, 0) ==>
               Total(LatticeOf(dict, special, s), other) <= Total(LatticeOf(dict, special, s), path)
    ensures Segments(dict, pieces, s)
        && IdsAlong(LatticeOf(dict, special, s), path[..|path| - 1]) == PieceIds(dict, pieces)
    ensures forall other :: Segments(dict, other, s) ==> ScoreSum(dict, other) <= ScoreSum(dict, pieces)
  {
    LatticeForward(dict, special, s);
    pieces := PathSegments(dict, special, s, path);
    assert s[..|s|] == s;
    forall other | Segments(dict, other, s) ensures ScoreSum(dict, other) <= ScoreSum(dict, pieces) {
      var way := SegmentsPath(dict, special, s, other, |s|, 0);
    }
  }
}
