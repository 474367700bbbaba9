/** Best paths through a lattice: every position of the input has cells, and a cell leads some bytes further on. */
module Viterbi {
  import opened ScoreMerge

  datatype Edge = Edge(id: int, score: real, size: nat)

  /** The cells at each position; the last position holds a single cell that ends the input. */
  type Lattice = seq<seq<Edge>>

  type Scores = seq<seq<SymbolPair>>

  /** Cells lead forward, and not beyond the end. */
  ghost predicate Forward(lattice: Lattice) {
    && lattice != [] && |lattice[|lattice| - 1]| == 1 && lattice[|lattice| - 1][0].score == 0.0
    && forall a, b :: 0 <= a < |lattice| - 1 && 0 <= b < |lattice[a]| ==>
        1 <= lattice[a][b].size && a + lattice[a][b].size < |lattice|
  }

  predicate IsCell(lattice: Lattice, a: int, b: int) {
    0 <= a < |lattice| && 0 <= b < |lattice[a]|
  }

  /** Cell (a, b) leads to position p. */
  predicate LeadsTo(lattice: Lattice, a: int, b: int, p: int) {
    0 <= a < |lattice| - 1 && IsCell(lattice, a, b) && a + lattice[a][b].size == p
  }

  ghost predicate SameShape(lattice: Lattice, scores: Scores) {
    |scores| == |lattice| && forall a :: 0 <= a < |lattice| ==> |scores[a]| == |lattice[a]|
  }

  predicate Handled(a: int, b: int, i: int, j: int) {
    a < i || (a == i && b < j)
  }

  /** What is known of cell (p, q) once the cells before (i, j) were handled: it has the best of the predecessors among
      these, the first one if several are equally good, or none if there is none. */
  ghost predicate CellOk(lattice: Lattice, scores: Scores, p: int, q: int, i: int, j: int)
    requires SameShape(lattice, scores) && IsCell(lattice, p, q)
  {
    var cell, own := scores[p][q], lattice[p][q].score;
    if cell.r == -1 then
      cell.score == own && forall a, b :: LeadsTo(lattice, a, b, p) ==> !Handled(a, b, i, j)
    else
      && LeadsTo(lattice, cell.l, cell.r, p) && Handled(cell.l, cell.r, i, j)
      && cell.score == scores[cell.l][cell.r].score + own
      && (forall a, b :: LeadsTo(lattice, a, b, p) && Handled(a, b, i, j) ==> scores[a][b].score + own <= cell.score)
      && forall a, b :: LeadsTo(lattice, a, b, p) && Handled(a, b, cell.l, cell.r) ==>
        scores[a][b].score + own < cell.score
  }

  ghost predicate AllOk(lattice: Lattice, scores: Scores, i: int, j: int) {
    SameShape(lattice, scores) && forall p, q :: IsCell(lattice, p, q) ==> CellOk(lattice, scores, p, q, i, j)
  }

  /** A way from the start to its last cell. */
  ghost predicate IsPath(lattice: Lattice, path: seq<(int, int)>) {
    && path != [] && path[0].0 == 0
    && (forall k :: 0 <= k < |path| ==> IsCell(lattice, path[k].0, path[k].1))
    && (forall k :: 0 <= k < |path| - 1 ==> LeadsTo(lattice, path[k].0, path[k].1, path[k + 1].0))
  }

  function ScoreOf(lattice: Lattice, cell: (int, int)): real {
    if IsCell(lattice, cell.0, cell.1) then lattice[cell.0][cell.1].score else 0.0
  }

  function Total(lattice: Lattice, path: seq<(int, int)>): real {
    if path == [] then 0.0 else Total(lattice, path[..|path| - 1]) + ScoreOf(lattice, path[|path| - 1])
  }

  /** No path scores better than what its last cell has. */
  lemma {:induction false} PathBelow(lattice: Lattice, scores: Scores, path: seq<(int, int)>)
    requires Forward(lattice) && AllOk(lattice, scores, |lattice| - 1, 0) && IsPath(lattice, path)
    ensures Total(lattice, path) <= scores[path[|path| - 1].0][path[|path| - 1].1].score
    decreases |path|
  {
    var last := path[|path| - 1];
    assert CellOk(lattice, scores, last.0, last.1, |lattice| - 1, 0);
    if |path| == 1 {
      assert path[..0] == [];
      StartCell(lattice, scores, last.1);
    } else {
      var init := path[..|path| - 1];
      PathBelow(lattice, scores, init);
      var before := path[|path| - 2];
      assert LeadsTo(lattice, before.0, before.1, path[|path| - 2 + 1].0);
      assert Handled(before.0, before.1, |lattice| - 1, 0);
    }
  }

  lemma StartCell(lattice: Lattice, scores: Scores, q: int)
    requires Forward(lattice) && AllOk(lattice, scores, |lattice| - 1, 0) && IsCell(lattice, 0, q)
    ensures scores[0][q].r == -1 && scores[0][q].score == lattice[0][q].score
  {
    assert CellOk(lattice, scores, 0, q, |lattice| - 1, 0);
  }

  /** Some cell leads to every position that has cells. */
  ghost predicate Reachable(lattice: Lattice) {
    forall p :: 0 < p < |lattice| && lattice[p] != [] ==> exists a, b :: LeadsTo(lattice, a, b, p)
  }

  /** The path that the links of a cell describe. */
  ghost function Trace(lattice: Lattice, scores: Scores, p: int, q: int): (path: seq<(int, int)>)
    requires Forward(lattice) && AllOk(lattice, scores, |lattice| - 1, 0) && IsCell(lattice, p, q)
    ensures path != [] && path[|path| - 1] == (p, q)
    decreases p
  {
    assert CellOk(lattice, scores, p, q, |lattice| - 1, 0);
    if scores[p][q].r == -1 then [(p, q)] else Trace(lattice, scores, scores[p][q].l, scores[p][q].r) + [(p, q)]
  }

  /** Where every position is reachable, the links of a cell describe a path that scores what the cell has. */
  lemma {:induction false} TraceScores(lattice: Lattice, scores: Scores, p: int, q: int)
    requires Forward(lattice) && AllOk(lattice, scores, |lattice| - 1, 0) && Reachable(lattice) && IsCell(lattice, p, q)
    ensures IsPath(lattice, Trace(lattice, scores, p, q))
    ensures Total(lattice, Trace(lattice, scores, p, q)) == scores[p][q].score
    decreases p
  {
    var path := Trace(lattice, scores, p, q);
    var cell := scores[p][q];
    assert CellOk(lattice, scores, p, q, |lattice| - 1, 0);
    if cell.r == -1 {
      NoStart(lattice, scores, p, q);
      assert path[..0] == [];
    } else {
      TraceScores(lattice, scores, cell.l, cell.r);
      assert path[..|path| - 1] == Trace(lattice, scores, cell.l, cell.r);
    }
  }

  lemma NoStart(lattice: Lattice, scores: Scores, p: int, q: int)
    requires Forward(lattice) && AllOk(lattice, scores, |lattice| - 1, 0) && Reachable(lattice) && IsCell(lattice, p, q)
    requires scores[p][q].r == -1
    ensures p == 0
  {
    assert CellOk(lattice, scores, p, q, |lattice| - 1, 0);
    if p > 0 {
      var a, b :| LeadsTo(lattice, a, b, p);
      assert Handled(a, b, |lattice| - 1, 0);
      assert false;
    }
  }

  /** The links of the end cell describe a best path through the lattice, the first of them, seen from the end. */
  lemma BestPath(lattice: Lattice, scores: Scores)
    requires Forward(lattice) && AllOk(lattice, scores, |lattice| - 1, 0) && Reachable(lattice)
    ensures var best := Trace(lattice, scores, |lattice| - 1, 0);
      && IsPath(lattice, best)
      && forall path :: IsPath(lattice, path) && path[|path| - 1] == (|lattice| - 1, 0) ==>
          Total(lattice, path) <= Total(lattice, best)
              && (Total(lattice, path) == Total(lattice, best) ==> path == best || Earlier(best, path))
  {
    assert SameShape(lattice, scores);
    hide AllOk, Total, CellOk, Trace, Reachable, Earlier;
    TraceScores(lattice, scores, |lattice| - 1, 0);
    forall path | IsPath(lattice, path) && path[|path| - 1] == (|lattice| - 1, 0)
      ensures var best := Trace(lattice, scores, |lattice| - 1, 0);
        Total(lattice, path) <= Total(lattice, best)
            && (Total(lattice, path) == Total(lattice, best) ==> path == best || Earlier(best, path))
    {
      PathBelow(lattice, scores, path);
      if Total(lattice, path) == scores[|lattice| - 1][0].score {
        TraceFirst(lattice, scores, |lattice| - 1, 0, path);
      }
    }
  }

  /** Going back from the end, the first path takes an earlier cell where the two first part. */
  predicate Earlier(path: seq<(int, int)>, other: seq<(int, int)>)
    decreases |path|
  {
    && path != [] && other != []
    && var a, b := path[|path| - 1], other[|other| - 1];
       if a == b then Earlier(path[..|path| - 1], other[..|other| - 1]) else Handled(a.0, a.1, b.0, b.1)
  }

  /** Among the paths with the best score the links describe the one that takes the earliest cells, from the end. */
  lemma {:induction false} TraceFirst(lattice: Lattice, scores: Scores, p: int, q: int, other: seq<(int, int)>)
    requires Forward(lattice) && AllOk(lattice, scores, |lattice| - 1, 0) && IsCell(lattice, p, q)
    requires IsPath(lattice, other) && other[|other| - 1] == (p, q) && Total(lattice, other) == scores[p][q].score
    ensures other == Trace(lattice, scores, p, q) || Earlier(Trace(lattice, scores, p, q), other)
    decreases p
  {
    var cell := scores[p][q];
    if |other| == 1 {
      StartCell(lattice, scores, q);
      assert other == [(p, q)];
    } else {
      var init, before := other[..|other| - 1], other[|other| - 2];
      LastStep(lattice, scores, p, q, other);
      hide Total, IsPath, AllOk, CellOk, Forward, LeadsTo, IsCell;
      TraceSplit(lattice, scores, p, q);
      assert other == init + [(p, q)];
      if before == (cell.l, cell.r) {
        TraceFirst(lattice, scores, cell.l, cell.r, init);
      }
    }
  }

  /** The last step of a path that scores what its last cell has: it comes from where the link leads, or from later. */
  lemma LastStep(lattice: Lattice, scores: Scores, p: int, q: int, other: seq<(int, int)>)
    requires Forward(lattice) && AllOk(lattice, scores, |lattice| - 1, 0) && IsCell(lattice, p, q)
    requires IsPath(lattice, other) && other[|other| - 1] == (p, q) && Total(lattice, other) == scores[p][q].score
    requires |other| > 1
    ensures var cell, init, before := scores[p][q], other[..|other| - 1], other[|other| - 2];
      && IsPath(lattice, init) && init[|init| - 1] == before && IsCell(lattice, before.0, before.1) && cell.r != -1
      && (before == (cell.l, cell.r) ==> Total(lattice, init) == scores[before.0][before.1].score)
      && (before != (cell.l, cell.r) ==> Handled(cell.l, cell.r, before.0, before.1))
  {
    var init, before := other[..|other| - 1], other[|other| - 2];
    assert CellOk(lattice, scores, p, q, |lattice| - 1, 0);
    assert LeadsTo(lattice, before.0, before.1, other[|other| - 2 + 1].0);
    assert Handled(before.0, before.1, |lattice| - 1, 0);
    assert IsPath(lattice, init);
    PathBelow(lattice, scores, init);
    assert Total(lattice, other) == Total(lattice, init) + lattice[p][q].score;
  }

  lemma TraceSplit(lattice: Lattice, scores: Scores, p: int, q: int)
    requires Forward(lattice) && AllOk(lattice, scores, |lattice| - 1, 0) && IsCell(lattice, p, q)
    requires scores[p][q].r != -1
    ensures var cell := scores[p][q];
      && 0 <= cell.l < p && IsCell(lattice, cell.l, cell.r)
      && Trace(lattice, scores, p, q)[..|Trace(lattice, scores, p, q)| - 1] == Trace(lattice, scores, cell.l, cell.r)
      && Trace(lattice, scores, p, q) == Trace(lattice, scores, cell.l, cell.r) + [(p, q)]
  {
    assert CellOk(lattice, scores, p, q, |lattice| - 1, 0);
  }

  // --- one relaxation ---

  /** Cell (p, q) after predecessor (i, j) was tried. */
  function Relaxed(lattice: Lattice, scores: Scores, i: nat, j: nat, p: nat, q: nat): SymbolPair
    requires |scores| == |lattice| && IsCell(lattice, i, j) && IsCell(lattice, p, q) && j < |scores[i]|
        && q < |scores[p]|
  {
    var newScore := scores[i][j].score + lattice[p][q].score;
    if scores[p][q].r == -1
        || scores[p][q].score < newScore then SymbolPair(newScore, i, j, scores[p][q].size) else scores[p][q]
  }

  lemma RelaxOne(lattice: Lattice, scores: Scores, scores': Scores, i: nat, j: nat, p: nat, q: nat)
    requires Forward(lattice) && SameShape(lattice, scores) && SameShape(lattice, scores')
    requires LeadsTo(lattice, i, j, p) && IsCell(lattice, p, q) && CellOk(lattice, scores, p, q, i, j)
    requires scores'[p][q] == Relaxed(lattice, scores, i, j, p, q)
    requires forall a, b :: IsCell(lattice, a, b) && a <= i ==> scores'[a][b] == scores[a][b]
    ensures CellOk(lattice, scores', p, q, i, j + 1)
  {
  }

  lemma Untouched(lattice: Lattice, scores: Scores, scores': Scores, i: nat, j: nat, p: nat, q: nat)
    requires Forward(lattice) && SameShape(lattice, scores) && SameShape(lattice, scores')
    requires IsCell(lattice, p, q) && CellOk(lattice, scores, p, q, i, j)
    requires scores'[p][q] == scores[p][q]
    requires forall a, b :: IsCell(lattice, a, b) && a <= i ==> scores'[a][b] == scores[a][b]
    ensures CellOk(lattice, scores', p, q, i, j)
    ensures !LeadsTo(lattice, i, j, p) ==> CellOk(lattice, scores', p, q, i, j + 1)
  {
  }

  lemma NextPosition(lattice: Lattice, scores: Scores, i: nat)
    requires Forward(lattice) && i < |lattice| - 1 && AllOk(lattice, scores, i, |lattice[i]|)
    ensures AllOk(lattice, scores, i + 1, 0)
  {
    forall p, q | IsCell(lattice, p, q) ensures CellOk(lattice, scores, p, q, i + 1, 0) {
      assert CellOk(lattice, scores, p, q, i, |lattice[i]|);
    }
  }

  /** The scores before the first relaxation: every cell has its own. */
  method InitialScores(lattice: Lattice) returns (scores: Scores)
    requires Forward(lattice)
    ensures AllOk(lattice, scores, 0, 0)
  {
    scores := [];
    var i := 0;
    while i < |lattice|
      invariant 0 <= i <= |lattice| && |scores| == i
      invariant forall a :: 0 <= a < i ==> |scores[a]| == |lattice[a]|
      invariant forall a, b :: 0 <= a < i && 0 <= b < |lattice[a]| ==>
          scores[a][b].r == -1 && scores[a][b].score == lattice[a][b].score
    {
      var row: seq<SymbolPair> := [];
      var j := 0;
      while j < |lattice[i]|
        invariant 0 <= j <= |lattice[i]| && |row| == j
        invariant forall b :: 0 <= b < j ==> row[b].r == -1 && row[b].score == lattice[i][b].score
      {
        row := row + [SymbolPair(lattice[i][j].score, i + lattice[i][j].size, -1, lattice[i][j].size)];
        j := j + 1;
      }
      scores := scores + [row];
      i := i + 1;
    }
  }

  /** Tries cell (i, j) as the predecessor of every cell that it leads to. */
  method Relax(lattice: Lattice, before: Scores, i: nat, j: nat) returns (scores: Scores)
    requires Forward(lattice) && i < |lattice| - 1 && j < |lattice[i]| && AllOk(lattice, before, i, j)
    ensures AllOk(lattice, scores, i, j + 1)
  {
    scores := before;
    var jNext := i + lattice[i][j].size;
    var k := 0;
    while k < |lattice[jNext]|
      invariant 0 <= k <= |lattice[jNext]| && SameShape(lattice, scores)
      invariant forall a, b :: IsCell(lattice, a, b) && !(a == jNext && b < k) ==> scores[a][b] == before[a][b]
      invariant forall q :: 0 <= q < k ==> scores[jNext][q] == Relaxed(lattice, before, i, j, jNext, q)
    {
      var newScore := scores[i][j].score + lattice[jNext][k].score;
      if scores[jNext][k].r == -1 || scores[jNext][k].score < newScore {
        scores := scores[jNext := scores[jNext][k := SymbolPair(newScore, i, j, scores[jNext][k].size)]];
      }
      k := k + 1;
    }
    forall p, q | IsCell(lattice, p, q) ensures CellOk(lattice, scores, p, q, i, j + 1) {
      assert CellOk(lattice, before, p, q, i, j);
      if p == jNext {
        RelaxOne(lattice, before, scores, i, j, p, q);
      } else {
        Untouched(lattice, before, scores, i, j, p, q);
      }
    }
  }

  /** Scores every cell with its best predecessor. */
  method Solve(lattice: Lattice) returns (scores: Scores)
    requires Forward(lattice)
    ensures AllOk(lattice, scores, |lattice| - 1, 0)
  {
    hide AllOk, Forward;
    scores := InitialScores(lattice);
    ForwardSize(lattice);
    var i := 0;
    while i < |lattice| - 1
      invariant 0 <= i <= |lattice| - 1 && AllOk(lattice, scores, i, 0)
    {
      var j := 0;
      while j < |lattice[i]|
        invariant 0 <= j <= |lattice[i]| && AllOk(lattice, scores, i, j)
      {
        scores := Relax(lattice, scores, i, j);
        j := j + 1;
      }
      NextPosition(lattice, scores, i);
      i := i + 1;
    }
  }

  lemma ForwardSize(lattice: Lattice)
    requires Forward(lattice)
    ensures lattice != [] && |lattice[|lattice| - 1]| == 1
  {
  }

  function Reverse(v: seq<int>): seq<int> {
    if v == [] then [] else [v[|v| - 1]] + Reverse(v[..|v| - 1])
  }

  lemma ReverseStep(v: seq<int>, x: int)
    ensures Reverse(v + [x]) == [x] + Reverse(v)
  {
    assert (v + [x])[..|v|] == v;
  }

  method Reversed(v: seq<int>) returns (r: seq<int>)
    ensures r == Reverse(v)
  {
    r := [];
    var i := |v|;
    assert v[..i] == v;
    while i > 0
      invariant 0 <= i <= |v| && Reverse(v) == r + Reverse(v[..i])
    {
      assert v[..i] == v[..i - 1] + [v[i - 1]];
      ReverseStep(v[..i - 1], v[i - 1]);
      r := r + [v[i - 1]];
      i := i - 1;
    }
  }

  /** The ids along a path. */
  function IdsAlong(lattice: Lattice, path: seq<(int, int)>): seq<int> {
    if path == [] then []
    else
      var last := path[|path| - 1];
      IdsAlong(lattice, path[..|path| - 1])
          + [if IsCell(lattice, last.0, last.1) then lattice[last.0][last.1].id else 0]
  }

  /** Follows the links back from the end cell, and turns the ids around. */
  method Backtrack(lattice: Lattice, scores: Scores) returns (v: seq<int>)
    requires Forward(lattice) && AllOk(lattice, scores, |lattice| - 1, 0)
    ensures var best := Trace(lattice, scores, |lattice| - 1, 0); v == IdsAlong(lattice, best[..|best| - 1])
  {
    ghost var n := |lattice| - 1;
    ghost var best := Trace(lattice, scores, n, 0);
    TraceStep(lattice, scores, n, 0);
    v := [];
    var row, column := scores[|lattice| - 1][0].l, scores[|lattice| - 1][0].r;
    while column != -1
      invariant column != -1 ==> IsCell(lattice, row, column) && row < |lattice| - 1
      invariant IdsAlong(lattice, best[..|best| - 1])
          == (if column == -1 then [] else IdsAlong(lattice, Trace(lattice, scores, row, column))) + Reverse(v)
      decreases if column == -1 then 0 else row + 1
    {
      TraceStep(lattice, scores, row, column);
      ReverseStep(v, lattice[row][column].id);
      v := v + [lattice[row][column].id];
      var node := scores[row][column];
      row, column := node.l, node.r;
    }
    v := Reversed(v);
  }

  lemma TraceStep(lattice: Lattice, scores: Scores, p: int, q: int)
    requires Forward(lattice) && AllOk(lattice, scores, |lattice| - 1, 0) && IsCell(lattice, p, q)
    ensures var cell, path := scores[p][q], Trace(lattice, scores, p, q);
      && (cell.r == -1 ==> path[..|path| - 1] == [])
      && (cell.r != -1 ==>
          LeadsTo(lattice, cell.l, cell.r, p) && cell.l < p
              && path[..|path| - 1] == Trace(lattice, scores, cell.l, cell.r))
      && IdsAlong(lattice, path)
          == (if cell.r == -1 then [] else IdsAlong(lattice, Trace(lattice, scores, cell.l, cell.r)))
              + [lattice[p][q].id]
  {
    assert CellOk(lattice, scores, p, q, |lattice| - 1, 0);
  }
}
