/** Encoding a stretch of text between special tokens with the rank-driven byte pair encoding. */
module RankEncoding {
  import opened Wrappers
  import opened TokenTrie
  import opened PairMerging
  import opened MergeLocality
  import opened RankMerge
  import opened TextScan
  import opened ScoreMerge
  import Tokenizers

  /** The boundary t steps behind boundary k, or -1. */
  method Skip(ghost cur: string, nodes: seq<PartitionNode>, i: nat, t: nat, ghost order: seq<nat>, ghost k: nat)
    returns (ret: int)
    requires Linked(cur, nodes, order) && k < |order| && order[k] == i
    ensures ret == if k + t < |order| then order[k + t] else -1
  {
    hide Linked;
    LinkedSize(cur, nodes, order);
    ret := i;
    var left := t;
    while left > 0
      invariant 0 <= left <= t && ret == if k + (t - left) < |order| then order[k + (t - left)] else -1
    {
      if ret != -1 {
        LinkedAt(cur, nodes, order, k + (t - left));
        ret := nodes[ret].next;
      }
      left := left - 1;
    }
  }

  /** The rank of joining everything from boundary k to the one skip + 2 steps behind it. */
  method GetRank(cur: string, dict: Ranks, nodes: seq<PartitionNode>, i: nat, skip: nat, ghost order: seq<nat>,
      ghost k: nat) returns (rank: int)
    requires Linked(cur, nodes, order) && k < |order| && order[k] == i
    ensures rank == Stretch(cur, dict, order, k, skip)
  {
    hide Linked;
    var nxt := Skip(cur, nodes, i, skip + 2, order, k);
    if nxt == -1 {
      return MAX;
    }
    LinkedSize(cur, nodes, order);
    LinkedAt(cur, nodes, order, k);
    LinkedAt(cur, nodes, order, k + skip + 2);
    var key := cur[nodes[i].first..nodes[nxt].first];
    if key in dict {
      return dict[key];
    }
    return MAX;
  }

  /** Before anything is joined, there is a boundary at every byte, linked to its neighbours. */
  method InitialNodes(cur: string) returns (nodes: seq<PartitionNode>)
    ensures Linked(cur, nodes, Iota(|cur| + 1))
    ensures forall j :: 0 <= j < |nodes| ==> nodes[j].rank == MAX
  {
    nodes := [];
    var j := 0;
    while j <= |cur|
      invariant 0 <= j <= |cur| + 1 == |cur| + 1 && |nodes| == j
      invariant forall i :: 0 <= i < j ==> nodes[i] == PartitionNode(i, MAX, if i < |cur| then i + 1 else -1, i - 1)
    {
      nodes := nodes + [PartitionNode(j, MAX, if j < |cur| then j + 1 else -1, j - 1)];
      j := j + 1;
    }
  }

  lemma SetRank(cur: string, nodes: seq<PartitionNode>, order: seq<nat>, j: nat, rank: int)
    requires Linked(cur, nodes, order) && j < |nodes|
    ensures Linked(cur, nodes[j := nodes[j].(rank := rank)], order)
  {
    hide Linked;
    var nodes' := nodes[j := nodes[j].(rank := rank)];
    LinkedSize(cur, nodes, order);
    forall k | 0 <= k < |order|
      ensures order[k] <= |cur| && nodes'[order[k]].first == order[k]
      ensures nodes'[order[k]].prev == if k == 0 then -1 else order[k - 1]
      ensures nodes'[order[k]].next == if k + 1 == |order| then -1 else order[k + 1]
      ensures forall l :: 0 <= l < k ==> order[l] < order[k]
    {
      LinkedAt(cur, nodes, order, k);
    }
    LinkedIs(cur, nodes', order);
  }

  lemma IotaStretch(cur: string, dict: Ranks, j: nat)
    requires j + 2 <= |cur|
    ensures RankAt(cur, dict, Iota(|cur| + 1), j) == RankOf(dict, cur[j..j + 2])
  {
  }

  /** Fills in the ranks of the pairs of bytes. */
  method InitialRanks(cur: string, dict: Ranks) returns (nodes: seq<PartitionNode>)
    requires cur != ""
    ensures Ranked(cur, dict, nodes, Iota(|cur| + 1))
  {
    hide Linked;
    nodes := InitialNodes(cur);
    LinkedSize(cur, nodes, Iota(|cur| + 1));
    var j := 0;
    while j < |cur| - 1
      invariant 0 <= j <= |cur| - 1 && |nodes| == |cur| + 1 && Linked(cur, nodes, Iota(|cur| + 1))
      invariant forall i :: 0 <= i < |nodes| ==>
          nodes[i].rank == if i < j then RankAt(cur, dict, Iota(|cur| + 1), i) else MAX
    {
      var key := cur[j..j + 2];
      IotaStretch(cur, dict, j);
      SetRank(cur, nodes, Iota(|cur| + 1), j, if key in dict then dict[key] else MAX);
      nodes := nodes[j := nodes[j].(rank := if key in dict then dict[key] else MAX)];
      j := j + 1;
    }
  }

  /** Puts the ranks of all boundaries into the set. */
  method InitialSet(nodes: seq<PartitionNode>) returns (pq: set<(int, nat)>)
    ensures SetHolds(nodes, Iota(|nodes|), pq)
  {
    pq := {};
    var j := 0;
    while j < |nodes|
      invariant 0 <= j <= |nodes|
      invariant forall e :: e in pq <==> e.1 < j && e.0 == nodes[e.1].rank
    {
      pq := pq + {(nodes[j].rank, j)};
      j := j + 1;
    }
    forall i: nat | i < |nodes| ensures i in Iota(|nodes|) {
      assert Iota(|nodes|)[i] == i;
    }
  }

  /** The list, the set, and what is still to be joined: the result is that of plain byte pair encoding on the bytes. */
  ghost predicate InStep(cur: string, dict: Ranks, nodes: seq<PartitionNode>, order: seq<nat>, pq: set<(int, nat)>) {
    && IntRanks(dict) && Ranked(cur, dict, nodes, order) && SetHolds(nodes, order, pq)
    && Merged(RankCosts(dict), PiecesOf(cur, order)) == Merged(RankCosts(dict), Bytes(cur))
  }

  lemma StepStart(cur: string, dict: Ranks, nodes: seq<PartitionNode>, pq: set<(int, nat)>)
    requires IntRanks(dict) && Ranked(cur, dict, nodes, Iota(|cur| + 1)) && SetHolds(nodes, Iota(|nodes|), pq)
    ensures InStep(cur, dict, nodes, Iota(|cur| + 1), pq) && Linked(cur, nodes, Iota(|cur| + 1))
  {
    LinkedSize(cur, nodes, Iota(|cur| + 1));
    var items := PiecesOf(cur, Iota(|cur| + 1));
    forall j | 0 <= j < |cur| ensures items[j] == Bytes(cur)[j] {
      assert cur[j..j + 1] == [cur[j]];
    }
    assert items == Bytes(cur);
  }

  /** The set is never empty, and its first entry is a boundary of the list. */
  lemma FirstFound(cur: string, dict: Ranks, nodes: seq<PartitionNode>, order: seq<nat>, pq: set<(int, nat)>)
    requires InStep(cur, dict, nodes, order, pq)
    ensures pq != {} && forall e :: e in pq ==> e.1 in order && e.1 < |nodes|
  {
    LinkedSize(cur, nodes, order);
    LinkedAt(cur, nodes, order, 0);
    assert order[0] in order;
    assert (nodes[order[0]].rank, order[0]) in pq;
  }

  lemma FirstJoins(cur: string, dict: Ranks, nodes: seq<PartitionNode>, order: seq<nat>, pq: set<(int, nat)>,
      first: (int, nat)) returns (k: nat)
    requires InStep(cur, dict, nodes, order, pq) && first in pq && forall e :: e in pq ==> Before(first, e)
    ensures Linked(cur, nodes, order) && k < |order| && order[k] == first.1 && first.1 < |nodes|
        && nodes[first.1].rank == first.0
    ensures nodes[order[k]].prev == if k == 0 then -1 else order[k - 1]
    ensures first.0 != MAX ==> IsBest(RankCosts(dict), PiecesOf(cur, order), k) && k + 2 < |order|
    ensures first.0 == MAX ==> PiecesOf(cur, order) == Merged(RankCosts(dict), Bytes(cur))
  {
    k :| 0 <= k < |order| && order[k] == first.1;
    LinkedAt(cur, nodes, order, k);
    FirstIsBest(cur, dict, nodes, order, pq, first, k);
    RankMeaning(cur, dict, nodes, order, k);
    hide RankCosts, PiecesOf, Merged, Linked;
    if first.0 == MAX {
      MergedStuck(RankCosts(dict), PiecesOf(cur, order));
    }
  }

  lemma StepJoin(cur: string, dict: Ranks, nodes: seq<PartitionNode>, order: seq<nat>, pq: set<(int, nat)>, k: nat,
      selRank: int, prevRank: int)
    requires InStep(cur, dict, nodes, order, pq) && k + 2 < |order| && IsBest(RankCosts(dict), PiecesOf(cur, order), k)
    requires selRank == Stretch(cur, dict, order, k, 1) && (k > 0 ==> prevRank == Stretch(cur, dict, order, k - 1, 1))
    ensures order[k] < |nodes| && 0 <= nodes[order[k]].next < |nodes| && nodes[order[k]].prev < |nodes|
    ensures InStep(cur, dict, JoinNodes(nodes, order[k], selRank, prevRank), Without(order, k + 1),
        JoinSet(nodes, order[k], selRank, prevRank, pq))
    ensures |Without(order, k + 1)| == |order| - 1 && |JoinNodes(nodes, order[k], selRank, prevRank)| == |nodes|
    ensures Linked(cur, JoinNodes(nodes, order[k], selRank, prevRank), Without(order, k + 1))
  {
    hide RankCosts, PiecesOf, Merged, Linked, SetHolds, JoinNodes, JoinSet, MergeAt, IsBest, Stretch;
    JoinRanked(cur, dict, nodes, order, k, selRank, prevRank);
    SizeOfJoin(cur, nodes, order, k, selRank, prevRank);
    JoinSetHolds(cur, nodes, order, k, selRank, prevRank, pq);
    JoinPieces(cur, nodes, order, k);
    MergedStep(RankCosts(dict), PiecesOf(cur, order), k);
  }

  /** The boundaries before and behind a text that is not empty stay. */
  lemma OrderSize(cur: string, nodes: seq<PartitionNode>, order: seq<nat>)
    requires Linked(cur, nodes, order) && cur != ""
    ensures |order| > 1 && |nodes| == |cur| + 1
  {
    LinkedSize(cur, nodes, order);
  }

  /** Takes the boundary behind sel out of the list. */
  method JoinAt(ghost cur: string, nodes: seq<PartitionNode>, sel: nat, selRank: int, prevRank: int,
      ghost order: seq<nat>, ghost k: nat)
    returns (joined: seq<PartitionNode>)
    requires Linked(cur, nodes, order) && k + 2 < |order| && order[k] == sel
    ensures sel < |nodes| && 0 <= nodes[sel].next < |nodes| && joined == JoinNodes(nodes, sel, selRank, prevRank)
  {
    LinkedSize(cur, nodes, order);
    LinkedAt(cur, nodes, order, k);
    LinkedAt(cur, nodes, order, k + 1);
    LinkedAt(cur, nodes, order, k + 2);
    hide Linked;
    joined := nodes[sel := nodes[sel].(rank := selRank)];
    if joined[sel].prev != -1 {
      joined := joined[joined[sel].prev := joined[joined[sel].prev].(rank := prevRank)];
    }
    joined := joined[sel := joined[sel].(next := joined[joined[sel].next].next)];
    joined := joined[joined[sel].next := joined[joined[sel].next].(prev := sel)];
    forall i | 0 <= i < |nodes| ensures joined[i] == JoinedNode(nodes, sel, selRank, prevRank, i) {
    }
  }

  /** Joins pairs of pieces, lowest rank first, until no pair has a rank. */
  method MergeRanks(cur: string, dict: Ranks) returns (nodes: seq<PartitionNode>, ghost order: seq<nat>)
    requires cur != "" && IntRanks(dict)
    ensures Linked(cur, nodes, order) && order != [] && PiecesOf(cur, order) == Merged(RankCosts(dict), Bytes(cur))
  {
    hide Linked, Ranked, SetHolds, InStep, PiecesOf, Merged, RankCosts, IsBest, JoinNodes, JoinSet, Stretch, Without,
        Bytes;
    nodes := InitialRanks(cur, dict);
    var pq := InitialSet(nodes);
    order := Iota(|cur| + 1);
    StepStart(cur, dict, nodes, pq);
    var del := 0;
    OrderSize(cur, nodes, order);
    while |nodes| - del > 1
      invariant InStep(cur, dict, nodes, order, pq) && |nodes| - del == |order| > 1
      decreases |order|
    {
      FirstFound(cur, dict, nodes, order, pq);
      ghost var lowest := FirstExists(pq);
      var first :| first in pq && forall e :: e in pq ==> Before(first, e);
      ghost var k := FirstJoins(cur, dict, nodes, order, pq, first);
      var minRank, sel := first.0, first.1;
      if minRank == MAX {
        break;
      }
      var selRank := GetRank(cur, dict, nodes, sel, 1, order, k);
      var prevRank := 0;
      if nodes[sel].prev != -1 {
        prevRank := GetRank(cur, dict, nodes, nodes[sel].prev, 1, order, k - 1);
      }
      StepJoin(cur, dict, nodes, order, pq, k, selRank, prevRank);
      pq := JoinSet(nodes, sel, selRank, prevRank, pq);
      nodes := JoinAt(cur, nodes, sel, selRank, prevRank, order, k);
      order := Without(order, k + 1);
      OrderSize(cur, nodes, order);
      del := del + 1;
    }
  }

  function IdOf(dict: Ranks, item: Item): int {
    if item.text in dict then dict[item.text] else 0
  }

  function IdsOf(dict: Ranks, items: seq<Item>): seq<int> {
    seq(|items|, i requires 0 <= i < |items| => IdOf(dict, items[i]))
  }

  /** Looking up a piece that is not in the dictionary adds it, with id 0. */
  function WithMissing(dict: Ranks, items: seq<Item>): Ranks {
    if items == [] then dict
    else
      var before, text := WithMissing(dict, items[..|items| - 1]), items[|items| - 1].text;
      if text in before then before else before[text := 0]
  }

  lemma {:induction false} WithMissingIs(dict: Ranks, items: seq<Item>)
    ensures dict.Keys <= WithMissing(dict, items).Keys
    ensures forall t :: t in WithMissing(dict, items) ==>
        WithMissing(dict, items)[t] == if t in dict then dict[t] else 0
    ensures (forall i :: 0 <= i < |items| ==> items[i].text in dict) ==> WithMissing(dict, items) == dict
  {
    if items != [] {
      WithMissingIs(dict, items[..|items| - 1]);
    }
  }

  /** The strings of the ids, one behind the other. */
  function Strings(tokenToString: map<int, string>, ids: seq<int>): string {
    if ids == [] then ""
    else (if ids[0] in tokenToString then tokenToString[ids[0]] else "") + Strings(tokenToString, ids[1..])
  }

  /** Where every piece is known and ids lead back to their strings, the strings of the ids spell the text. */
  lemma {:induction false} IdsSpell(dict: Ranks, tokenToString: map<int, string>, items: seq<Item>)
    requires forall t :: t in dict ==> dict[t] in tokenToString && tokenToString[dict[t]] == t
    requires forall i :: 0 <= i < |items| ==> items[i].text in dict
    ensures Strings(tokenToString, IdsOf(dict, items)) == Spell(items)
    decreases |items|
  {
    if items != [] {
      IdsSpell(dict, tokenToString, items[1..]);
      assert IdsOf(dict, items)[1..] == IdsOf(dict, items[1..]);
    }
  }

  /** The pieces lie between the boundaries that plain byte pair encoding leaves in text, but are taken from cur: their
      ids, and the dictionary with those it lacked. */
  ghost predicate Encoded(dict: Ranks, dict': Ranks, text: string, cur: string, v: seq<int>, order: seq<nat>) {
    && order != [] && PiecesOf(text, order) == Merged(RankCosts(dict), Bytes(text))
    && v == IdsOf(dict, PiecesOf(cur, order)) && dict' == WithMissing(dict, PiecesOf(cur, order))
  }

  /** Encodes a stretch of text, from its single bytes: the ids of the pieces that plain byte pair encoding leaves. The
      program takes the ranks from text and the pieces from cur, which should be the same. */
  method EncodeChunk(tokenizer: Tokenizers.Tokenizer, text: string, cur: string)
    returns (v: seq<int>, ghost order: seq<nat>)
    requires |text| == |cur| > 0 && IntRanks(tokenizer.stringToTokenDict)
    modifies tokenizer`stringToTokenDict
    ensures Encoded(old(tokenizer.stringToTokenDict), tokenizer.stringToTokenDict, text, cur, v, order)
  {
    hide Linked, Merged, RankCosts, Bytes, IdOf, WithMissing, PiecesOf;
    ghost var dict := tokenizer.stringToTokenDict;
    var nodes, boundaries := MergeRanks(text, tokenizer.stringToTokenDict);
    order := boundaries;
    LinkedToo(text, cur, nodes, order);
    ghost var items := PiecesOf(cur, order);
    LinkedSize(cur, nodes, order);
    NoneMissing(dict, items);
    v := [];
    var it := 0;
    ghost var k := 0;
    LinkedAt(cur, nodes, order, 0);
    while nodes[it].next != -1
      invariant 0 <= k < |order| && it == order[k] && it < |nodes|
      invariant nodes[it].next == if k + 1 == |order| then -1 else order[k + 1]
      invariant v == IdsOf(dict, items[..k]) && tokenizer.stringToTokenDict == WithMissing(dict, items[..k])
      decreases |order| - k
    {
      LinkedAt(cur, nodes, order, k);
      LinkedAt(cur, nodes, order, k + 1);
      var key := cur[nodes[it].first..nodes[nodes[it].next].first];
      PieceText(cur, nodes, order, k);
      MissingStep(dict, items, k);
      if key !in tokenizer.stringToTokenDict {
        tokenizer.stringToTokenDict := tokenizer.stringToTokenDict[key := 0];
      }
      v := v + [tokenizer.stringToTokenDict[key]];
      it := nodes[it].next;
      k := k + 1;
    }
    assert items[..k] == items;
  }

  lemma LinkedToo(text: string, cur: string, nodes: seq<PartitionNode>, order: seq<nat>)
    requires Linked(text, nodes, order) && |cur| == |text|
    ensures Linked(cur, nodes, order)
  {
  }

  // --- cutting the stretch out of the text ---

  /** Where the search for the next symbol goes on: behind the shortest token from i, or one byte further. */
  function NextSymbol(dict: Dict, ori: string, i: nat): (next: nat)
    requires i < |ori|
    ensures i < next <= |ori|
  {
    var end := ShortestEnd(dict, ori, i, i + 1);
    if end.Some? then end.value else i + 1
  }

  /** How many symbols are found from i on until `to` is reached or passed, and where the search stands then. */
  function Symbols(dict: Dict, ori: string, i: nat, to: nat): (found: (nat, nat))
    requires to <= |ori|
    decreases if i < to then to - i else 0
  {
    if i >= to then (0, i)
    else
      var rest := Symbols(dict, ori, NextSymbol(dict, ori, i), to);
      (1 + rest.0, rest.1)
  }

  /** Every byte of the stretch that starts some token of its text is a token itself. */
  ghost predicate SinglesOnly(dict: Dict, ori: string, from: nat, to: nat)
    requires to <= |ori|
  {
    forall i :: from <= i < to ==> NextSymbol(dict, ori, i) == i + 1
  }

  lemma {:induction false} SymbolCount(dict: Dict, ori: string, i: nat, to: nat)
    requires to <= |ori|
    ensures var (n, end) := Symbols(dict, ori, i, to);
      i <= to ==>
        && to <= end && n <= to - i && (i < to ==> n > 0)
        && (n == to - i && end == to <==> SinglesOnly(dict, ori, i, to))
    decreases if i < to then to - i else 0
  {
    if i < to {
      var next := NextSymbol(dict, ori, i);
      SymbolCount(dict, ori, next, to);
      hide NextSymbol;
      assert SinglesOnly(dict, ori, i, to) <==> next == i + 1 && SinglesOnly(dict, ori, i + 1, to);
      assert next > to ==> Symbols(dict, ori, next, to) == (0, next);
    }
  }

  /** The program counts symbols and takes as many bytes from the end of the stretch. That is the stretch if and only if
      every byte of it that starts a token is a token. */
  lemma CutIsExact(dict: Dict, ori: string, from: nat, to: nat)
    requires from < to <= |ori|
    ensures var (n, end) := Symbols(dict, ori, from, to);
      && 0 < n <= to - from
      && (end == to && ori[to - n..to] == ori[from..to] <==> SinglesOnly(dict, ori, from, to))
  {
    SymbolCount(dict, ori, from, to);
    hide Symbols, SinglesOnly;
    var n := Symbols(dict, ori, from, to).0;
    assert |ori[to - n..to]| == n && |ori[from..to]| == to - from;
  }

  /** In terms of the vocabulary: no token starts with a byte of the stretch that is no token, as far as the text goes
      on. */
  lemma SinglesMean(dict: Dict, ori: string, from: nat, to: nat)
    requires to <= |ori|
    ensures SinglesOnly(dict, ori, from, to) <==>
            forall i :: from <= i < to ==> [ori[i]] in dict || forall m :: i < m <= |ori| ==> ori[i..m] !in dict
  {
    forall i | from <= i < to
      ensures NextSymbol(dict, ori, i) == i + 1 <==> [ori[i]] in dict || forall m :: i < m <= |ori| ==>
          ori[i..m] !in dict
    {
      assert ori[i..i + 1] == [ori[i]];
      var end := ShortestEnd(dict, ori, i, i + 1);
      if end.Some? && end.value == i + 1 {
        assert [ori[i]] in dict;
      } else if end.Some? {
        assert ori[i..i + 1] !in dict && ori[i..end.value] in dict;
      }
    }
  }

  /** With "ab" as the only token, the text "ab" is one symbol, and its last byte is encoded instead of it. */
  lemma WrongCut(dict: Dict)
    requires "ab" in dict && "a" !in dict
    ensures Symbols(dict, "ab", 0, 2) == (1, 2) && "ab"[2 - 1..2] == "b" && !SinglesOnly(dict, "ab", 0, 2)
  {
    assert "ab"[0..1] == "a" && "ab"[0..2] == "ab";
    assert NextSymbol(dict, "ab", 0) == 2;
    assert Symbols(dict, "ab", 2, 2) == (0, 2);
    assert NextSymbol(dict, "ab", 0) != 0 + 1;
  }

  /** Encodes the stretch from `from` to `to`, where the next special token or the end of the text is. If a token
      reaches across `to`, the program does not notice that the stretch has ended, and there is no result for it. */
  method EncodeStretch(tokenizer: Tokenizers.Tokenizer, ori: string, from: nat, to: nat)
    returns (v: Option<seq<int>>, ghost order: seq<nat>)
    requires tokenizer.Valid() && from < to <= |ori| && IntRanks(tokenizer.stringToTokenDict)
    modifies tokenizer`stringToTokenDict
    ensures v.Some? <==> Symbols(tokenizer.root.dict, ori, from, to).1 == to
    ensures v.Some? ==>
              var n, dict := Symbols(tokenizer.root.dict, ori, from, to).0, old(tokenizer.stringToTokenDict);
              && 0 < n <= to - from
              && Encoded(dict, tokenizer.stringToTokenDict, ori[from..from + n], ori[to - n..to], v.value, order)
              && (SameEncodings(dict, tokenizer.stringToTokenDict) <==>
                  NoneSplits(dict, PiecesOf(ori[to - n..to], order)))
    ensures SinglesOnly(tokenizer.root.dict, ori, from, to) ==>
              var dict := old(tokenizer.stringToTokenDict);
              var items := Merged(RankCosts(dict), Bytes(ori[from..to]));
              && v == Some(Encoding(dict, ori[from..to]))
              && tokenizer.stringToTokenDict == WithMissing(dict, items)
              && SameEncodings(dict, tokenizer.stringToTokenDict)
  {
    hide *;
    SymbolCount(tokenizer.root.dict, ori, from, to);
    var n, i := CountSymbols(tokenizer, ori, from, to);
    if i != to {
      return None, [];
    }
    var ids, boundaries := EncodeChunk(tokenizer, ori[from..from + n], ori[to - n..to]);
    v, order := Some(ids), boundaries;
    EncodedStable(old(tokenizer.stringToTokenDict), tokenizer.stringToTokenDict, ori[from..from + n], ori[to - n..to],
        ids, order);
    if n == to - from {
      WholeStretch(old(tokenizer.stringToTokenDict), tokenizer.stringToTokenDict, ori, from, to, n, ids, order);
    }
  }

  /** Goes over the stretch symbol by symbol. */
  method CountSymbols(tokenizer: Tokenizers.Tokenizer, ori: string, from: nat, to: nat) returns (n: nat, i: nat)
    requires tokenizer.Valid() && from < to <= |ori|
    ensures (n, i) == Symbols(tokenizer.root.dict, ori, from, to)
  {
    hide *;
    n, i := 0, from;
    while i < to
      invariant from <= i <= |ori|
      invariant n + Symbols(tokenizer.root.dict, ori, i, to).0 == Symbols(tokenizer.root.dict, ori, from, to).0
      invariant Symbols(tokenizer.root.dict, ori, i, to).1 == Symbols(tokenizer.root.dict, ori, from, to).1
    {
      SymbolsFrom(tokenizer.root.dict, ori, i, to);
      NextIs(tokenizer.root.dict, ori, i);
      var now, end := tokenizer.FindShortest(ori, i);
      i := if end > i then end else i + 1;
      n := n + 1;
    }
    SymbolsFrom(tokenizer.root.dict, ori, i, to);
  }

  lemma WholeStretch(dict: Ranks, dict': Ranks, ori: string, from: nat, to: nat, n: nat, v: seq<int>, order: seq<nat>)
    requires from < to <= |ori| && n == to - from
        && Encoded(dict, dict', ori[from..from + n], ori[to - n..to], v, order)
    ensures v == Encoding(dict, ori[from..to])
    ensures dict' == WithMissing(dict, Merged(RankCosts(dict), Bytes(ori[from..to])))
    ensures SameEncodings(dict, dict')
  {
    EncodingStable(dict, ori[from..to]);
    hide Merged, RankCosts, Bytes, IdsOf, WithMissing, PiecesOf, SameEncodings;
    assert ori[from..from + n] == ori[to - n..to] == ori[from..to];
  }

  lemma EncodedStable(dict: Ranks, dict': Ranks, text: string, cur: string, v: seq<int>, order: seq<nat>)
    requires Encoded(dict, dict', text, cur, v, order)
    ensures SameEncodings(dict, dict') <==> NoneSplits(dict, PiecesOf(cur, order))
  {
    hide SameEncodings, NoneSplits, WithMissing, Merged;
    SameEncodingsIff(dict, PiecesOf(cur, order));
  }

  lemma NextIs(dict: Dict, ori: string, i: nat)
    requires i < |ori|
    ensures NextSymbol(dict, ori, i) == var end := ShortestEnd(dict, ori, i, i + 1);
        if end.Some? then end.value else i + 1
  {
  }

  lemma SymbolsFrom(dict: Dict, ori: string, i: nat, to: nat)
    requires to <= |ori|
    ensures i >= to ==> Symbols(dict, ori, i, to) == (0, i)
    ensures i < to ==> var rest := Symbols(dict, ori, NextSymbol(dict, ori, i), to);
        Symbols(dict, ori, i, to) == (1 + rest.0, rest.1)
  {
  }

  lemma NoneMissing(dict: Ranks, items: seq<Item>)
    ensures IdsOf(dict, items[..0]) == [] && WithMissing(dict, items[..0]) == dict
  {
  }

  lemma PieceText(cur: string, nodes: seq<PartitionNode>, order: seq<nat>, k: nat)
    requires Linked(cur, nodes, order) && k + 1 < |order|
    ensures 0 <= order[k] <= order[k + 1] <= |cur| && PiecesOf(cur, order)[k].text == cur[order[k]..order[k + 1]]
  {
    LinkedAt(cur, nodes, order, k);
    LinkedAt(cur, nodes, order, k + 1);
  }

  lemma MissingStep(dict: Ranks, items: seq<Item>, k: nat)
    requires k < |items|
    ensures var before, text := WithMissing(dict, items[..k]), items[k].text;
      && WithMissing(dict, items[..k + 1]) == (if text in before then before else before[text := 0])
      && (text in before ==> before[text] == IdOf(dict, items[k])) && (text !in before ==> IdOf(dict, items[k]) == 0)
      && IdsOf(dict, items[..k + 1]) == IdsOf(dict, items[..k]) + [IdOf(dict, items[k])]
  {
    assert items[..k + 1][..k] == items[..k];
    WithMissingIs(dict, items[..k]);
    assert forall i :: 0 <= i < k ==> items[..k + 1][i] == items[..k][i];
  }

  /** When every byte of the text is a token, all pieces are tokens: they spell the text, no two neighbours can be
      joined, and the dictionary stays as it is. */
  lemma ChunkMeaning(dict: Ranks, cur: string)
    requires forall j :: 0 <= j < |cur| ==> [cur[j]] in dict
    ensures var items := Merged(RankCosts(dict), Bytes(cur));
      && Spell(items) == cur
      && Stuck(RankCosts(dict), items)
      && (forall i :: 0 <= i < |items| ==>
          items[i].Piece? && items[i].text in dict && IdOf(dict, items[i]) == dict[items[i].text])
      && WithMissing(dict, items) == dict
  {
    var items := Merged(RankCosts(dict), Bytes(cur));
    MergedMeaning(RankCosts(dict), Bytes(cur));
    SpellBytes(cur);
    forall i | 0 <= i < |items| ensures items[i].Piece? && items[i].text in dict {
    }
    WithMissingIs(dict, items);
  }

  /** How a text is encoded by itself. */
  function Encoding(dict: Ranks, t: string): seq<int> {
    IdsOf(dict, Merged(RankCosts(dict), Bytes(t)))
  }

  /** Of these pieces, plain byte pair encoding leaves none that is missing from the dictionary in two pieces. */
  ghost predicate NoneSplits(dict: Ranks, items: seq<Item>) {
    forall i :: 0 <= i < |items| && items[i].text !in dict ==> |Merged(RankCosts(dict), Bytes(items[i].text))| != 2
  }

  ghost predicate SameEncodings(dict: Ranks, dict': Ranks) {
    forall t :: Encoding(dict', t) == Encoding(dict, t)
  }

  lemma {:induction false} MissingAre(dict: Ranks, items: seq<Item>, t: string)
    ensures t in WithMissing(dict, items) <==> t in dict || exists i :: 0 <= i < |items| && items[i].text == t
    decreases |items|
  {
    if items != [] {
      var init := items[..|items| - 1];
      MissingAre(dict, init, t);
      assert forall i :: 0 <= i < |init| ==> init[i] == items[i];
      assert t == items[|items| - 1].text ==> t in WithMissing(dict, items);
    }
  }

  /** What looking the pieces up does to the costs. */
  lemma MissingCosts(dict: Ranks, items: seq<Item>)
    ensures var c, d := RankCosts(dict), RankCosts(WithMissing(dict, items));
      Extends(c, d) && (NoneSplits(dict, items) <==> forall k :: !Splits(c, d, k))
  {
    var dict' := WithMissing(dict, items);
    var c, d := RankCosts(dict), RankCosts(dict');
    WithMissingIs(dict, items);
    hide WithMissing, Merged;
    forall k ensures k in d && k !in c <==> k !in dict && exists i :: 0 <= i < |items| && items[i].text == k {
      MissingAre(dict, items, k);
    }
    if !NoneSplits(dict, items) {
      var i :| 0 <= i < |items| && items[i].text !in dict && |Merged(c, Bytes(items[i].text))| == 2;
      assert Splits(c, d, items[i].text);
    }
  }

  /** Looking up pieces leaves the encodings of all texts as they are if and only if plain byte pair encoding leaves
      none of the missing ones in two pieces. */
  lemma SameEncodingsIff(dict: Ranks, items: seq<Item>)
    ensures SameEncodings(dict, WithMissing(dict, items)) <==> NoneSplits(dict, items)
  {
    var dict' := WithMissing(dict, items);
    var c, d := RankCosts(dict), RankCosts(dict');
    MissingCosts(dict, items);
    WithMissingIs(dict, items);
    hide WithMissing, Merged, RankCosts, Bytes, Splits;
    if NoneSplits(dict, items) {
      forall t ensures Encoding(dict', t) == Encoding(dict, t) {
        LocalStart(c, t);
        NothingNew(c, d, Bytes(t));
        assert forall item :: IdOf(dict', item) == IdOf(dict, item);
      }
    } else {
      var k :| Splits(c, d, k);
      var t := SomethingNew(c, d, k);
      assert |Encoding(dict', t)| == 1 && |Encoding(dict, t)| == 2;
    }
  }

  /** A missing byte stays one piece, and a missing string of two bytes is left in two. */
  lemma ShortPieces(dict: Ranks, t: string)
    requires t !in dict
    ensures |t| <= 1 ==> |Merged(RankCosts(dict), Bytes(t))| == |t|
    ensures |t| == 2 ==> |Merged(RankCosts(dict), Bytes(t))| == 2
  {
    assert |t| == 2 ==> [t[0]] + [t[1]] == t;
    assert |t| <= 2 ==> Stuck(RankCosts(dict), Bytes(t));
  }

  /** When the text of the ranks is the text of the pieces, only bytes are missing, and nothing changes. */
  lemma EncodingStable(dict: Ranks, cur: string)
    ensures SameEncodings(dict, WithMissing(dict, Merged(RankCosts(dict), Bytes(cur))))
  {
    var items := Merged(RankCosts(dict), Bytes(cur));
    MergedMeaning(RankCosts(dict), Bytes(cur));
    hide Merged;
    forall i | 0 <= i < |items| && items[i].text !in dict
      ensures |Merged(RankCosts(dict), Bytes(items[i].text))| != 2
    {
      assert items[i] in Bytes(cur);
      ShortPieces(dict, items[i].text);
    }
    SameEncodingsIff(dict, items);
  }

  /** When it is not, a string of several bytes can be added, and gets the best rank. With the tokens "ab", "x", "y" and
      "b", the stretch "abxy" has three symbols: the boundaries come from "abx" and the pieces from "bxy". So "bx" is
      added with id 0, and the text "bx", which was two tokens, is encoded as that id afterwards. */
  lemma LookupChanges(tokens: Dict)
    requires tokens.Keys == {"ab", "x", "y", "b"}
    ensures Symbols(tokens, "abxy", 0, 4) == (3, 4)
    ensures Encoded(EXAMPLE, EXAMPLE["bx" := 0], "abxy"[0..3], "abxy"[1..4], [0, 2], [0, 2, 3])
    ensures Encoding(EXAMPLE, "bx") == [3, 1] && Encoding(EXAMPLE["bx" := 0], "bx") == [0]
  {
    ScanExample(tokens);
    ExamplePieces();
    ExampleTexts();
  }

  const EXAMPLE := map["ab" := 5, "x" := 1, "y" := 2, "b" := 3]

  lemma ExampleKeys()
    ensures "ab" in EXAMPLE && "bx" !in EXAMPLE && "abx" !in EXAMPLE && EXAMPLE["b"] == 3 && EXAMPLE["x"] == 1
    ensures RankCosts(EXAMPLE).Keys == EXAMPLE.Keys
    ensures "bx" in RankCosts(EXAMPLE["bx" := 0])
  {
    assert "bx"[0] != "ab"[0] && |"bx"| != |"x"| && |"abx"| == 3;
    assert EXAMPLE.Keys == {"ab", "x", "y", "b"};
  }

  lemma ExamplePieces()
    ensures Encoded(EXAMPLE, EXAMPLE["bx" := 0], "abxy"[0..3], "abxy"[1..4], [0, 2], [0, 2, 3])
  {
    assert "abxy"[0..3] == "abx" && "abxy"[1..4] == "bxy";
    ExampleKeys();
    var c := RankCosts(EXAMPLE);
    hide RankCosts, Merged, WithMissing, IdsOf;
    assert "a" + "b" == "ab" && "b" + "x" == "bx" && "ab" + "x" == "abx";
    assert Bytes("abx") == [Piece("a"), Piece("b"), Piece("x")];
    JoinFront(c, "a", "b", "x");
    assert "abx"[0..2] == "ab" && "abx"[2..3] == "x" && "bxy"[0..2] == "bx" && "bxy"[2..3] == "y";
    assert PiecesOf("abx", [0, 2, 3]) == [Piece("ab"), Piece("x")];
    assert PiecesOf("bxy", [0, 2, 3]) == [Piece("bx"), Piece("y")];
    LookupTwo(EXAMPLE, Piece("bx"), Piece("y"));
  }

  lemma ExampleTexts()
    ensures Encoding(EXAMPLE, "bx") == [3, 1] && Encoding(EXAMPLE["bx" := 0], "bx") == [0]
  {
    ExampleKeys();
    hide RankCosts, Merged;
    var items := [Piece("b"), Piece("x")];
    assert Bytes("bx") == items && "b" + "x" == "bx";
    MergedStuck(RankCosts(EXAMPLE), items);
    JoinBoth(RankCosts(EXAMPLE["bx" := 0]), "b", "x");
  }

  lemma LookupTwo(dict: Ranks, x: Item, y: Item)
    requires x.text !in dict && y.text in dict
    ensures WithMissing(dict, [x, y]) == dict[x.text := 0] && IdsOf(dict, [x, y]) == [0, dict[y.text]]
  {
    assert [x, y][..1] == [x] && [x][..0] == [];
    assert WithMissing(dict, [x]) == dict[x.text := 0];
  }

  lemma JoinBoth(c: Costs, x: string, y: string)
    requires x + y in c
    ensures Merged(c, [Piece(x), Piece(y)]) == [Piece(x + y)]
  {
    var items := [Piece(x), Piece(y)];
    assert IsBest(c, items, 0);
    MergedStep(c, items, 0);
    assert MergeAt(items, 0) == [Piece(x + y)];
    MergedStuck(c, [Piece(x + y)]);
  }

  lemma JoinFront(c: Costs, x: string, y: string, z: string)
    requires x + y in c && y + z !in c && x + y + z !in c
    ensures Merged(c, [Piece(x), Piece(y), Piece(z)]) == [Piece(x + y), Piece(z)]
  {
    var items := [Piece(x), Piece(y), Piece(z)];
    assert IsBest(c, items, 0);
    MergedStep(c, items, 0);
    assert MergeAt(items, 0) == [Piece(x + y), Piece(z)];
    MergedStuck(c, [Piece(x + y), Piece(z)]);
  }

  lemma ScanExample(tokens: Dict)
    requires tokens.Keys == {"ab", "x", "y", "b"}
    ensures Symbols(tokens, "abxy", 0, 4) == (3, 4)
  {
    var ori := "abxy";
    assert ori[0..1] == "a" && ori[0..2] == "ab" && ori[2..3] == "x" && ori[3..4] == "y";
    assert "a" !in tokens.Keys && "ab" in tokens.Keys && "x" in tokens.Keys && "y" in tokens.Keys;
    assert NextSymbol(tokens, ori, 0) == 2 && NextSymbol(tokens, ori, 2) == 3 && NextSymbol(tokens, ori, 3) == 4;
    assert Symbols(tokens, ori, 4, 4) == (0, 4);
    assert Symbols(tokens, ori, 3, 4) == (1, 4);
    assert Symbols(tokens, ori, 2, 4) == (2, 4);
  }
}
