/** The rank-driven byte pair encoding: a linked list of the boundaries between the pieces, and an ordered set that
    holds, for every boundary, the rank of joining the two pieces behind it. */
module RankMerge {
  import opened PairMerging
  import opened ScoreMerge

  /** The largest int, which stands for no rank. */
  const MAX := 0x7fff_ffff

  /** A boundary before byte number `first`; links are indices, -1 for none. */
  datatype PartitionNode = PartitionNode(first: nat, rank: int, next: int, prev: int)

  type Ranks = map<string, int>

  /** Token ids fit an int. */
  ghost predicate IntRanks(dict: Ranks) {
    forall t :: t in dict ==> dict[t] <= MAX
  }

  function RankCosts(dict: Ranks): Costs {
    map t | t in dict && dict[t] != MAX :: dict[t] as real
  }

  function RankOf(dict: Ranks, key: string): int {
    if key in dict then dict[key] else MAX
  }

  /** order lists the boundaries that are left, the first before the text and the last behind it. */
  ghost predicate Linked(cur: string, nodes: seq<PartitionNode>, order: seq<nat>) {
    && |nodes| == |cur| + 1 && order != []
    && order[0] == 0 && order[|order| - 1] == |cur|
    && (forall k :: 0 <= k < |order| ==> order[k] <= |cur|)
    && (forall j, k :: 0 <= j < k < |order| ==> order[j] < order[k])
    && (forall k :: 0 <= k < |order| ==> nodes[order[k]].first == order[k])
    && (forall k :: 0 <= k < |order| ==> nodes[order[k]].prev == if k == 0 then -1 else order[k - 1])
    && (forall k :: 0 <= k < |order| ==> nodes[order[k]].next == if k + 1 == |order| then -1 else order[k + 1])
  }

  lemma LinkedAt(cur: string, nodes: seq<PartitionNode>, order: seq<nat>, k: nat)
    requires Linked(cur, nodes, order) && k < |order|
    ensures order[k] <= |cur| && nodes[order[k]].first == order[k]
    ensures nodes[order[k]].prev == if k == 0 then -1 else order[k - 1]
    ensures nodes[order[k]].next == if k + 1 == |order| then -1 else order[k + 1]
    ensures forall j :: 0 <= j < |order| && j != k ==> order[j] != order[k]
    ensures forall j :: 0 <= j < k ==> order[j] < order[k]
    ensures forall j :: k < j < |order| ==> order[k] < order[j]
  {
  }

  function Slice(cur: string, from: nat, to: nat): string {
    if from <= to <= |cur| then cur[from..to] else ""
  }

  /** The pieces between the boundaries. */
  function PiecesOf(cur: string, order: seq<nat>): (items: seq<Item>)
    requires order != []
    ensures |items| == |order| - 1
  {
    seq(|order| - 1, k requires 0 <= k < |order| - 1 => Piece(Slice(cur, order[k], order[k + 1])))
  }

  /** The rank of joining the two pieces behind boundary k. */
  function RankAt(cur: string, dict: Ranks, order: seq<nat>, k: nat): int
    requires k < |order|
  {
    if k + 2 < |order| then RankOf(dict, Slice(cur, order[k], order[k + 2])) else MAX
  }

  ghost predicate Ranked(cur: string, dict: Ranks, nodes: seq<PartitionNode>, order: seq<nat>) {
    && Linked(cur, nodes, order)
    && forall k :: 0 <= k < |order| ==> nodes[order[k]].rank == RankAt(cur, dict, order, k)
  }

  /** The set holds exactly the ranks of the boundaries that are left. */
  ghost predicate SetHolds(nodes: seq<PartitionNode>, order: seq<nat>, pq: set<(int, nat)>) {
    forall e :: e in pq <==> e.1 in order && e.1 < |nodes| && e.0 == nodes[e.1].rank
  }

  /** The order of the set. */
  predicate Before(a: (int, nat), b: (int, nat)) {
    a.0 < b.0 || (a.0 == b.0 && a.1 <= b.1)
  }

  lemma {:induction false} FirstExists(pq: set<(int, nat)>) returns (first: (int, nat))
    requires pq != {}
    ensures first in pq && forall e :: e in pq ==> Before(first, e)
    decreases |pq|
  {
    var x :| x in pq;
    var rest := pq - {x};
    first := x;
    if rest != {} {
      var best := FirstExists(rest);
      first := if Before(x, best) then x else best;
    }
    forall e | e in pq ensures Before(first, e) {
      assert e == x || e in rest;
    }
  }

  lemma SliceJoin(cur: string, a: nat, b: nat, c: nat)
    requires a <= b <= c <= |cur|
    ensures Slice(cur, a, b) + Slice(cur, b, c) == Slice(cur, a, c)
  {
  }

  lemma PairText(cur: string, nodes: seq<PartitionNode>, order: seq<nat>, k: nat)
    requires Linked(cur, nodes, order) && k + 2 < |order|
    ensures PiecesOf(cur, order)[k].Piece? && PiecesOf(cur, order)[k + 1].Piece?
    ensures PiecesOf(cur, order)[k].text + PiecesOf(cur, order)[k + 1].text == Slice(cur, order[k], order[k + 2])
  {
    LinkedAt(cur, nodes, order, k + 1);
    LinkedAt(cur, nodes, order, k + 2);
    SliceJoin(cur, order[k], order[k + 1], order[k + 2]);
    hide Linked, Slice;
  }

  lemma RankOfMeaning(dict: Ranks, t: string)
    requires IntRanks(dict)
    ensures RankOf(dict, t) <= MAX && (t in RankCosts(dict) <==> RankOf(dict, t) != MAX)
    ensures t in RankCosts(dict) ==> RankCosts(dict)[t] == RankOf(dict, t) as real
  {
  }

  /** Joining at boundary k is possible exactly when it has a rank. */
  lemma RankMeaning(cur: string, dict: Ranks, nodes: seq<PartitionNode>, order: seq<nat>, k: nat)
    requires Ranked(cur, dict, nodes, order) && IntRanks(dict) && k < |order|
    ensures var items, rank := PiecesOf(cur, order), nodes[order[k]].rank;
      && rank <= MAX
      && (CanMerge(RankCosts(dict), items, k) <==> rank != MAX)
      && (rank != MAX ==> k + 2 < |order| && Cost(RankCosts(dict), items, k) == rank as real)
  {
    hide Linked, Slice, PiecesOf, RankOf;
    if k + 2 < |order| {
      PairText(cur, nodes, order, k);
      RankOfMeaning(dict, Slice(cur, order[k], order[k + 2]));
    }
  }

  lemma RankedEntry(cur: string, dict: Ranks, nodes: seq<PartitionNode>, order: seq<nat>, pq: set<(int, nat)>, k: nat)
    requires Ranked(cur, dict, nodes, order) && SetHolds(nodes, order, pq) && k < |order|
    ensures order[k] < |nodes| && (nodes[order[k]].rank, order[k]) in pq
    ensures forall e :: e in pq && e.1 == order[k] ==> e.0 == nodes[order[k]].rank
    ensures forall j :: 0 <= j < k ==> order[j] < order[k]
    ensures forall j :: k < j < |order| ==> order[k] < order[j]
  {
    LinkedAt(cur, nodes, order, k);
    assert order[k] in order;
  }

  /** The first entry of the set is the pair that plain byte pair encoding joins next. */
  lemma FirstIsBest(cur: string, dict: Ranks, nodes: seq<PartitionNode>, order: seq<nat>, pq: set<(int, nat)>,
      first: (int, nat), k: nat)
    requires Ranked(cur, dict, nodes, order) && IntRanks(dict) && SetHolds(nodes, order, pq)
    requires first in pq && (forall e :: e in pq ==> Before(first, e)) && k < |order| && order[k] == first.1
    ensures first.0 == nodes[order[k]].rank
    ensures first.0 != MAX ==> IsBest(RankCosts(dict), PiecesOf(cur, order), k)
    ensures first.0 == MAX ==> Stuck(RankCosts(dict), PiecesOf(cur, order))
  {
    hide Ranked, Linked, Cost, PiecesOf, RankCosts;
    var items := PiecesOf(cur, order);
    RankMeaning(cur, dict, nodes, order, k);
    RankedEntry(cur, dict, nodes, order, pq, k);
    forall j | CanMerge(RankCosts(dict), items, j)
      ensures first.0 != MAX && Cost(RankCosts(dict), items, j) >= first.0 as real
      ensures Cost(RankCosts(dict), items, j) == first.0 as real ==> k <= j
    {
      RankMeaning(cur, dict, nodes, order, j);
      RankedEntry(cur, dict, nodes, order, pq, j);
      assert Before(first, (nodes[order[j]].rank, order[j]));
    }
  }

  /** Node i after the pieces behind boundary sel were joined. */
  function JoinedNode(nodes: seq<PartitionNode>, sel: nat, selRank: int, prevRank: int, i: nat): PartitionNode
    requires sel < |nodes| && 0 <= nodes[sel].next < |nodes| && i < |nodes|
  {
    var next := nodes[nodes[sel].next].next;
    if i == sel then nodes[i].(rank := selRank, next := next)
    else if i == nodes[sel].prev then nodes[i].(rank := prevRank)
    else if i == next then nodes[i].(prev := sel)
    else nodes[i]
  }

  function JoinNodes(nodes: seq<PartitionNode>, sel: nat, selRank: int, prevRank: int): seq<PartitionNode>
    requires sel < |nodes| && 0 <= nodes[sel].next < |nodes|
  {
    seq(|nodes|, i requires 0 <= i < |nodes| => JoinedNode(nodes, sel, selRank, prevRank, i))
  }

  lemma JoinedFields(nodes: seq<PartitionNode>, sel: nat, selRank: int, prevRank: int, i: nat)
    requires sel < |nodes| && 0 <= nodes[sel].next < |nodes| && i < |nodes| && nodes[sel].prev != sel
    ensures var n, next := JoinNodes(nodes, sel, selRank, prevRank)[i], nodes[nodes[sel].next].next;
      && n.first == nodes[i].first
      && n.next == (if i == sel then next else nodes[i].next)
      && n.prev == (if i == next && i != sel && i != nodes[sel].prev then sel else nodes[i].prev)
      && n.rank == (if i == sel then selRank else if i == nodes[sel].prev then prevRank else nodes[i].rank)
  {
  }

  lemma LinkedIs(cur: string, nodes: seq<PartitionNode>, order: seq<nat>)
    requires |nodes| == |cur| + 1 && order != [] && order[0] == 0 && order[|order| - 1] == |cur|
    requires forall k :: 0 <= k < |order| ==> order[k] <= |cur|
    requires forall j, k :: 0 <= j < k < |order| ==> order[j] < order[k]
    requires forall k :: 0 <= k < |order| ==> nodes[order[k]].first == order[k]
    requires forall k :: 0 <= k < |order| ==> nodes[order[k]].prev == if k == 0 then -1 else order[k - 1]
    requires forall k :: 0 <= k < |order| ==> nodes[order[k]].next == if k + 1 == |order| then -1 else order[k + 1]
    ensures Linked(cur, nodes, order)
  {
  }

  lemma LinkedSize(cur: string, nodes: seq<PartitionNode>, order: seq<nat>)
    requires Linked(cur, nodes, order)
    ensures |nodes| == |cur| + 1 && order != [] && order[0] == 0 && order[|order| - 1] == |cur|
  {
  }

  /** Boundary j after boundary k + 1 was taken out of the list. */
  lemma JoinLinks(cur: string, nodes: seq<PartitionNode>, order: seq<nat>, k: nat, selRank: int, prevRank: int, j: nat)
    requires Linked(cur, nodes, order) && k + 2 < |order| && j < |order| - 1
    ensures order[k] < |nodes| && 0 <= nodes[order[k]].next < |nodes| && |Without(order, k + 1)| == |order| - 1
        && Without(order, k + 1)[j] <= |cur|
    ensures |JoinNodes(nodes, order[k], selRank, prevRank)| == |nodes|
    ensures var n, order' := JoinNodes(nodes, order[k], selRank, prevRank)[Without(order, k + 1)[j]],
        Without(order, k + 1);
      && n.first == order'[j]
      && n.prev == (if j == 0 then -1 else order'[j - 1])
      && n.next == (if j + 1 == |order'| then -1 else order'[j + 1])
      && n.rank == (if j == k then selRank else if j == k - 1 then prevRank else nodes[order'[j]].rank)
  {
    hide Linked, JoinNodes, Without;
    var i := if j <= k then j else j + 1;
    LinkedAt(cur, nodes, order, k);
    LinkedAt(cur, nodes, order, k + 1);
    LinkedAt(cur, nodes, order, k + 2);
    LinkedAt(cur, nodes, order, i);
    SizeOfJoin(cur, nodes, order, k, selRank, prevRank);
    LinkedSize(cur, nodes, order);
    JoinedFields(nodes, order[k], selRank, prevRank, order[i]);
    WithoutAt(order, k + 1, j);
    if j > 0 {
      WithoutAt(order, k + 1, j - 1);
    }
    if j + 1 < |order| - 1 {
      WithoutAt(order, k + 1, j + 1);
    }
    if k > 0 {
      LinkedAt(cur, nodes, order, k - 1);
    }
  }

  lemma SizeOfJoin(cur: string, nodes: seq<PartitionNode>, order: seq<nat>, k: nat, selRank: int, prevRank: int)
    requires Linked(cur, nodes, order) && k + 2 < |order|
    ensures order[k] < |nodes| && 0 <= nodes[order[k]].next < |nodes|
    ensures |JoinNodes(nodes, order[k], selRank, prevRank)| == |nodes|
  {
    LinkedAt(cur, nodes, order, k);
  }

  lemma JoinLinked(cur: string, nodes: seq<PartitionNode>, order: seq<nat>, k: nat, selRank: int, prevRank: int)
    requires Linked(cur, nodes, order) && k + 2 < |order|
    ensures order[k] < |nodes| && 0 <= nodes[order[k]].next < |nodes|
    ensures Linked(cur, JoinNodes(nodes, order[k], selRank, prevRank), Without(order, k + 1))
  {
    hide Linked, JoinNodes, Without;
    LinkedSize(cur, nodes, order);
    LinkedAt(cur, nodes, order, k);
    LinkedAt(cur, nodes, order, k + 1);
    SizeOfJoin(cur, nodes, order, k, selRank, prevRank);
    WithoutAt(order, k + 1, 0);
    WithoutAt(order, k + 1, |order| - 2);
    var nodes', order' := JoinNodes(nodes, order[k], selRank, prevRank), Without(order, k + 1);
    forall i, j | 0 <= i < j < |order'| ensures order'[i] < order'[j] {
      WithoutAt(order, k + 1, i);
      WithoutAt(order, k + 1, j);
      LinkedAt(cur, nodes, order, if i < k + 1 then i else i + 1);
    }
    forall j | 0 <= j < |order'| ensures order'[j] <= |cur| {
      JoinLinks(cur, nodes, order, k, selRank, prevRank, j);
    }
    forall j | 0 <= j < |order'|
      ensures nodes'[order'[j]].first == order'[j]
    {
      JoinLinks(cur, nodes, order, k, selRank, prevRank, j);
    }
    forall j | 0 <= j < |order'|
      ensures nodes'[order'[j]].prev == if j == 0 then -1 else order'[j - 1]
    {
      JoinLinks(cur, nodes, order, k, selRank, prevRank, j);
    }
    forall j | 0 <= j < |order'|
      ensures nodes'[order'[j]].next == if j + 1 == |order'| then -1 else order'[j + 1]
    {
      JoinLinks(cur, nodes, order, k, selRank, prevRank, j);
    }
    LinkedIs(cur, nodes', order');
  }

  /** The pieces after boundary k + 1 was taken out. */
  lemma JoinPieces(cur: string, nodes: seq<PartitionNode>, order: seq<nat>, k: nat)
    requires Linked(cur, nodes, order) && k + 2 < |order|
    ensures Without(order, k + 1) != [] && PiecesOf(cur, Without(order, k + 1)) == MergeAt(PiecesOf(cur, order), k)
  {
    var order', items := Without(order, k + 1), PiecesOf(cur, order);
    WithoutAt(order, k + 1, 0);
    MergeAtItem(items, k, 0);
    forall j | 0 <= j < |order'| - 1 ensures PiecesOf(cur, order')[j] == MergeAt(items, k)[j] {
      JoinPiece(cur, nodes, order, k, j);
    }
    hide PiecesOf, MergeAt, Without;
  }

  lemma JoinPiece(cur: string, nodes: seq<PartitionNode>, order: seq<nat>, k: nat, j: nat)
    requires Linked(cur, nodes, order) && k + 2 < |order| && j < |order| - 2
    ensures |Without(order, k + 1)| == |order| - 1 && |MergeAt(PiecesOf(cur, order), k)| == |order| - 2
    ensures PiecesOf(cur, Without(order, k + 1))[j] == MergeAt(PiecesOf(cur, order), k)[j]
  {
    PairText(cur, nodes, order, k);
    WithoutAt(order, k + 1, j);
    WithoutAt(order, k + 1, j + 1);
    MergeAtItem(PiecesOf(cur, order), k, j);
    hide Linked, Without, MergeAt, Slice;
  }

  /** The rank that GetRank computes over a stretch of boundaries. */
  function Stretch(cur: string, dict: Ranks, order: seq<nat>, k: nat, skip: nat): int
    requires k < |order|
  {
    if k + skip + 2 < |order| then RankOf(dict, Slice(cur, order[k], order[k + skip + 2])) else MAX
  }

  /** After the join, every boundary that is left has its rank. */
  lemma JoinRanked(cur: string, dict: Ranks, nodes: seq<PartitionNode>, order: seq<nat>, k: nat, selRank: int,
      prevRank: int)
    requires Ranked(cur, dict, nodes, order) && k + 2 < |order|
    requires selRank == Stretch(cur, dict, order, k, 1) && (k > 0 ==> prevRank == Stretch(cur, dict, order, k - 1, 1))
    ensures order[k] < |nodes| && 0 <= nodes[order[k]].next < |nodes|
    ensures Ranked(cur, dict, JoinNodes(nodes, order[k], selRank, prevRank), Without(order, k + 1))
  {
    JoinLinked(cur, nodes, order, k, selRank, prevRank);
    var nodes', order' := JoinNodes(nodes, order[k], selRank, prevRank), Without(order, k + 1);
    forall j | 0 <= j < |order'| ensures nodes'[order'[j]].rank == RankAt(cur, dict, order', j) {
      JoinRankAt(cur, dict, nodes, order, k, selRank, prevRank, j);
    }
  }

  lemma JoinRankAt(cur: string, dict: Ranks, nodes: seq<PartitionNode>, order: seq<nat>, k: nat, selRank: int,
      prevRank: int, j: nat)
    requires Ranked(cur, dict, nodes, order) && k + 2 < |order| && j < |order| - 1
    requires selRank == Stretch(cur, dict, order, k, 1) && (k > 0 ==> prevRank == Stretch(cur, dict, order, k - 1, 1))
    ensures order[k] < |nodes| && 0 <= nodes[order[k]].next < |nodes| && |Without(order, k + 1)| == |order| - 1
        && Without(order, k + 1)[j] <= |cur|
    ensures |JoinNodes(nodes, order[k], selRank, prevRank)| == |nodes| == |cur| + 1
    ensures JoinNodes(nodes, order[k], selRank, prevRank)[Without(order, k + 1)[j]].rank
        == RankAt(cur, dict, Without(order, k + 1), j)
  {
    hide Linked, Without, JoinNodes, RankAt, Stretch;
    LinkedSize(cur, nodes, order);
    JoinLinks(cur, nodes, order, k, selRank, prevRank, j);
    WithoutAt(order, k + 1, j);
    RankAfter(cur, dict, order, k, j);
  }

  /** What the ranks are once boundary k + 1 is gone. */
  lemma RankAfter(cur: string, dict: Ranks, order: seq<nat>, k: nat, j: nat)
    requires k + 2 < |order| && j < |order| - 1
    ensures |Without(order, k + 1)| == |order| - 1
    ensures RankAt(cur, dict, Without(order, k + 1), j)
         == if j == k || j == k - 1 then Stretch(cur, dict, order, j, 1)
             else RankAt(cur, dict, order, if j < k then j else j + 1)
  {
    hide Without, Slice, RankOf;
    WithoutAt(order, k + 1, j);
    if j + 2 < |order| - 1 {
      WithoutAt(order, k + 1, j + 2);
    }
  }

  /** The set after the join. */
  function JoinSet(nodes: seq<PartitionNode>, sel: nat, selRank: int, prevRank: int, pq: set<(int, nat)>): set<(int,
      nat)>
    requires sel < |nodes| && 0 <= nodes[sel].next < |nodes| && nodes[sel].prev < |nodes|
  {
    var renewed := pq - {(nodes[sel].rank, sel)} + {(selRank, sel)};
    var both := if nodes[sel].prev >= 0 then renewed - {(nodes[nodes[sel].prev].rank, nodes[sel].prev)}
        + {(prevRank, nodes[sel].prev)} else renewed;
    both - {(nodes[nodes[sel].next].rank, nodes[sel].next)}
  }

  lemma JoinSetHolds(cur: string, nodes: seq<PartitionNode>, order: seq<nat>, k: nat, selRank: int, prevRank: int,
      pq: set<(int, nat)>)
    requires Linked(cur, nodes, order) && k + 2 < |order| && SetHolds(nodes, order, pq)
    ensures order[k] < |nodes| && 0 <= nodes[order[k]].next < |nodes| && nodes[order[k]].prev < |nodes|
    ensures SetHolds(JoinNodes(nodes, order[k], selRank, prevRank), Without(order, k + 1),
        JoinSet(nodes, order[k], selRank, prevRank, pq))
  {
    var sel := order[k];
    LinkedAt(cur, nodes, order, k);
    LinkedAt(cur, nodes, order, k + 1);
    if k > 0 {
      LinkedAt(cur, nodes, order, k - 1);
    }
    SizeOfJoin(cur, nodes, order, k, selRank, prevRank);
    var nodes', order', pq' := JoinNodes(nodes, sel, selRank, prevRank), Without(order, k + 1),
        JoinSet(nodes, sel, selRank, prevRank, pq);
    hide Linked, JoinNodes, Without;
    forall e: (int, nat) ensures e in pq' <==> e.1 in order' && e.1 < |nodes'| && e.0 == nodes'[e.1].rank {
      WithoutHas(order, k + 1, e.1);
      WithoutOnly(cur, nodes, order, k + 1, e.1);
      assert order[k] in order && order[k + 1] in order && (k > 0 ==> order[k - 1] in order);
      if e.1 < |nodes| {
        JoinedFields(nodes, sel, selRank, prevRank, e.1);
      }
    }
  }

  lemma WithoutOnly(cur: string, nodes: seq<PartitionNode>, order: seq<nat>, k: nat, i: nat)
    requires Linked(cur, nodes, order) && k < |order|
    ensures i in Without(order, k) ==> i in order && i != order[k]
  {
    if i in Without(order, k) {
      var j :| 0 <= j < |Without(order, k)| && Without(order, k)[j] == i;
      WithoutAt(order, k, j);
    }
  }
}
