/** The symbols of the score-driven byte pair encoding: a linked list laid over the input, and a work queue whose
    entries may be out of date. */
module ScoreMerge {
  import opened Wrappers
  import opened TokenTrie
  import opened PairMerging

  /** A stretch of the input. A symbol that was joined to its left neighbour has length 0 and keeps its node; a symbol
      that cannot be joined has length 0 and no node. */
  datatype Symbol = Symbol(node: Option<nat>, pos: nat, len: nat, prev: int, next: int, fixId: int)

  datatype SymbolPair = SymbolPair(score: real, l: int, r: int, size: nat)

  /** The order of the work queue: better scores come later, and among equals those further to the left. */
  predicate Less(a: SymbolPair, b: SymbolPair) {
    a.score < b.score || (a.score == b.score && a.l > b.l)
  }

  function CostsOf(dict: Dict): Costs {
    map t | t in dict :: -dict[t].score
  }

  /** order lists the symbols of the linked list, from left to right. */
  ghost predicate Chain(symbols: seq<Symbol>, order: seq<nat>) {
    && (forall k :: 0 <= k < |order| ==> order[k] < |symbols|)
    && (forall j, k :: 0 <= j < k < |order| ==> order[j] < order[k])
    && (forall k :: 0 <= k < |order| ==> symbols[order[k]].prev == if k == 0 then -1 else order[k - 1])
    && (forall k :: 0 <= k < |order| ==> symbols[order[k]].next == if k + 1 == |order| then -1 else order[k + 1])
  }

  /** Where symbol k of the list ends, in an input that is covered up to end. */
  function EndOf(symbols: seq<Symbol>, order: seq<nat>, end: nat, k: nat): nat
    requires k < |order| && forall k :: 0 <= k < |order| ==> order[k] < |symbols|
  {
    if k + 1 < |order| then symbols[order[k + 1]].pos else end
  }

  /** The symbols lie in the input from left to right. */
  ghost predicate Rising(s: string, symbols: seq<Symbol>, end: nat) {
    && end <= |s|
    && (forall i, j :: 0 <= i < j < |symbols| ==> symbols[i].pos < symbols[j].pos)
    && (forall i :: 0 <= i < |symbols| ==> symbols[i].pos < end)
  }

  ghost predicate SymbolOk(s: string, heap: Heap, root: nat, dict: Dict, symbol: Symbol, end: nat) {
    && symbol.pos < end <= |s|
    && (symbol.len > 0 ==>
          && symbol.pos + symbol.len == end && s[symbol.pos..end] in dict
          && symbol.node.Some? && symbol.node == Walk(heap, root, s[symbol.pos..end]))
    && (symbol.len == 0 ==> symbol.node.None?)
  }

  function ItemOf(s: string, symbol: Symbol, end: nat): Item
    requires symbol.pos <= end <= |s|
  {
    if symbol.len > 0 then Piece(s[symbol.pos..end]) else Barrier(s[symbol.pos..end], symbol.fixId)
  }

  /** The linked list covers the input up to end; symbols that are not in it were joined. */
  ghost predicate Laid(s: string, heap: Heap, root: nat, dict: Dict, symbols: seq<Symbol>, order: seq<nat>, end: nat) {
    && Chain(symbols, order) && Rising(s, symbols, end)
    && (forall k :: 0 <= k < |order| ==>
        SymbolOk(s, heap, root, dict, symbols[order[k]], EndOf(symbols, order, end, k)))
    && (forall i :: 0 <= i < |symbols| && i !in order ==> symbols[i].len == 0 && symbols[i].node.Some?)
  }

  ghost function Items(s: string, heap: Heap, root: nat, dict: Dict, symbols: seq<Symbol>, order: seq<nat>,
      end: nat): seq<Item>
    requires Laid(s, heap, root, dict, symbols, order, end)
  {
    seq(|order|, k requires 0 <= k < |order| =>
      assert SymbolOk(s, heap, root, dict, symbols[order[k]], EndOf(symbols, order, end, k));
      ItemOf(s, symbols[order[k]], EndOf(symbols, order, end, k)))
  }

  /** The queue entry for two symbols that can be joined. */
  function PairEntry(s: string, dict: Dict, symbols: seq<Symbol>, l: int, r: int): Option<SymbolPair> {
    if 0 <= l < |symbols| && 0 <= r < |symbols| && symbols[l].len > 0 && symbols[r].len > 0
       && symbols[l].pos + symbols[l].len == symbols[r].pos && symbols[r].pos + symbols[r].len <= |s|
       && s[symbols[l].pos..symbols[r].pos + symbols[r].len] in dict
    then Some(SymbolPair(dict[s[symbols[l].pos..symbols[r].pos + symbols[r].len]].score, l, r,
        symbols[l].len + symbols[r].len))
    else None
  }

  /** What stays true of a queue entry: its string can be joined, and its symbols have not shrunk unless they are gone.
      */
  ghost predicate Sound(s: string, dict: Dict, symbols: seq<Symbol>, e: SymbolPair) {
    && 0 <= e.l < e.r < |symbols|
    && symbols[e.l].pos < symbols[e.r].pos < symbols[e.l].pos + e.size <= |s|
    && s[symbols[e.l].pos..symbols[e.l].pos + e.size] in dict
    && e.score == dict[s[symbols[e.l].pos..symbols[e.l].pos + e.size]].score
    && (symbols[e.l].len == 0 || symbols[e.l].len >= symbols[e.r].pos - symbols[e.l].pos)
    && (symbols[e.r].len == 0 || symbols[e.r].len >= symbols[e.l].pos + e.size - symbols[e.r].pos)
  }

  ghost predicate AllSound(s: string, dict: Dict, symbols: seq<Symbol>, q: multiset<SymbolPair>) {
    forall e :: e in q ==> Sound(s, dict, symbols, e)
  }

  /** Every pair of neighbours that can be joined is in the queue. */
  ghost predicate Covered(s: string, dict: Dict, symbols: seq<Symbol>, order: seq<nat>, q: multiset<SymbolPair>) {
    forall k :: 0 <= k < |order| - 1 ==>
      var e := PairEntry(s, dict, symbols, order[k], order[k + 1]);
      e.Some? ==> e.value in q
  }

  /** The test for entries that are out of date. */
  predicate UpToDate(symbols: seq<Symbol>, e: SymbolPair)
    requires 0 <= e.l < |symbols| && 0 <= e.r < |symbols|
  {
    symbols[e.l].len != 0 && symbols[e.r].len != 0 && symbols[e.l].len + symbols[e.r].len == e.size
  }

  lemma SamePlace(s: string, symbols: seq<Symbol>, end: nat, i: nat, j: nat)
    requires Rising(s, symbols, end) && i < |symbols| && j < |symbols| && symbols[i].pos == symbols[j].pos
    ensures i == j
  {
  }

  lemma InList(s: string, heap: Heap, root: nat, dict: Dict, symbols: seq<Symbol>, order: seq<nat>, end: nat, i: nat)
    returns (k: nat)
    requires Laid(s, heap, root, dict, symbols, order, end) && i < |symbols| && symbols[i].len != 0
    ensures k < |order| && order[k] == i && symbols[i].pos + symbols[i].len == EndOf(symbols, order, end, k)
  {
    assert i in order;
    k :| 0 <= k < |order| && order[k] == i;
    assert SymbolOk(s, heap, root, dict, symbols[order[k]], EndOf(symbols, order, end, k));
  }

  /** An entry that passes the test joins two neighbours of the list. */
  lemma UpToDateAdjacent(s: string, heap: Heap, root: nat, dict: Dict, symbols: seq<Symbol>, order: seq<nat>,
      e: SymbolPair) returns (k: nat)
    requires Laid(s, heap, root, dict, symbols, order, |s|) && Sound(s, dict, symbols, e) && UpToDate(symbols, e)
    ensures k + 1 < |order| && order[k] == e.l && order[k + 1] == e.r
    ensures PairEntry(s, dict, symbols, e.l, e.r) == Some(e)
  {
    hide Laid, Rising, SymbolOk, UpToDate, PairEntry;
    TightEntry(s, dict, symbols, e);
    k := InList(s, heap, root, dict, symbols, order, |s|, e.l);
    LaidParts(s, heap, root, dict, symbols, order, |s|);
    SamePlace(s, symbols, |s|, order[k + 1], e.r);
  }

  lemma LaidParts(s: string, heap: Heap, root: nat, dict: Dict, symbols: seq<Symbol>, order: seq<nat>, end: nat)
    requires Laid(s, heap, root, dict, symbols, order, end)
    ensures Chain(symbols, order) && Rising(s, symbols, end)
    ensures forall k :: 0 <= k < |order| ==> order[k] < |symbols|
  {
  }

  /** The lengths of an entry that passes the test are just large enough. */
  lemma TightEntry(s: string, dict: Dict, symbols: seq<Symbol>, e: SymbolPair)
    requires Sound(s, dict, symbols, e) && UpToDate(symbols, e)
    ensures symbols[e.l].len != 0 && symbols[e.l].pos + symbols[e.l].len == symbols[e.r].pos < |s|
    ensures PairEntry(s, dict, symbols, e.l, e.r) == Some(e)
  {
  }

  /** Joining neighbours k and k + 1 is possible exactly when they have a queue entry. */
  lemma EntryMeaning(s: string, heap: Heap, root: nat, dict: Dict, symbols: seq<Symbol>, order: seq<nat>, k: nat)
    requires Laid(s, heap, root, dict, symbols, order, |s|) && k + 1 < |order|
    ensures var items, e := Items(s, heap, root, dict, symbols, order, |s|),
        PairEntry(s, dict, symbols, order[k], order[k + 1]);
      && (CanMerge(CostsOf(dict), items, k) <==> e.Some?)
      && (e.Some? ==>
            && e.value.l == order[k] && e.value.r == order[k + 1]
            && Cost(CostsOf(dict), items, k) == -e.value.score)
  {
    hide Laid, Items, SymbolOk, PairEntry, ItemOf;
    LaidParts(s, heap, root, dict, symbols, order, |s|);
    ItemAt(s, heap, root, dict, symbols, order, |s|, k);
    ItemAt(s, heap, root, dict, symbols, order, |s|, k + 1);
    TwoItems(s, heap, root, dict, symbols, order[k], order[k + 1], EndOf(symbols, order, |s|, k + 1));
  }

  lemma TwoItems(s: string, heap: Heap, root: nat, dict: Dict, symbols: seq<Symbol>, l: nat, r: nat, end: nat)
    requires l < |symbols| && r < |symbols|
    requires SymbolOk(s, heap, root, dict, symbols[l], symbols[r].pos) && SymbolOk(s, heap, root, dict, symbols[r], end)
    ensures symbols[l].pos < symbols[r].pos < end <= |s|
    ensures var e, a, b := PairEntry(s, dict, symbols, l, r), ItemOf(s, symbols[l], symbols[r].pos),
        ItemOf(s, symbols[r], end);
      && (e.Some? <==> a.Piece? && b.Piece? && a.text + b.text in dict)
      && (e.Some? ==> e.value.l == l && e.value.r == r && e.value.score == dict[a.text + b.text].score)
  {
    var a, b := symbols[l], symbols[r];
    if a.len > 0 && b.len > 0 {
      assert s[a.pos..b.pos] + s[b.pos..end] == s[a.pos..b.pos + b.len];
    }
  }

  /** The top of the queue, when it passes the test, is the pair that plain byte pair encoding joins next. */
  lemma TopIsBest(s: string, heap: Heap, root: nat, dict: Dict, symbols: seq<Symbol>, order: seq<nat>,
      q: multiset<SymbolPair>, top: SymbolPair, k: nat)
    requires Laid(s, heap, root, dict, symbols, order, |s|) && Covered(s, dict, symbols, order, q)
    requires k + 1 < |order| && PairEntry(s, dict, symbols, order[k], order[k + 1]) == Some(top)
    requires forall e :: e in q ==> !Less(top, e)
    ensures IsBest(CostsOf(dict), Items(s, heap, root, dict, symbols, order, |s|), k)
  {
    var items := Items(s, heap, root, dict, symbols, order, |s|);
    EntryMeaning(s, heap, root, dict, symbols, order, k);
    forall j | CanMerge(CostsOf(dict), items, j)
      ensures Cost(CostsOf(dict), items, k) < Cost(CostsOf(dict), items, j)
           || (Cost(CostsOf(dict), items, k) == Cost(CostsOf(dict), items, j) && k <= j)
    {
      EntryMeaning(s, heap, root, dict, symbols, order, j);
      var e := PairEntry(s, dict, symbols, order[j], order[j + 1]).value;
      assert k > j ==> order[k] > order[j];
      hide PairEntry, CanMerge, Cost, Laid, Items, CostsOf;
      assert e in q && !Less(top, e);
    }
  }

  /** When the queue is empty, nothing can be joined. */
  lemma EmptyIsStuck(s: string, heap: Heap, root: nat, dict: Dict, symbols: seq<Symbol>, order: seq<nat>)
    requires Laid(s, heap, root, dict, symbols, order, |s|) && Covered(s, dict, symbols, order, multiset{})
    ensures Stuck(CostsOf(dict), Items(s, heap, root, dict, symbols, order, |s|))
  {
    forall k | 0 <= k < |order| - 1 ensures !CanMerge(CostsOf(dict), Items(s, heap, root, dict, symbols, order, |s|),
        k) {
      EntryMeaning(s, heap, root, dict, symbols, order, k);
      assert PairEntry(s, dict, symbols, order[k], order[k + 1]).None?;
    }
  }

  /** Symbol i after l was joined with its right neighbour r. */
  function Joined(symbols: seq<Symbol>, l: nat, r: nat, node: Option<nat>, i: nat): Symbol
    requires l < |symbols| && r < |symbols| && i < |symbols|
  {
    if i == l then symbols[l].(node := node, len := symbols[l].len + symbols[r].len, next := symbols[r].next)
    else if i == r then symbols[r].(len := 0)
    else if i == symbols[r].next then symbols[i].(prev := l)
    else symbols[i]
  }

  function Join(symbols: seq<Symbol>, l: nat, r: nat, node: Option<nat>): seq<Symbol>
    requires l < |symbols| && r < |symbols|
  {
    seq(|symbols|, i requires 0 <= i < |symbols| => Joined(symbols, l, r, node, i))
  }

  function Without(order: seq<nat>, k: nat): seq<nat>
    requires k < |order|
  {
    order[..k] + order[k + 1..]
  }

  lemma NextOf(symbols: seq<Symbol>, order: seq<nat>, k: nat)
    requires Chain(symbols, order) && k < |order|
    ensures order[k] < |symbols|
    ensures symbols[order[k]].next == if k + 1 == |order| then -1 else order[k + 1]
    ensures symbols[order[k]].prev == if k == 0 then -1 else order[k - 1]
    ensures forall j :: 0 <= j < |order| && j != k ==> order[j] != order[k]
  {
  }

  lemma WithoutAt(order: seq<nat>, k: nat, j: nat)
    requires k < |order| && j < |order| - 1
    ensures |Without(order, k)| == |order| - 1 && Without(order, k)[j] == if j < k then order[j] else order[j + 1]
  {
  }

  lemma ChainIs(symbols: seq<Symbol>, order: seq<nat>)
    requires forall k :: 0 <= k < |order| ==> order[k] < |symbols|
    requires forall j, k :: 0 <= j < k < |order| ==> order[j] < order[k]
    requires forall k :: 0 <= k < |order| ==> symbols[order[k]].prev == if k == 0 then -1 else order[k - 1]
    requires forall k :: 0 <= k < |order| ==> symbols[order[k]].next == if k + 1 == |order| then -1 else order[k + 1]
    ensures Chain(symbols, order)
  {
  }

  lemma JoinChain(symbols: seq<Symbol>, order: seq<nat>, k: nat, node: Option<nat>)
    requires Chain(symbols, order) && k + 1 < |order|
    ensures Chain(Join(symbols, order[k], order[k + 1], node), Without(order, k + 1))
  {
    var symbols', order' := Join(symbols, order[k], order[k + 1], node), Without(order, k + 1);
    forall i, j | 0 <= i < j < |order'| ensures order'[i] < order'[j] {
      WithoutAt(order, k + 1, i);
      WithoutAt(order, k + 1, j);
    }
    forall j | 0 <= j < |order'|
      ensures order'[j] < |symbols'|
    {
      WithoutAt(order, k + 1, j);
    }
    forall j | 0 <= j < |order'|
      ensures symbols'[order'[j]].prev == if j == 0 then -1 else order'[j - 1]
    {
      JoinPrev(symbols, order, k, node, j);
    }
    forall j | 0 <= j < |order'|
      ensures symbols'[order'[j]].next == if j + 1 == |order'| then -1 else order'[j + 1]
    {
      JoinNext(symbols, order, k, node, j);
    }
    hide *;
    ChainIs(symbols', order');
  }

  lemma JoinFields(symbols: seq<Symbol>, l: nat, r: nat, node: Option<nat>, i: nat)
    requires l < |symbols| && r < |symbols| && i < |symbols| && l != r
    ensures |Join(symbols, l, r, node)| == |symbols|
    ensures Join(symbols, l, r, node)[i].next == if i == l then symbols[r].next else symbols[i].next
    ensures Join(symbols, l, r, node)[i].prev == if i != l && i != r && i == symbols[r].next then l else symbols[i].prev
    ensures Join(symbols, l, r, node)[i].len == if i == l then symbols[l].len + symbols[r].len else if i == r then 0
        else symbols[i].len
    ensures Join(symbols, l, r, node)[i].node == if i == l then node else symbols[i].node
    ensures Join(symbols, l, r, node)[i].pos == symbols[i].pos && Join(symbols, l, r, node)[i].fixId == symbols[i].fixId
  {
  }

  lemma JoinPrev(symbols: seq<Symbol>, order: seq<nat>, k: nat, node: Option<nat>, j: nat)
    requires Chain(symbols, order) && k + 1 < |order| && j < |order| - 1
    ensures |Without(order, k + 1)| == |order| - 1 && Without(order, k + 1)[j] < |symbols|
        && |Join(symbols, order[k], order[k + 1], node)| == |symbols|
    ensures Join(symbols, order[k], order[k + 1], node)[Without(order, k + 1)[j]].prev == if j == 0 then -1
        else Without(order, k + 1)[j - 1]
  {
    hide Chain, Join, Without;
    NextOf(symbols, order, k);
    NextOf(symbols, order, k + 1);
    NextOf(symbols, order, if j <= k then j else j + 1);
    JoinFields(symbols, order[k], order[k + 1], node, order[if j <= k then j else j + 1]);
    WithoutAt(order, k + 1, j);
    if j > 0 {
      WithoutAt(order, k + 1, j - 1);
    }
  }

  lemma JoinNext(symbols: seq<Symbol>, order: seq<nat>, k: nat, node: Option<nat>, j: nat)
    requires Chain(symbols, order) && k + 1 < |order| && j < |order| - 1
    ensures |Without(order, k + 1)| == |order| - 1 && Without(order, k + 1)[j] < |symbols|
        && |Join(symbols, order[k], order[k + 1], node)| == |symbols|
    ensures Join(symbols, order[k], order[k + 1], node)[Without(order, k + 1)[j]].next == if j + 1
        == |order| - 1 then -1 else Without(order, k + 1)[j + 1]
  {
    hide Chain, Join, Without;
    NextOf(symbols, order, k);
    NextOf(symbols, order, k + 1);
    NextOf(symbols, order, if j <= k then j else j + 1);
    JoinFields(symbols, order[k], order[k + 1], node, order[if j <= k then j else j + 1]);
    WithoutAt(order, k + 1, j);
    if j + 1 < |order| - 1 {
      WithoutAt(order, k + 1, j + 1);
    }
  }

  lemma JoinEnd(symbols: seq<Symbol>, order: seq<nat>, end: nat, k: nat, node: Option<nat>, j: nat)
    requires Chain(symbols, order) && k + 1 < |order| && j < |order| - 1
    requires Chain(Join(symbols, order[k], order[k + 1], node), Without(order, k + 1))
        && |Without(order, k + 1)| == |order| - 1
    ensures EndOf(Join(symbols, order[k], order[k + 1], node), Without(order, k + 1), end, j)
         == EndOf(symbols, order, end, if j < k then j else j + 1)
  {
    NextOf(symbols, order, k);
    if j + 1 < |order| - 1 {
      WithoutAt(order, k + 1, j + 1);
    }
  }

  /** The joined symbol, which ends where the right one did. */
  lemma JoinedOk(s: string, heap: Heap, root: nat, dict: Dict, a: Symbol, b: Symbol, c: Symbol, end: nat)
    requires SymbolOk(s, heap, root, dict, a, b.pos) && SymbolOk(s, heap, root, dict, b, end) && a.len > 0 && b.len > 0
    requires s[a.pos..end] in dict && c.node.Some? && c.node == Walk(heap, root, s[a.pos..end])
    requires c.pos == a.pos && c.len == a.len + b.len
    ensures SymbolOk(s, heap, root, dict, c, end)
    ensures ItemOf(s, c, end) == Piece(ItemOf(s, a, b.pos).text + ItemOf(s, b, end).text)
  {
    assert s[a.pos..b.pos] + s[b.pos..end] == s[a.pos..end];
  }

  /** Symbol j of the list after the join. */
  lemma JoinSymbolOk(s: string, heap: Heap, root: nat, dict: Dict, symbols: seq<Symbol>, order: seq<nat>, k: nat,
      node: Option<nat>, j: nat)
    requires Laid(s, heap, root, dict, symbols, order, |s|) && k + 1 < |order| && j < |order| - 1
    requires PairEntry(s, dict, symbols, order[k], order[k + 1]).Some?
    requires node.Some?
    requires node == Walk(heap, root, s[symbols[order[k]].pos..symbols[order[k + 1]].pos + symbols[order[k + 1]].len])
    ensures var symbols', order' := Join(symbols, order[k], order[k + 1], node), Without(order, k + 1);
      && |order'| == |order| - 1 && Chain(symbols', order')
      && SymbolOk(s, heap, root, dict, symbols'[order'[j]], EndOf(symbols', order', |s|, j))
      && ItemOf(s, symbols'[order'[j]], EndOf(symbols', order', |s|, j))
         == MergeAt(Items(s, heap, root, dict, symbols, order, |s|), k)[j]
  {
    hide Join, Without, Items, MergeAt, ItemOf, SymbolOk, Walk, PairEntry, EndOf, Rising;
    var i := if j <= k then j else j + 1;
    ItemAt(s, heap, root, dict, symbols, order, |s|, i);
    ItemAt(s, heap, root, dict, symbols, order, |s|, k + 1);
    MergeAtItem(Items(s, heap, root, dict, symbols, order, |s|), k, j);
    JoinChain(symbols, order, k, node);
    WithoutAt(order, k + 1, j);
    JoinEnd(symbols, order, |s|, k, node, j);
    NextOf(symbols, order, k);
    NextOf(symbols, order, k + 1);
    NextOf(symbols, order, i);
    JoinFields(symbols, order[k], order[k + 1], node, order[i]);
    hide Chain, Laid;
    if j == k {
      JoinableEnds(s, heap, root, dict, symbols, order, k);
      JoinedOk(s, heap, root, dict, symbols[order[k]], symbols[order[k + 1]],
          Join(symbols, order[k], order[k + 1], node)[order[k]],
               EndOf(symbols, order, |s|, k + 1));
    } else {
      SameSymbol(s, heap, root, dict, symbols[order[i]], Join(symbols, order[k], order[k + 1], node)[order[i]],
          EndOf(symbols, order, |s|, i));
    }
  }

  lemma SameSymbol(s: string, heap: Heap, root: nat, dict: Dict, a: Symbol, b: Symbol, end: nat)
    requires SymbolOk(s, heap, root, dict, a, end) && a.pos == b.pos && a.len == b.len && a.node == b.node
        && a.fixId == b.fixId
    ensures SymbolOk(s, heap, root, dict, b, end) && ItemOf(s, b, end) == ItemOf(s, a, end)
  {
  }

  /** Two neighbours with an entry: the left one ends where the right one starts, and the right one ends its string. */
  lemma JoinableEnds(s: string, heap: Heap, root: nat, dict: Dict, symbols: seq<Symbol>, order: seq<nat>, k: nat)
    requires Laid(s, heap, root, dict, symbols, order, |s|) && k + 1 < |order|
    requires PairEntry(s, dict, symbols, order[k], order[k + 1]).Some?
    ensures symbols[order[k]].len > 0 && symbols[order[k + 1]].len > 0
    ensures EndOf(symbols, order, |s|, k) == symbols[order[k + 1]].pos
    ensures EndOf(symbols, order, |s|, k + 1) == symbols[order[k + 1]].pos + symbols[order[k + 1]].len
    ensures s[symbols[order[k]].pos..EndOf(symbols, order, |s|, k + 1)] in dict
  {
    EndIs(s, heap, root, dict, symbols, order, k + 1);
  }

  lemma EndIs(s: string, heap: Heap, root: nat, dict: Dict, symbols: seq<Symbol>, order: seq<nat>, k: nat)
    requires Laid(s, heap, root, dict, symbols, order, |s|) && k < |order| && symbols[order[k]].len > 0
    ensures symbols[order[k]].pos + symbols[order[k]].len == EndOf(symbols, order, |s|, k)
  {
    assert SymbolOk(s, heap, root, dict, symbols[order[k]], EndOf(symbols, order, |s|, k));
  }

  lemma ItemAt(s: string, heap: Heap, root: nat, dict: Dict, symbols: seq<Symbol>, order: seq<nat>, end: nat, k: nat)
    requires Laid(s, heap, root, dict, symbols, order, end) && k < |order|
    ensures SymbolOk(s, heap, root, dict, symbols[order[k]], EndOf(symbols, order, end, k))
    ensures |Items(s, heap, root, dict, symbols, order, end)| == |order|
    ensures Items(s, heap, root, dict, symbols, order, end)[k]
        == ItemOf(s, symbols[order[k]], EndOf(symbols, order, end, k))
  {
  }

  lemma MergeAtItem(items: seq<Item>, k: nat, j: nat)
    requires k + 1 < |items| && j < |items| - 1
    ensures |MergeAt(items, k)| == |items| - 1
    ensures MergeAt(items, k)[j] == if j < k then items[j] else if j == k then Piece(items[k].text + items[k + 1].text)
        else items[j + 1]
  {
  }

  /** Joining two neighbours keeps the list laid over the input, and joins the two items. */
  lemma JoinLaid(s: string, heap: Heap, root: nat, dict: Dict, symbols: seq<Symbol>, order: seq<nat>, k: nat,
      node: Option<nat>)
    requires Laid(s, heap, root, dict, symbols, order, |s|) && k + 1 < |order|
    requires PairEntry(s, dict, symbols, order[k], order[k + 1]).Some?
    requires node.Some?
    requires node == Walk(heap, root, s[symbols[order[k]].pos..symbols[order[k + 1]].pos + symbols[order[k + 1]].len])
    ensures var symbols', order' := Join(symbols, order[k], order[k + 1], node), Without(order, k + 1);
      && Laid(s, heap, root, dict, symbols', order', |s|)
      && Items(s, heap, root, dict, symbols', order', |s|)
          == MergeAt(Items(s, heap, root, dict, symbols, order, |s|), k)
  {
    hide PairEntry, Walk, SymbolOk;
    var symbols', order' := Join(symbols, order[k], order[k + 1], node), Without(order, k + 1);
    var items := Items(s, heap, root, dict, symbols, order, |s|);
    JoinStaysLaid(s, heap, root, dict, symbols, order, k, node);
    assert |order'| == |order| - 1;
    hide Laid, Join, Without;
    forall j | 0 <= j < |order'| ensures Items(s, heap, root, dict, symbols', order', |s|)[j] == MergeAt(items, k)[j] {
      JoinSymbolOk(s, heap, root, dict, symbols, order, k, node, j);
    }
  }

  lemma JoinStaysLaid(s: string, heap: Heap, root: nat, dict: Dict, symbols: seq<Symbol>, order: seq<nat>, k: nat,
      node: Option<nat>)
    requires Laid(s, heap, root, dict, symbols, order, |s|) && k + 1 < |order|
    requires PairEntry(s, dict, symbols, order[k], order[k + 1]).Some?
    requires node.Some?
    requires node == Walk(heap, root, s[symbols[order[k]].pos..symbols[order[k + 1]].pos + symbols[order[k + 1]].len])
    ensures Laid(s, heap, root, dict, Join(symbols, order[k], order[k + 1], node), Without(order, k + 1), |s|)
  {
    hide PairEntry, Walk, SymbolOk;
    var symbols', order' := Join(symbols, order[k], order[k + 1], node), Without(order, k + 1);
    JoinChain(symbols, order, k, node);
    JoinRising(s, symbols, order[k], order[k + 1], node, |s|);
    assert |order'| == |order| - 1 && |symbols'| == |symbols|;
    hide Join, Without, Chain, Rising;
    forall j | 0 <= j < |order'|
      ensures order'[j] < |symbols'|
          && SymbolOk(s, heap, root, dict, symbols'[order'[j]], EndOf(symbols', order', |s|, j))
    {
      JoinSymbolOk(s, heap, root, dict, symbols, order, k, node, j);
    }
    forall i | 0 <= i < |symbols'| && i !in order' ensures symbols'[i].len == 0 && symbols'[i].node.Some? {
      JoinGone(s, heap, root, dict, symbols, order, k, node, i);
    }
  }

  lemma JoinRising(s: string, symbols: seq<Symbol>, l: nat, r: nat, node: Option<nat>, end: nat)
    requires Rising(s, symbols, end) && l < |symbols| && r < |symbols|
    ensures Rising(s, Join(symbols, l, r, node), end)
  {
    assert forall i :: 0 <= i < |symbols| ==> Join(symbols, l, r, node)[i].pos == symbols[i].pos;
  }

  lemma JoinGone(s: string, heap: Heap, root: nat, dict: Dict, symbols: seq<Symbol>, order: seq<nat>, k: nat,
      node: Option<nat>, i: nat)
    requires Laid(s, heap, root, dict, symbols, order, |s|) && k + 1 < |order| && i < |symbols|
    requires PairEntry(s, dict, symbols, order[k], order[k + 1]).Some? && i !in Without(order, k + 1)
    ensures Join(symbols, order[k], order[k + 1], node)[i].len == 0
        && Join(symbols, order[k], order[k + 1], node)[i].node.Some?
  {
    NextOf(symbols, order, k);
    NextOf(symbols, order, k + 1);
    WithoutAt(order, k + 1, k);
    assert order[k] in Without(order, k + 1);
    JoinFields(symbols, order[k], order[k + 1], node, i);
    assert SymbolOk(s, heap, root, dict, symbols[order[k + 1]], EndOf(symbols, order, |s|, k + 1));
    WithoutHas(order, k + 1, i);
  }

  lemma WithoutHas(order: seq<nat>, k: nat, i: nat)
    requires k < |order|
    ensures i in order && i != order[k] ==> i in Without(order, k)
  {
    if i in order && i != order[k] {
      var j :| 0 <= j < |order| && order[j] == i;
      WithoutAt(order, k, if j < k then j else j - 1);
      assert i in Without(order, k);
    }
  }

  /** Queue entries stay sound. */
  lemma JoinSound(s: string, heap: Heap, root: nat, dict: Dict, symbols: seq<Symbol>, order: seq<nat>, k: nat,
      node: Option<nat>, q: multiset<SymbolPair>)
    requires Laid(s, heap, root, dict, symbols, order, |s|) && k + 1 < |order| && AllSound(s, dict, symbols, q)
    requires PairEntry(s, dict, symbols, order[k], order[k + 1]).Some?
    ensures AllSound(s, dict, Join(symbols, order[k], order[k + 1], node), q)
  {
    JoinSides(s, heap, root, dict, symbols, order, k, node);
    assert symbols[order[k]].len > 0;
    hide Laid, Join, PairEntry, Sound;
    forall e | e in q ensures Sound(s, dict, Join(symbols, order[k], order[k + 1], node), e) {
      assert Sound(s, dict, symbols, e);
      JoinSoundEntry(s, dict, symbols, order[k], order[k + 1], node, e);
    }
  }

  lemma JoinSoundEntry(s: string, dict: Dict, symbols: seq<Symbol>, l: nat, r: nat, node: Option<nat>, e: SymbolPair)
    requires Sound(s, dict, symbols, e) && l < r < |symbols| && symbols[l].len > 0
    ensures Sound(s, dict, Join(symbols, l, r, node), e)
  {
    JoinFields(symbols, l, r, node, e.l);
    JoinFields(symbols, l, r, node, e.r);
    hide Join;
  }

  /** The entry of two neighbours is sound. */
  lemma EntrySound(s: string, dict: Dict, symbols: seq<Symbol>, l: int, r: int)
    requires PairEntry(s, dict, symbols, l, r).Some? && l < r
    ensures Sound(s, dict, symbols, PairEntry(s, dict, symbols, l, r).value)
  {
  }

  /** After the join, only the pairs on either side of the joined symbol can be new. */
  lemma JoinCovered(s: string, heap: Heap, root: nat, dict: Dict, symbols: seq<Symbol>, order: seq<nat>, k: nat,
      node: Option<nat>, top: SymbolPair, q: multiset<SymbolPair>, q': multiset<SymbolPair>)
    requires Laid(s, heap, root, dict, symbols, order, |s|) && k + 1 < |order| && Covered(s, dict, symbols, order, q)
    requires PairEntry(s, dict, symbols, order[k], order[k + 1]) == Some(top)
    requires forall e :: e in q && e != top ==> e in q'
    requires var symbols' := Join(symbols, order[k], order[k + 1], node);
      && (k > 0 ==> var e := PairEntry(s, dict, symbols', order[k - 1], order[k]); e.Some? ==> e.value in q')
      && (k + 2 < |order| ==> var e := PairEntry(s, dict, symbols', order[k], order[k + 2]); e.Some? ==> e.value in q')
    ensures Covered(s, dict, Join(symbols, order[k], order[k + 1], node), Without(order, k + 1), q')
  {
    var symbols', order' := Join(symbols, order[k], order[k + 1], node), Without(order, k + 1);
    assert |order'| == |order| - 1;
    hide Join, Without, PairEntry, Laid, SymbolOk;
    forall j | 0 <= j < |order'| - 1
      ensures var e := PairEntry(s, dict, symbols', order'[j], order'[j + 1]); e.Some? ==> e.value in q'
    {
      WithoutAt(order, k + 1, j);
      WithoutAt(order, k + 1, j + 1);
      if j != k && j != k - 1 {
        var i := if j < k then j else j + 1;
        JoinEntry(s, dict, symbols, order, k, node, i);
        EntryIs(s, dict, symbols, order[i], order[i + 1]);
        EntryIs(s, dict, symbols, order[k], order[k + 1]);
        NextOf(symbols, order, k);
        assert order[i] != top.l;
      }
    }
  }

  lemma EntryIs(s: string, dict: Dict, symbols: seq<Symbol>, l: int, r: int)
    ensures var e := PairEntry(s, dict, symbols, l, r); e.Some? ==> e.value.l == l && e.value.r == r
  {
  }

  /** A pair of neighbours that the join does not touch keeps its entry. */
  lemma JoinEntry(s: string, dict: Dict, symbols: seq<Symbol>, order: seq<nat>, k: nat, node: Option<nat>, i: nat)
    requires Chain(symbols, order) && k + 1 < |order| && i + 1 < |order| && (i + 1 < k || i > k + 1)
    ensures PairEntry(s, dict, Join(symbols, order[k], order[k + 1], node), order[i], order[i + 1])
         == PairEntry(s, dict, symbols, order[i], order[i + 1])
  {
    NextOf(symbols, order, k);
    NextOf(symbols, order, k + 1);
    NextOf(symbols, order, i);
    NextOf(symbols, order, i + 1);
    JoinFields(symbols, order[k], order[k + 1], node, order[i]);
    JoinFields(symbols, order[k], order[k + 1], node, order[i + 1]);
    hide Join, Chain;
  }

  // --- the state between two turns of the merge loop ---

  /** The list, the queue, and what is still to be joined: the result is that of plain byte pair encoding on the items
      at the start. */
  ghost predicate Ready(s: string, heap: Heap, root: nat, dict: Dict, symbols: seq<Symbol>, order: seq<nat>,
      q: multiset<SymbolPair>, start: seq<Item>) {
    && Laid(s, heap, root, dict, symbols, order, |s|)
    && AllSound(s, dict, symbols, q) && Covered(s, dict, symbols, order, q)
    && Merged(CostsOf(dict), Items(s, heap, root, dict, symbols, order, |s|)) == Merged(CostsOf(dict), start)
  }

  /** An entry that is out of date can be dropped. */
  lemma StaleStep(s: string, heap: Heap, root: nat, dict: Dict, symbols: seq<Symbol>, order: seq<nat>,
      q: multiset<SymbolPair>, start: seq<Item>, top: SymbolPair)
    requires Ready(s, heap, root, dict, symbols, order, q, start) && top in q && Sound(s, dict, symbols, top)
        && !UpToDate(symbols, top)
    ensures Ready(s, heap, root, dict, symbols, order, q - multiset{top}, start)
  {
    forall k | 0 <= k < |order| - 1
      ensures var e := PairEntry(s, dict, symbols, order[k], order[k + 1]); e.Some? ==> e.value in q - multiset{top}
    {
      EntryCurrent(s, dict, symbols, order[k], order[k + 1]);
    }
  }

  lemma EntryCurrent(s: string, dict: Dict, symbols: seq<Symbol>, l: nat, r: nat)
    requires l < |symbols| && r < |symbols|
    ensures var e := PairEntry(s, dict, symbols, l, r); e.Some? ==>
        e.value.l == l && e.value.r == r && UpToDate(symbols, e.value)
  {
  }

  /** The queue with an entry added, if there is one. */
  function Pushed(q: multiset<SymbolPair>, e: Option<SymbolPair>): multiset<SymbolPair> {
    if e.Some? then q + multiset{e.value} else q
  }

  /** What the loop pushes after a join: the entries of the pairs on either side of the joined symbol. */
  function AfterJoin(s: string, dict: Dict, symbols: seq<Symbol>, l: nat, q: multiset<SymbolPair>): multiset<SymbolPair>
    requires l < |symbols|
  {
    Pushed(Pushed(q, PairEntry(s, dict, symbols, symbols[l].prev, l)), PairEntry(s, dict, symbols, l, symbols[l].next))
  }

  lemma JoinReady(s: string, heap: Heap, root: nat, dict: Dict, symbols: seq<Symbol>, order: seq<nat>, k: nat,
      node: Option<nat>, top: SymbolPair, q: multiset<SymbolPair>, start: seq<Item>)
    requires Ready(s, heap, root, dict, symbols, order, q, start) && k + 1 < |order| && top in q && (forall e ::
        e in q ==> !Less(top, e))
    requires PairEntry(s, dict, symbols, order[k], order[k + 1]) == Some(top)
    requires node.Some?
    requires node == Walk(heap, root, s[symbols[order[k]].pos..symbols[order[k + 1]].pos + symbols[order[k + 1]].len])
    ensures Ready(s, heap, root, dict, Join(symbols, order[k], order[k + 1], node), Without(order, k + 1),
                  AfterJoin(s, dict, Join(symbols, order[k], order[k + 1], node), order[k], q - multiset{top}), start)
  {
    TopIsBest(s, heap, root, dict, symbols, order, q, top, k);
    MergedStep(CostsOf(dict), Items(s, heap, root, dict, symbols, order, |s|), k);
    JoinLaid(s, heap, root, dict, symbols, order, k, node);
    JoinQueueSound(s, heap, root, dict, symbols, order, k, node, top, q);
    JoinQueueCovers(s, heap, root, dict, symbols, order, k, node, top, q);
    hide Join, Without, Laid, Items, PairEntry, Walk, IsBest, Merged, AllSound, Covered, AfterJoin;
  }

  lemma PushedSound(s: string, dict: Dict, symbols: seq<Symbol>, q: multiset<SymbolPair>, l: int, r: int)
    requires AllSound(s, dict, symbols, q) && (0 <= l && 0 <= r ==> l < r)
    ensures AllSound(s, dict, symbols, Pushed(q, PairEntry(s, dict, symbols, l, r)))
  {
    if PairEntry(s, dict, symbols, l, r).Some? {
      EntrySound(s, dict, symbols, l, r);
    }
    hide Sound, PairEntry;
  }

  lemma JoinQueueSound(s: string, heap: Heap, root: nat, dict: Dict, symbols: seq<Symbol>, order: seq<nat>, k: nat,
      node: Option<nat>, top: SymbolPair, q: multiset<SymbolPair>)
    requires Laid(s, heap, root, dict, symbols, order, |s|) && AllSound(s, dict, symbols, q) && k + 1 < |order|
    requires PairEntry(s, dict, symbols, order[k], order[k + 1]) == Some(top)
    ensures var symbols' := Join(symbols, order[k], order[k + 1], node);
      AllSound(s, dict, symbols', AfterJoin(s, dict, symbols', order[k], q - multiset{top}))
  {
    JoinSides(s, heap, root, dict, symbols, order, k, node);
    var symbols' := Join(symbols, order[k], order[k + 1], node);
    var rest := q - multiset{top};
    assert |symbols'| == |symbols|;
    hide Laid, PairEntry, Join, Sound;
    JoinSound(s, heap, root, dict, symbols, order, k, node, rest);
    PushedSound(s, dict, symbols', rest, symbols'[order[k]].prev, order[k]);
    PushedSound(s, dict, symbols', Pushed(rest, PairEntry(s, dict, symbols', symbols'[order[k]].prev, order[k])),
                order[k], symbols'[order[k]].next);
  }

  lemma AfterJoinHas(s: string, dict: Dict, symbols: seq<Symbol>, l: nat, q: multiset<SymbolPair>)
    requires l < |symbols|
    ensures forall e :: e in q ==> e in AfterJoin(s, dict, symbols, l, q)
    ensures var e := PairEntry(s, dict, symbols, symbols[l].prev, l); e.Some? ==>
        e.value in AfterJoin(s, dict, symbols, l, q)
    ensures var e := PairEntry(s, dict, symbols, l, symbols[l].next); e.Some? ==>
        e.value in AfterJoin(s, dict, symbols, l, q)
  {
    hide PairEntry;
  }

  lemma JoinQueueCovers(s: string, heap: Heap, root: nat, dict: Dict, symbols: seq<Symbol>, order: seq<nat>, k: nat,
      node: Option<nat>, top: SymbolPair, q: multiset<SymbolPair>)
    requires Laid(s, heap, root, dict, symbols, order, |s|) && Covered(s, dict, symbols, order, q) && k + 1 < |order|
    requires PairEntry(s, dict, symbols, order[k], order[k + 1]) == Some(top)
    ensures var symbols' := Join(symbols, order[k], order[k + 1], node);
      Covered(s, dict, symbols', Without(order, k + 1), AfterJoin(s, dict, symbols', order[k], q - multiset{top}))
  {
    JoinSides(s, heap, root, dict, symbols, order, k, node);
    var symbols' := Join(symbols, order[k], order[k + 1], node);
    assert |symbols'| == |symbols|;
    hide Laid, PairEntry, Join, Covered, Without, AfterJoin;
    AfterJoinHas(s, dict, symbols', order[k], q - multiset{top});
    JoinCovered(s, heap, root, dict, symbols, order, k, node, top, q,
        AfterJoin(s, dict, symbols', order[k], q - multiset{top}));
  }

  /** The neighbours of the joined symbol. */
  lemma JoinSides(s: string, heap: Heap, root: nat, dict: Dict, symbols: seq<Symbol>, order: seq<nat>, k: nat,
      node: Option<nat>)
    requires Laid(s, heap, root, dict, symbols, order, |s|) && k + 1 < |order|
    ensures order[k] < |symbols| && order[k + 1] < |symbols| && order[k] < order[k + 1]
    ensures var joined := Join(symbols, order[k], order[k + 1], node)[order[k]];
      && joined.prev == (if k == 0 then -1 else order[k - 1]) && joined.prev < order[k]
      && joined.next == (if k + 2 == |order| then -1 else order[k + 2]) && (joined.next == -1 || order[k] < joined.next)
  {
    NextOf(symbols, order, k);
    NextOf(symbols, order, k + 1);
    JoinFields(symbols, order[k], order[k + 1], node, order[k]);
    hide Join;
  }
}
