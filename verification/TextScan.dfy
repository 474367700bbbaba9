/** How the tokenizer first cuts the input: special tokens, shortest tokens, and single bytes that start no token. */
module TextScan {
  import opened Wrappers
  import opened TokenTrie
  import opened PairMerging
  import opened ScoreMerge

  ghost predicate StartsToken(dict: Dict, t: string) {
    exists k :: k in dict && t <= k
  }

  /** The end of the longest stretch from i, at least to j, that starts some token. */
  ghost function FarEnd(dict: Dict, s: string, i: nat, j: nat): (end: nat)
    requires i <= j <= |s|
    ensures j <= end <= |s|
    decreases |s| - j
  {
    if j < |s| && StartsToken(dict, s[i..j + 1]) then FarEnd(dict, s, i, j + 1) else j
  }

  /** The end of the shortest token from i that reaches at least to j. */
  function ShortestEnd(dict: Dict, s: string, i: nat, j: nat): (end: Option<nat>)
    requires i < j
    ensures end.Some? ==> j <= end.value <= |s| && s[i..end.value] in dict
    ensures end.Some? ==> forall m :: j <= m < end.value ==> s[i..m] !in dict
    ensures end.None? ==> forall m :: j <= m <= |s| ==> s[i..m] !in dict
    decreases |s| - j
  {
    if j > |s| then None else if s[i..j] in dict then Some(j) else ShortestEnd(dict, s, i, j + 1)
  }

  /** A special token where the longest stretch that starts special tokens is one; else the shortest token; else a
      single byte. */
  ghost function Scan(dict: Dict, special: Dict, s: string, i: nat): seq<Item>
    requires i <= |s|
    decreases |s| - i
  {
    if i == |s| then []
    else
      var far := FarEnd(special, s, i, i);
      if far > i && s[i..far] in special then [Barrier(s[i..far], special[s[i..far]].id)] + Scan(dict, special, s, far)
      else
        var end := ShortestEnd(dict, s, i, i + 1);
        if end.Some? then [Piece(s[i..end.value])] + Scan(dict, special, s, end.value)
        else [Barrier(s[i..i + 1], NONE)] + Scan(dict, special, s, i + 1)
  }

  /** What an item of the scan can be. */
  ghost predicate FromScan(dict: Dict, special: Dict, item: Item) {
    if item.Piece? then item.text in dict
    else if item.fixId == NONE then (|item.text| == 1 && item.text !in dict)
        || (item.text in special && special[item.text].id == NONE)
    else item.text in special && item.fixId == special[item.text].id
  }

  lemma Cut(s: string, i: nat, next: nat)
    requires i <= next <= |s|
    ensures s[i..next] + s[next..] == s[i..]
  {
  }

  lemma ScanStep(dict: Dict, special: Dict, s: string, i: nat) returns (item: Item, next: nat)
    requires i < |s|
    ensures i < next <= |s| && item.text == s[i..next] && FromScan(dict, special, item)
    ensures Scan(dict, special, s, i) == [item] + Scan(dict, special, s, next)
  {
    var far := FarEnd(special, s, i, i);
    var end := ShortestEnd(dict, s, i, i + 1);
    next := if far > i && s[i..far] in special then far else if end.Some? then end.value else i + 1;
    item := if far > i && s[i..far] in special then Barrier(s[i..far], special[s[i..far]].id)
            else if end.Some? then Piece(s[i..end.value]) else Barrier(s[i..i + 1], NONE);
  }

  /** The scan spells the input, with tokens and single bytes. */
  lemma {:induction false} ScanSpells(dict: Dict, special: Dict, s: string, i: nat)
    requires i <= |s|
    ensures Spell(Scan(dict, special, s, i)) == s[i..]
    ensures forall item :: item in Scan(dict, special, s, i) ==> FromScan(dict, special, item)
    decreases |s| - i
  {
    if i == |s| {
      assert Scan(dict, special, s, i) == [] && s[i..] == "";
    } else {
      hide Scan, FromScan, Spell;
      var item, next := ScanStep(dict, special, s, i);
      ScanSpells(dict, special, s, next);
      SpellCons(item, Scan(dict, special, s, next));
      Cut(s, i, next);
    }
  }

  // --- the list of symbols while it is being built ---

  function EndAt(symbols: seq<Symbol>, i: nat, k: nat): nat
    requires k < |symbols|
  {
    if k + 1 < |symbols| then symbols[k + 1].pos else i
  }

  /** The symbols pushed so far cover the input up to i; each is linked to the next one, which need not be there yet. */
  ghost predicate Scanned(s: string, heap: Heap, root: nat, dict: Dict, symbols: seq<Symbol>, i: nat) {
    && (forall k :: 0 <= k < |symbols| ==> symbols[k].prev == k - 1 && symbols[k].next == k + 1)
    && Rising(s, symbols, i)
    && (forall k :: 0 <= k < |symbols| ==> SymbolOk(s, heap, root, dict, symbols[k], EndAt(symbols, i, k)))
  }

  ghost function ScannedItems(s: string, heap: Heap, root: nat, dict: Dict, symbols: seq<Symbol>, i: nat): seq<Item>
    requires Scanned(s, heap, root, dict, symbols, i)
  {
    seq(|symbols|, k requires 0 <= k < |symbols| =>
      assert SymbolOk(s, heap, root, dict, symbols[k], EndAt(symbols, i, k));
      ItemOf(s, symbols[k], EndAt(symbols, i, k)))
  }

  lemma PushSymbol(s: string, heap: Heap, root: nat, dict: Dict, symbols: seq<Symbol>, i: nat, symbol: Symbol,
      next: nat)
    requires Scanned(s, heap, root, dict, symbols, i)
    requires symbol.pos == i && symbol.prev == |symbols| - 1 && symbol.next == |symbols| + 1
        && SymbolOk(s, heap, root, dict, symbol, next)
    ensures Scanned(s, heap, root, dict, symbols + [symbol], next)
    ensures ScannedItems(s, heap, root, dict, symbols + [symbol], next)
         == ScannedItems(s, heap, root, dict, symbols, i) + [ItemOf(s, symbol, next)]
  {
    hide SymbolOk, ItemOf;
    var symbols' := symbols + [symbol];
    assert i < next <= |s| by { SymbolEnds(s, heap, root, dict, symbol, next); }
    forall k | 0 <= k < |symbols'| ensures SymbolOk(s, heap, root, dict, symbols'[k], EndAt(symbols', next, k)) {
      assert k < |symbols| ==> EndAt(symbols', next, k) == EndAt(symbols, i, k);
    }
    forall k | 0 <= k < |symbols'|
      ensures ScannedItems(s, heap, root, dict, symbols', next)[k]
           == (ScannedItems(s, heap, root, dict, symbols, i) + [ItemOf(s, symbol, next)])[k]
    {
      assert k < |symbols| ==> EndAt(symbols', next, k) == EndAt(symbols, i, k);
    }
  }

  lemma SymbolEnds(s: string, heap: Heap, root: nat, dict: Dict, symbol: Symbol, end: nat)
    requires SymbolOk(s, heap, root, dict, symbol, end)
    ensures symbol.pos < end <= |s|
  {
  }

  function Iota(n: nat): (order: seq<nat>)
    ensures |order| == n && forall k :: 0 <= k < n ==> order[k] == k
  {
    seq(n, k => k)
  }

  /** The last symbol is marked as the end of the list. */
  function Closed(symbols: seq<Symbol>): seq<Symbol> {
    if symbols == [] then [] else symbols[|symbols| - 1 := symbols[|symbols| - 1].(next := -1)]
  }

  lemma ClosedFields(symbols: seq<Symbol>, k: nat)
    requires k < |symbols|
    ensures |Closed(symbols)| == |symbols|
    ensures Closed(symbols)[k] == symbols[k].(next := if k + 1 == |symbols| then -1 else symbols[k].next)
  {
  }

  lemma ClosedChain(s: string, heap: Heap, root: nat, dict: Dict, symbols: seq<Symbol>)
    requires Scanned(s, heap, root, dict, symbols, |s|)
    ensures |Closed(symbols)| == |symbols| && Chain(Closed(symbols), Iota(|symbols|))
    ensures Rising(s, Closed(symbols), |s|)
    ensures forall i :: 0 <= i < |symbols| ==> i in Iota(|symbols|)
  {
    hide Closed, SymbolOk;
    var symbols', order := Closed(symbols), Iota(|symbols|);
    forall i | 0 <= i < |symbols| ensures i in order {
      assert order[i] == i;
    }
    ClosedSize(symbols);
    forall k | 0 <= k < |symbols|
      ensures symbols'[k].pos == symbols[k].pos && symbols'[k].prev == k - 1
      ensures symbols'[k].next == if k + 1 == |symbols| then -1 else k + 1
    {
      ClosedFields(symbols, k);
    }
    ChainIs(symbols', order);
    SameRising(s, symbols, symbols', |s|);
  }

  lemma ClosedSize(symbols: seq<Symbol>)
    ensures |Closed(symbols)| == |symbols|
  {
  }

  lemma SameRising(s: string, symbols: seq<Symbol>, symbols': seq<Symbol>, end: nat)
    requires Rising(s, symbols, end) && |symbols'| == |symbols|
    requires forall k :: 0 <= k < |symbols| ==> symbols'[k].pos == symbols[k].pos
    ensures Rising(s, symbols', end)
  {
  }

  lemma ClosedSymbol(s: string, heap: Heap, root: nat, dict: Dict, symbols: seq<Symbol>, k: nat)
    requires Scanned(s, heap, root, dict, symbols, |s|) && k < |symbols|
    ensures |Closed(symbols)| == |symbols|
    ensures SymbolOk(s, heap, root, dict, Closed(symbols)[k], EndOf(Closed(symbols), Iota(|symbols|), |s|, k))
    ensures ItemOf(s, Closed(symbols)[k], EndOf(Closed(symbols), Iota(|symbols|), |s|, k))
         == ScannedItems(s, heap, root, dict, symbols, |s|)[k]
  {
    ClosedChain(s, heap, root, dict, symbols);
    ClosedFields(symbols, k);
    if k + 1 < |symbols| {
      ClosedFields(symbols, k + 1);
    }
    assert SymbolOk(s, heap, root, dict, symbols[k], EndAt(symbols, |s|, k));
    assert EndOf(Closed(symbols), Iota(|symbols|), |s|, k) == EndAt(symbols, |s|, k);
    assert ScannedItems(s, heap, root, dict, symbols, |s|)[k] == ItemOf(s, symbols[k], EndAt(symbols, |s|, k));
    hide Scanned, SymbolOk, ItemOf, ScannedItems, Rising, Chain, Closed;
    SameSymbol(s, heap, root, dict, symbols[k], Closed(symbols)[k], EndAt(symbols, |s|, k));
  }

  /** When the whole input is covered, the symbols form the linked list. */
  lemma ClosedLaid(s: string, heap: Heap, root: nat, dict: Dict, symbols: seq<Symbol>)
    requires Scanned(s, heap, root, dict, symbols, |s|)
    ensures Laid(s, heap, root, dict, Closed(symbols), Iota(|symbols|), |s|)
    ensures Items(s, heap, root, dict, Closed(symbols), Iota(|symbols|), |s|)
        == ScannedItems(s, heap, root, dict, symbols, |s|)
  {
    ClosedChain(s, heap, root, dict, symbols);
    forall k | 0 <= k < |symbols|
      ensures SymbolOk(s, heap, root, dict, Closed(symbols)[k], EndOf(Closed(symbols), Iota(|symbols|), |s|, k))
      ensures ItemOf(s, Closed(symbols)[k], EndOf(Closed(symbols), Iota(|symbols|), |s|, k))
           == ScannedItems(s, heap, root, dict, symbols, |s|)[k]
    {
      ClosedSymbol(s, heap, root, dict, symbols, k);
    }
    hide Closed, SymbolOk, Chain, Rising, ItemOf, Scanned;
  }
}
