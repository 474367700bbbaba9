/** Byte pair encoding, the plain way: as long as two neighbours can be joined, join the cheapest pair, the leftmost
    among equals. */
module PairMerging {
  import opened Wrappers

  /** A piece of text that may grow, or a stretch of text that nothing is joined with. */
  datatype Item = Piece(text: string) | Barrier(text: string, fixId: int)

  /** The strings that may be joined, with what it costs. */
  type Costs = map<string, real>

  predicate CanMerge(costs: Costs, items: seq<Item>, i: int) {
    0 <= i && i + 1 < |items| && items[i].Piece? && items[i + 1].Piece? && items[i].text + items[i + 1].text in costs
  }

  function Cost(costs: Costs, items: seq<Item>, i: int): real
    requires CanMerge(costs, items, i)
  {
    costs[items[i].text + items[i + 1].text]
  }

  /** The pair to join next. */
  ghost predicate IsBest(costs: Costs, items: seq<Item>, i: int) {
    && CanMerge(costs, items, i)
    && forall j :: CanMerge(costs, items, j) ==>
         Cost(costs, items, i) < Cost(costs, items, j) || (Cost(costs, items, i) == Cost(costs, items, j) && i <= j)
  }

  /** No two neighbours can be joined. */
  ghost predicate Stuck(costs: Costs, items: seq<Item>) {
    forall i :: !CanMerge(costs, items, i)
  }

  /** The pair to join next among the first n. */
  function BestBelow(costs: Costs, items: seq<Item>, n: nat): (best: Option<nat>)
    ensures best.None? ==> forall j :: 0 <= j < n ==> !CanMerge(costs, items, j)
    ensures best.Some? ==>
              && best.value < n && CanMerge(costs, items, best.value)
              && forall j :: 0 <= j < n && CanMerge(costs, items, j) ==>
                   Cost(costs, items, best.value) < Cost(costs, items, j)
                   || (Cost(costs, items, best.value) == Cost(costs, items, j) && best.value <= j)
  {
    if n == 0 then None
    else
      var before := BestBelow(costs, items, n - 1);
      if !CanMerge(costs, items, n - 1) then before
      else if before.None? || Cost(costs, items, n - 1) < Cost(costs, items, before.value) then Some(n - 1)
      else before
  }

  function MergeAt(items: seq<Item>, i: nat): seq<Item>
    requires i + 1 < |items|
  {
    items[..i] + [Piece(items[i].text + items[i + 1].text)] + items[i + 2..]
  }

  /** Joins pairs until none can be joined. */
  function Merged(costs: Costs, items: seq<Item>): seq<Item>
    decreases |items|
  {
    var best := BestBelow(costs, items, |items|);
    if best.None? then items else Merged(costs, MergeAt(items, best.value))
  }

  /** Joining the best pair does not change the result. */
  lemma MergedStep(costs: Costs, items: seq<Item>, i: nat)
    requires IsBest(costs, items, i)
    ensures Merged(costs, items) == Merged(costs, MergeAt(items, i))
  {
    var best := BestBelow(costs, items, |items|);
    assert best == Some(i);
  }

  lemma MergedStuck(costs: Costs, items: seq<Item>)
    requires Stuck(costs, items)
    ensures Merged(costs, items) == items
  {
  }

  function Spell(items: seq<Item>): string {
    if items == [] then "" else items[0].text + Spell(items[1..])
  }

  lemma {:induction false} SpellConcat(a: seq<Item>, b: seq<Item>)
    ensures Spell(a + b) == Spell(a) + Spell(b)
  {
    if a == [] {
      assert a + b == b;
    } else {
      assert (a + b)[0] == a[0] && (a + b)[1..] == a[1..] + b;
      SpellConcat(a[1..], b);
    }
  }

  lemma SpellCons(item: Item, rest: seq<Item>)
    ensures Spell([item] + rest) == item.text + Spell(rest)
  {
    assert ([item] + rest)[1..] == rest;
  }

  lemma SpellPair(x: Item, y: Item, rest: seq<Item>)
    ensures Spell([Piece(x.text + y.text)] + rest) == Spell([x] + ([y] + rest))
  {
    SpellCons(x, [y] + rest);
    SpellCons(y, rest);
    SpellCons(Piece(x.text + y.text), rest);
    assert (x.text + y.text) + Spell(rest) == x.text + (y.text + Spell(rest));
  }

  lemma Around(items: seq<Item>, i: nat)
    requires i + 1 < |items|
    ensures items == items[..i] + ([items[i]] + ([items[i + 1]] + items[i + 2..]))
  {
    assert items[i..] == [items[i]] + ([items[i + 1]] + items[i + 2..]);
    assert items == items[..i] + items[i..];
  }

  lemma MergeAround(items: seq<Item>, i: nat)
    requires i + 1 < |items|
    ensures MergeAt(items, i) == items[..i] + ([Piece(items[i].text + items[i + 1].text)] + items[i + 2..])
  {
    Assoc(items[..i], [Piece(items[i].text + items[i + 1].text)], items[i + 2..]);
  }

  lemma Assoc(a: seq<Item>, b: seq<Item>, c: seq<Item>)
    ensures (a + b) + c == a + (b + c)
  {
  }

  lemma SpellMerge(items: seq<Item>, i: nat)
    requires i + 1 < |items|
    ensures Spell(MergeAt(items, i)) == Spell(items)
  {
    var x, y, rest := items[i], items[i + 1], items[i + 2..];
    var joined := Piece(x.text + y.text);
    Around(items, i);
    MergeAround(items, i);
    hide Spell, MergeAt;
    SpellConcat(items[..i], [x] + ([y] + rest));
    SpellConcat(items[..i], [joined] + rest);
    SpellPair(x, y, rest);
  }

  /** Every piece was there before or is a string that may be joined; barriers stay as they are, in order. */
  ghost predicate Pieces(costs: Costs, start: seq<Item>, items: seq<Item>) {
    forall i :: 0 <= i < |items| ==> items[i] in start || (items[i].Piece? && items[i].text in costs)
  }

  function Barriers(items: seq<Item>): seq<Item> {
    if items == [] then [] else (if items[0].Barrier? then [items[0]] else []) + Barriers(items[1..])
  }

  lemma {:induction false} BarriersConcat(a: seq<Item>, b: seq<Item>)
    ensures Barriers(a + b) == Barriers(a) + Barriers(b)
  {
    if a == [] {
      assert a + b == b;
    } else {
      assert (a + b)[0] == a[0] && (a + b)[1..] == a[1..] + b;
      BarriersConcat(a[1..], b);
    }
  }

  lemma BarriersCons(item: Item, rest: seq<Item>)
    requires item.Piece?
    ensures Barriers([item] + rest) == Barriers(rest)
  {
    assert ([item] + rest)[1..] == rest;
  }

  lemma BarriersMerge(items: seq<Item>, i: nat)
    requires i + 1 < |items| && items[i].Piece? && items[i + 1].Piece?
    ensures Barriers(MergeAt(items, i)) == Barriers(items)
  {
    var x, y, rest := items[i], items[i + 1], items[i + 2..];
    var joined := Piece(x.text + y.text);
    Around(items, i);
    MergeAround(items, i);
    hide Barriers, MergeAt;
    BarriersConcat(items[..i], [x] + ([y] + rest));
    BarriersConcat(items[..i], [joined] + rest);
    BarriersCons(x, [y] + rest);
    BarriersCons(y, rest);
    BarriersCons(joined, rest);
  }

  /** The result spells the same text, consists of known pieces, keeps every barrier, and cannot be joined further. */
  lemma {:induction false} MergedMeaning(costs: Costs, items: seq<Item>)
    ensures Spell(Merged(costs, items)) == Spell(items)
    ensures Barriers(Merged(costs, items)) == Barriers(items)
    ensures Pieces(costs, items, Merged(costs, items))
    ensures Stuck(costs, Merged(costs, items))
    decreases |items|
  {
    var best := BestBelow(costs, items, |items|);
    if best.Some? {
      var next := MergeAt(items, best.value);
      MergedMeaning(costs, next);
      SpellMerge(items, best.value);
      BarriersMerge(items, best.value);
    }
  }
}
