/** What happens to plain byte pair encoding when more strings may be joined. Whatever was joined inside a stretch of
    the text would have been joined in that stretch alone; so a new string matters somewhere exactly when, with the old
    ones, it is left in two pieces. */
module MergeLocality {
  import opened Wrappers
  import opened PairMerging

  /** The single bytes of a text. */
  function Bytes(cur: string): seq<Item> {
    seq(|cur|, j requires 0 <= j < |cur| => Piece([cur[j]]))
  }

  ghost predicate NonEmpty(items: seq<Item>) {
    forall i :: 0 <= i < |items| ==> items[i].Piece? && items[i].text != ""
  }

  lemma {:induction false} SpellBytes(cur: string)
    ensures Spell(Bytes(cur)) == cur
  {
    if cur != "" {
      SpellBytes(cur[1..]);
      SpellCons(Bytes(cur)[0], Bytes(cur[1..]));
      assert Bytes(cur) == [Bytes(cur)[0]] + Bytes(cur[1..]);
    }
  }

  // --- locality ---

  /** Every stretch of these pieces comes to what it would come to alone, from its single bytes. */
  ghost predicate Local(costs: Costs, items: seq<Item>) {
    forall p, q :: 0 <= p <= q <= |items| ==> LocalAt(costs, items, p, q)
  }

  ghost predicate LocalAt(costs: Costs, items: seq<Item>, p: int, q: int)
    requires 0 <= p <= q <= |items|
  {
    Merged(costs, items[p..q]) == Merged(costs, Bytes(Spell(items[p..q])))
  }

  lemma LocalStart(costs: Costs, t: string)
    ensures Local(costs, Bytes(t)) && NonEmpty(Bytes(t))
  {
    forall p, q | 0 <= p <= q <= |Bytes(t)| ensures LocalAt(costs, Bytes(t), p, q) {
      assert Bytes(t)[p..q] == Bytes(t[p..q]);
      SpellBytes(t[p..q]);
    }
  }

  /** A best pair is best among the pairs of any stretch that holds it. */
  lemma BestWithin(costs: Costs, items: seq<Item>, i: int, p: int, q: int)
    requires IsBest(costs, items, i) && 0 <= p <= i && i + 2 <= q <= |items|
    ensures IsBest(costs, items[p..q], i - p)
  {
    var part := items[p..q];
    forall j ensures CanMerge(costs, part, j) ==>
        CanMerge(costs, items, p + j) && Cost(costs, part, j) == Cost(costs, items, p + j) {
    }
  }

  lemma MergeOutside(items: seq<Item>, i: nat, p: nat, q: nat)
    requires i + 1 < |items| && p <= q < |items| && (q <= i || i < p)
    ensures MergeAt(items, i)[p..q] == if q <= i then items[p..q] else items[p + 1..q + 1]
  {
  }

  lemma MergeInside(items: seq<Item>, i: nat, p: nat, q: nat)
    requires p <= i < q < |items|
    ensures MergeAt(items, i)[p..q] == MergeAt(items[p..q + 1], i - p)
  {
  }

  lemma LocalStep(costs: Costs, items: seq<Item>, i: nat)
    requires Local(costs, items) && NonEmpty(items) && IsBest(costs, items, i)
    ensures Local(costs, MergeAt(items, i)) && NonEmpty(MergeAt(items, i))
  {
    hide Merged, Spell, Bytes;
    var next := MergeAt(items, i);
    forall p: nat, q: nat | p <= q <= |next| ensures LocalAt(costs, next, p, q) {
      if q <= i || i < p {
        MergeOutside(items, i, p, q);
        assert if q <= i then LocalAt(costs, items, p, q) else LocalAt(costs, items, p + 1, q + 1);
      } else {
        MergeInside(items, i, p, q);
        var part := items[p..q + 1];
        assert LocalAt(costs, items, p, q + 1);
        BestWithin(costs, items, i, p, q + 1);
        MergedStep(costs, part, i - p);
        SpellMerge(part, i - p);
      }
    }
  }

  lemma {:induction false} MergedSize(costs: Costs, items: seq<Item>)
    ensures |Merged(costs, items)| <= |items| && (items != [] ==> Merged(costs, items) != [])
    ensures !Stuck(costs, items) ==> |Merged(costs, items)| < |items|
    decreases |items|
  {
    var best := BestBelow(costs, items, |items|);
    if best.Some? {
      MergedSize(costs, MergeAt(items, best.value));
    }
  }

  /** The pair that is joined next, if any. */
  lemma NextPair(costs: Costs, items: seq<Item>) returns (best: Option<nat>)
    ensures best.None? ==> Stuck(costs, items) && Merged(costs, items) == items
    ensures best.Some? ==>
        IsBest(costs, items, best.value) && Merged(costs, items) == Merged(costs, MergeAt(items, best.value))
  {
    best := BestBelow(costs, items, |items|);
    if best.Some? {
      MergedStep(costs, items, best.value);
    }
  }

  /** A pair that cannot be joined is a text that is left in two pieces. */
  lemma PairLeft(costs: Costs, items: seq<Item>, i: nat)
    requires Local(costs, items) && NonEmpty(items) && i + 1 < |items| && !CanMerge(costs, items, i)
    ensures |Merged(costs, Bytes(items[i].text + items[i + 1].text))| == 2
  {
    var pair := items[i..i + 2];
    assert LocalAt(costs, items, i, i + 2);
    assert pair == [items[i], items[i + 1]];
    SpellTwo(items[i], items[i + 1]);
    assert Stuck(costs, pair) by {
      assert forall j :: CanMerge(costs, pair, j) ==> j == 0;
    }
    MergedStuck(costs, pair);
  }

  lemma SpellTwo(x: Item, y: Item)
    ensures Spell([x, y]) == x.text + y.text
  {
    assert [x, y] == [x] + [y] && [y] == [y] + [];
    SpellCons(x, [y]);
    SpellCons(y, []);
    assert y.text + "" == y.text;
  }

  // --- more costs ---

  /** The costs d allow all that c allows, at the same cost, and perhaps more. */
  ghost predicate Extends(c: Costs, d: Costs) {
    forall t :: t in c ==> t in d && d[t] == c[t]
  }

  /** A new string, which the old costs leave in two pieces. */
  ghost predicate Splits(c: Costs, d: Costs, k: string) {
    k in d && k !in c && |Merged(c, Bytes(k))| == 2
  }

  lemma SameBest(c: Costs, d: Costs, items: seq<Item>, i: nat)
    requires Extends(c, d) && IsBest(d, items, i) && CanMerge(c, items, i)
    ensures IsBest(c, items, i)
  {
    forall j | CanMerge(c, items, j) ensures CanMerge(d, items, j) && Cost(d, items, j) == Cost(c, items, j) {
    }
  }

  lemma PairKnown(c: Costs, d: Costs, items: seq<Item>, i: nat)
    requires Local(c, items) && NonEmpty(items) && CanMerge(d, items, i)
    requires !Splits(c, d, items[i].text + items[i + 1].text)
    ensures CanMerge(c, items, i)
  {
    if !CanMerge(c, items, i) {
      PairLeft(c, items, i);
    }
  }

  /** As long as no new string is left in two pieces, the new costs change nothing. */
  lemma {:induction false} NothingNew(c: Costs, d: Costs, items: seq<Item>)
    requires Extends(c, d) && Local(c, items) && NonEmpty(items) && forall k :: !Splits(c, d, k)
    ensures Merged(d, items) == Merged(c, items)
    decreases |items|
  {
    hide Merged, Bytes, Local;
    var best := NextPair(d, items);
    if best.None? {
      assert Stuck(c, items) by {
        forall j ensures !CanMerge(c, items, j) {
          assert !CanMerge(d, items, j);
        }
      }
      MergedStuck(c, items);
    } else {
      var i := best.value;
      PairKnown(c, d, items, i);
      SameBest(c, d, items, i);
      MergedStep(c, items, i);
      LocalStep(c, items, i);
      NothingNew(c, d, MergeAt(items, i));
    }
  }

  lemma ProperPair(items: seq<Item>, i: nat)
    requires NonEmpty(items) && i + 1 < |items| && |items| > 2
    ensures |items[i].text + items[i + 1].text| < |Spell(items)|
  {
    Around(items, i);
    var x, y, rest := items[i], items[i + 1], items[i + 2..];
    SpellConcat(items[..i], [x] + ([y] + rest));
    SpellCons(x, [y] + rest);
    SpellCons(y, rest);
    if i > 0 {
      SpellLength(items[..i]);
    } else {
      SpellLength(rest);
    }
  }

  lemma SpellLength(items: seq<Item>)
    requires NonEmpty(items) && items != []
    ensures |Spell(items)| > 0
  {
  }

  /** A new string that the old costs leave in two pieces, and with no shorter such string, becomes one piece. */
  lemma {:induction false} BecomesOne(c: Costs, d: Costs, items: seq<Item>)
    requires Extends(c, d) && Local(c, items) && NonEmpty(items)
    requires Spell(items) in d && Spell(items) !in c && |Merged(c, items)| == 2
    requires forall k :: |k| < |Spell(items)| ==> !Splits(c, d, k)
    ensures Merged(d, items) == [Piece(Spell(items))]
    decreases |items|
  {
    hide Merged, Bytes, Local, Spell;
    MergedSize(c, items);
    var best := NextPair(d, items);
    if |items| == 2 {
      assert items == [items[0], items[1]];
      SpellTwo(items[0], items[1]);
      assert CanMerge(d, items, 0) && best == Some(0);
      assert MergeAt(items, 0) == [Piece(Spell(items))];
      MergedStuck(d, MergeAt(items, 0));
    } else {
      var first := NextPair(c, items);
      assert CanMerge(d, items, first.value) && best.Some?;
      var i := best.value;
      ProperPair(items, i);
      PairKnown(c, d, items, i);
      SameBest(c, d, items, i);
      MergedStep(c, items, i);
      LocalStep(c, items, i);
      SpellMerge(items, i);
      BecomesOne(c, d, MergeAt(items, i));
    }
  }

  /** If some new string is left in two pieces, a shortest one of them is encoded differently: in one piece. */
  lemma {:induction false} SomethingNew(c: Costs, d: Costs, k: string) returns (t: string)
    requires Extends(c, d) && Splits(c, d, k)
    ensures Merged(d, Bytes(t)) == [Piece(t)] && |Merged(c, Bytes(t))| == 2 && Splits(c, d, t)
    decreases |k|
  {
    if l :| |l| < |k| && Splits(c, d, l) {
      t := SomethingNew(c, d, l);
    } else {
      t := k;
      LocalStart(c, k);
      SpellBytes(k);
      BecomesOne(c, d, Bytes(k));
    }
  }
}
