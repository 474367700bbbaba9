/** Stacking weights by rows: row o of part l is row (rows before part l) + o of the stack. */
module GraphMerge {
  import opened Arithmetic
  import opened GraphSemantics

  function Flatten<T>(parts: seq<seq<T>>): seq<T> {
    if parts == [] then [] else Flatten(parts[..|parts| - 1]) + parts[|parts| - 1]
  }

  function Sum(rows: seq<nat>): nat {
    if rows == [] then 0 else Sum(rows[..|rows| - 1]) + rows[|rows| - 1]
  }

  lemma {:induction false} SumSplit(rows: seq<nat>, l: nat)
    requires l < |rows|
    ensures Sum(rows[..l + 1]) == Sum(rows[..l]) + rows[l] && Sum(rows[..l]) + rows[l] <= Sum(rows)
    decreases |rows|
  {
    var init := rows[..|rows| - 1];
    assert rows[..l + 1][..l] == rows[..l];
    if l < |rows| - 1 {
      SumSplit(init, l);
      assert init[..l] == rows[..l] && init[..l + 1] == rows[..l + 1];
    } else {
      assert rows[..l + 1] == rows && rows[..l] == init;
    }
  }

  /** Every part has u entries per row. */
  ghost predicate Even<T>(parts: seq<seq<T>>, rows: seq<nat>, u: nat) {
    |parts| == |rows| && forall i :: 0 <= i < |parts| ==> |parts[i]| == rows[i] * u
  }

  lemma {:induction false} FlattenSize<T>(parts: seq<seq<T>>, rows: seq<nat>, u: nat)
    requires Even(parts, rows, u)
    ensures |Flatten(parts)| == Sum(rows) * u
  {
    if parts != [] {
      FlattenSize(parts[..|parts| - 1], rows[..|rows| - 1], u);
      Distribute(Sum(rows[..|rows| - 1]), rows[|rows| - 1], u);
    }
  }

  lemma {:induction false} FlattenPrefix<T>(parts: seq<seq<T>>, l: nat)
    requires l < |parts|
    ensures |Flatten(parts[..l])| + |parts[l]| <= |Flatten(parts)|
    ensures Flatten(parts)[|Flatten(parts[..l])|..|Flatten(parts[..l])| + |parts[l]|] == parts[l]
    decreases |parts|
  {
    var last := |parts| - 1;
    if l < last {
      FlattenPrefix(parts[..last], l);
      assert parts[..last][..l] == parts[..l];
    }
  }

  lemma FlattenAt<T>(parts: seq<seq<T>>, rows: seq<nat>, u: nat, l: nat)
    requires Even(parts, rows, u) && l < |parts|
    ensures |Flatten(parts)| == Sum(rows) * u && 0 <= Sum(rows[..l]) * u && 0 <= rows[l] * u
    ensures Sum(rows[..l]) * u + rows[l] * u <= |Flatten(parts)|
    ensures Flatten(parts)[Sum(rows[..l]) * u..Sum(rows[..l]) * u + rows[l] * u] == parts[l]
  {
    FlattenSize(parts, rows, u);
    FlattenSize(parts[..l], rows[..l], u);
    FlattenPrefix(parts, l);
  }

  lemma PartIs<T>(s: seq<T>, rows: nat, u: nat, o: nat)
    requires |s| == rows * u && o < rows
    ensures 0 <= o * u && o * u + u <= |s| && Part(s, rows, o) == s[o * u..o * u + u]
  {
    ExactDiv(u, rows);
    SlotFits(o, rows, u);
  }

  lemma SubSlice<T>(s: seq<T>, a: nat, n: nat, x: nat, y: nat)
    requires a + n <= |s| && x + y <= n
    ensures s[a..a + n][x..x + y] == s[a + x..a + x + y]
  {
    var p := s[a..a + n];
    var q := p[x..x + y];
    forall i | 0 <= i < |q| ensures q[i] == s[a + x..a + x + y][i] {
      assert p[x + i] == s[a + x + i];
    }
  }

  /** Row o of part l, found again in the stack. */
  lemma PartOfStack<T>(parts: seq<seq<T>>, rows: seq<nat>, u: nat, l: nat, o: nat)
    requires Even(parts, rows, u) && l < |parts| && o < rows[l]
    ensures Sum(rows[..l]) + o < Sum(rows)
    ensures Part(Flatten(parts), Sum(rows), Sum(rows[..l]) + o) == Part(parts[l], rows[l], o)
  {
    hide Sum, Flatten;
    var before := Sum(rows[..l]);
    SumSplit(rows, l);
    FlattenAt(parts, rows, u, l);
    PartIs(parts[l], rows[l], u, o);
    PartIs(Flatten(parts), Sum(rows), u, before + o);
    Distribute(before, o, u);
    Product(before, u);
    SlotFits(o, rows[l], u);
    Glue(Flatten(parts), parts[l], before * u, rows[l] * u, o * u, (before + o) * u, u);
  }

  lemma Glue<T>(all: seq<T>, part: seq<T>, a: nat, n: nat, x: nat, y: nat, u: nat)
    requires a + n <= |all| && part == all[a..a + n] && x + u <= n && y == a + x
    ensures all[y..y + u] == part[x..x + u]
  {
    SubSlice(all, a, n, x, u);
  }

  function RowsOf(d: Data): nat {
    if |d.dims| > 0 then d.dims[0] else 0
  }

  function RowLens(ds: seq<Data>): seq<nat> {
    seq(|ds|, i requires 0 <= i < |ds| => RowsOf(ds[i]))
  }

  function AllBytes(ds: seq<Data>): seq<seq<int>> { seq(|ds|, i requires 0 <= i < |ds| => ds[i].bytes) }
  function AllConfigs(ds: seq<Data>): seq<seq<int>> { seq(|ds|, i requires 0 <= i < |ds| => ds[i].configs) }
  function AllZeros(ds: seq<Data>): seq<seq<int>> { seq(|ds|, i requires 0 <= i < |ds| => ds[i].zeros) }
  function AllScales(ds: seq<Data>): seq<seq<real>> { seq(|ds|, i requires 0 <= i < |ds| => ds[i].scales) }
  function AllMins(ds: seq<Data>): seq<seq<real>> { seq(|ds|, i requires 0 <= i < |ds| => ds[i].mins) }

  /** The wide weight: the parts stacked by rows, with the layout of the first part. */
  function Stacked(ds: seq<Data>): Data
    requires ds != []
  {
    Data(ds[0].dataType, [Sum(RowLens(ds)), if |ds[0].dims| > 1 then ds[0].dims[1] else 0], Flatten(AllBytes(ds)),
         ds[0].group, ds[0].groupCnt, ds[0].perChannelAxis,
         Flatten(AllConfigs(ds)), Flatten(AllZeros(ds)), Flatten(AllScales(ds)), Flatten(AllMins(ds)))
  }

  /** The wide bias: its length is that of the wide weight. */
  function StackedBias(bs: seq<Data>, ds: seq<Data>): Data
    requires bs != []
  {
    EMPTY_DATA.(dataType := bs[0].dataType, dims := [Sum(RowLens(ds))], bytes := Flatten(AllBytes(bs)))
  }

  /** The weights can be stacked: same type, columns and grouping, and all per-row lists dealt out evenly. */
  ghost predicate Stackable(k: Kernel, ds: seq<Data>) {
    && ds != [] && HasRows(ds[0])
    && (forall i :: 0 <= i < |ds| ==>
          && HasRows(ds[i]) && ds[i].dims[1] == ds[0].dims[1] && ds[i].dataType == ds[0].dataType
          && ds[i].group == ds[0].group && ds[i].groupCnt == ds[0].groupCnt
              && ds[i].perChannelAxis == ds[0].perChannelAxis
          && k.bytesOf(ds[i].dataType, ds[i].dims) == |ds[i].bytes|)
    && k.bytesOf(ds[0].dataType, [Sum(RowLens(ds)), ds[0].dims[1]]) == |Flatten(AllBytes(ds))|
    && (exists u :: Even(AllBytes(ds), RowLens(ds), u))
    && (exists u :: Even(AllConfigs(ds), RowLens(ds), u))
    && (exists u :: Even(AllZeros(ds), RowLens(ds), u))
    && (exists u :: Even(AllScales(ds), RowLens(ds), u))
    && (exists u :: Even(AllMins(ds), RowLens(ds), u))
  }

  ghost predicate BiasStackable(k: Kernel, bs: seq<Data>, ds: seq<Data>) {
    && |bs| == |ds| && bs != []
    && (forall i :: 0 <= i < |bs| ==>
          && bs[i].dims == [RowsOf(ds[i])] && bs[i].dataType == bs[0].dataType
          && k.bytesOf(bs[i].dataType, bs[i].dims) == |bs[i].bytes|)
    && k.bytesOf(bs[0].dataType, [Sum(RowLens(ds))]) == |Flatten(AllBytes(bs))|
    && (exists u :: Even(AllBytes(bs), RowLens(ds), u))
  }

  lemma StackedRow(k: Kernel, ds: seq<Data>, l: nat, o: nat)
    requires Stackable(k, ds) && l < |ds| && o < RowsOf(ds[l])
    ensures HasRows(Stacked(ds)) && Sum(RowLens(ds)[..l]) + o < Sum(RowLens(ds))
    ensures RowAt(Stacked(ds), Sum(RowLens(ds)[..l]) + o) == RowAt(ds[l], o)
  {
    hide Even, Flatten, Part, Sum;
    var rows := RowLens(ds);
    SumSplit(rows, l);
    EvenRow(AllBytes(ds), rows, l, o);
    EvenRow(AllConfigs(ds), rows, l, o);
    EvenRow(AllZeros(ds), rows, l, o);
    EvenRow(AllScales(ds), rows, l, o);
    EvenRow(AllMins(ds), rows, l, o);
  }

  lemma EvenRow<T>(parts: seq<seq<T>>, rows: seq<nat>, l: nat, o: nat)
    requires (exists u :: Even(parts, rows, u)) && |parts| == |rows| && l < |parts| && o < rows[l]
    ensures Sum(rows[..l]) + o < Sum(rows)
    ensures Part(Flatten(parts), Sum(rows), Sum(rows[..l]) + o) == Part(parts[l], rows[l], o)
  {
    var u :| Even(parts, rows, u);
    PartOfStack(parts, rows, u, l, o);
  }

  ghost predicate BiasStacks(k: Kernel, bs: seq<Value>, datas: seq<Data>, ds: seq<Data>, wide: Value) {
    && |bs| == |ds| && BiasStackable(k, datas, ds) && wide == Weight(StackedBias(datas, ds))
    && forall i :: 0 <= i < |bs| ==> bs[i] == Weight(datas[i])
  }

  /** The bias of a run: stacked when the parts have one, and nothing otherwise. */
  ghost predicate BiasMatches(k: Kernel, bs: seq<Value>, ds: seq<Data>, wide: Value) {
    || (|bs| == |ds| && (forall i :: 0 <= i < |bs| ==>
        bs[i] == Nothing) && (wide == Nothing || wide == Weight(EMPTY_DATA)))
    || (exists datas :: BiasStacks(k, bs, datas, ds, wide))
  }

  lemma StackedBiasAt(k: Kernel, bs: seq<Value>, ds: seq<Data>, wide: Value, l: nat, o: nat)
    requires BiasMatches(k, bs, ds, wide) && l < |ds| && o < RowsOf(ds[l])
    ensures BiasAt(k, wide, Sum(RowLens(ds)[..l]) + o) == BiasAt(k, bs[l], o)
  {
    if datas :| BiasStacks(k, bs, datas, ds, wide) {
      BiasRow(k, datas, ds, l, o);
    }
  }

  lemma BiasRow(k: Kernel, datas: seq<Data>, ds: seq<Data>, l: nat, o: nat)
    requires BiasStackable(k, datas, ds) && l < |ds| && o < RowsOf(ds[l])
    ensures BiasAt(k, Weight(StackedBias(datas, ds)), Sum(RowLens(ds)[..l]) + o) == BiasAt(k, Weight(datas[l]), o)
  {
    var rows := RowLens(ds);
    var u :| Even(AllBytes(datas), rows, u);
    PartOfStack(AllBytes(datas), rows, u, l, o);
  }

  /** Columns of the wide product are the product with one part. */
  lemma WideRow(k: Kernel, ds: seq<Data>, bs: seq<Value>, wide: Value, x: seq<real>, l: nat)
    requires Stackable(k, ds) && BiasMatches(k, bs, ds, wide) && l < |ds|
    ensures SplitRow(LinearRow(k, Weight(Stacked(ds)), wide, x), Sum(RowLens(ds)[..l]),
        Sum(RowLens(ds)[..l]) + RowsOf(ds[l]))
         == LinearRow(k, Weight(ds[l]), bs[l], x)
  {
    var before := Sum(RowLens(ds)[..l]);
    SumSplit(RowLens(ds), l);
    StackedRow(k, ds, l, 0);
    hide BiasMatches, Stackable, RowAt, Stacked, Sum;
    forall o | 0 <= o < RowsOf(ds[l])
      ensures LinearRow(k, Weight(Stacked(ds)), wide, x)[before + o] == LinearRow(k, Weight(ds[l]), bs[l], x)[o]
    {
      WideEntry(k, ds, bs, wide, x, l, o);
    }
  }

  lemma WideEntry(k: Kernel, ds: seq<Data>, bs: seq<Value>, wide: Value, x: seq<real>, l: nat, o: nat)
    requires Stackable(k, ds) && BiasMatches(k, bs, ds, wide) && l < |ds| && o < RowsOf(ds[l])
    ensures HasRows(Stacked(ds)) && Sum(RowLens(ds)[..l]) + o < RowCount(Weight(Stacked(ds)))
    ensures |bs| == |ds| && o < RowCount(Weight(ds[l]))
    ensures LinearRow(k, Weight(Stacked(ds)), wide, x)[Sum(RowLens(ds)[..l]) + o]
        == LinearRow(k, Weight(ds[l]), bs[l], x)[o]
  {
    StackedRow(k, ds, l, o);
    StackedBiasAt(k, bs, ds, wide, l, o);
    hide BiasAt, RowAt, Sum;
  }

  /** A split of the wide Linear is the Linear it came from. */
  lemma WideSplit(k: Kernel, ds: seq<Data>, bs: seq<Value>, wide: Value, x: Value, l: nat)
    requires Stackable(k, ds) && BiasMatches(k, bs, ds, wide) && l < |ds|
    ensures SplitValue(k, LinearValue(k, x, Weight(Stacked(ds)), wide), -1,
                       Sum(RowLens(ds)[..l]), Sum(RowLens(ds)[..l]) + RowsOf(ds[l]))
         == LinearValue(k, x, Weight(ds[l]), bs[l])
  {
    forall i | 0 <= i < |Rows(x)|
      ensures SplitRow(LinearRow(k, Weight(Stacked(ds)), wide, Rows(x)[i]), Sum(RowLens(ds)[..l]),
          Sum(RowLens(ds)[..l]) + RowsOf(ds[l]))
           == LinearRow(k, Weight(ds[l]), bs[l], Rows(x)[i])
    {
      WideRow(k, ds, bs, wide, Rows(x)[i], l);
    }
  }

  /** silu of the first product times the second is the gated activation of the wide product of two equal halves. */
  lemma WideSwiglu(k: Kernel, ds: seq<Data>, bs: seq<Value>, wide: Value, x: Value)
    requires Stackable(k, ds) && BiasMatches(k, bs, ds, wide) && |ds| == 2 && |bs| == 2
        && RowsOf(ds[0]) == RowsOf(ds[1])
    ensures SwigluValue(k, LinearValue(k, x, Weight(Stacked(ds)), wide))
         == MulValue(SiluValue(k, LinearValue(k, x, Weight(ds[0]), bs[0])), LinearValue(k, x, Weight(ds[1]), bs[1]))
  {
    var y1 := LinearValue(k, x, Weight(ds[1]), bs[1]);
    forall i | 0 <= i < |Rows(x)|
      ensures SwigluRow(k, LinearRow(k, Weight(Stacked(ds)), wide, Rows(x)[i]))
           == MulRow(SiluRow(k, LinearRow(k, Weight(ds[0]), bs[0], Rows(x)[i])), Rows(y1), i)
    {
      WideRow(k, ds, bs, wide, Rows(x)[i], 0);
      WideRow(k, ds, bs, wide, Rows(x)[i], 1);
      TwoRows(k, ds);
      assert Rows(y1)[i] == LinearRow(k, Weight(ds[1]), bs[1], Rows(x)[i]);
      HalvesSwiglu(k, LinearRow(k, Weight(Stacked(ds)), wide, Rows(x)[i]), RowsOf(ds[0]), Rows(y1), i);
    }
  }

  lemma TwoRows(k: Kernel, ds: seq<Data>)
    requires Stackable(k, ds) && |ds| == 2 && RowsOf(ds[0]) == RowsOf(ds[1])
    ensures Sum(RowLens(ds)[..0]) == 0 && Sum(RowLens(ds)[..1]) == RowsOf(ds[0])
    ensures RowCount(Weight(Stacked(ds))) == 2 * RowsOf(ds[0])
  {
    var rows := RowLens(ds);
    StackedRow(k, ds, 0, 0);
    SumSplit(rows, 0);
    SumSplit(rows, 1);
    assert rows[..0] == [] && rows[..2] == rows;
  }

  lemma HalvesSwiglu(k: Kernel, y: seq<real>, n: nat, m: seq<seq<real>>, i: nat)
    requires |y| == 2 * n && i < |m| && m[i] == SplitRow(y, n, n + n)
    ensures SwigluRow(k, y) == MulRow(SiluRow(k, SplitRow(y, 0, 0 + n)), m, i)
  {
    assert |y| / 2 == n;
    forall j | 0 <= j < n ensures SwigluRow(k, y)[j] == MulRow(SiluRow(k, SplitRow(y, 0, 0 + n)), m, i)[j] {
      assert SplitRow(y, 0, 0 + n)[j] == y[j] && m[i][j] == y[n + j];
    }
  }
}
