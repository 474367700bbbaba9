/** Rows of 4-bit weights in groups of 32: four groups of 16 bytes lie together, followed by their four scales; a last
    block may have fewer groups. */
module Int4Group32 {
  import opened Arithmetic

  // --- where the bytes of a row lie ---

  function DataOffset(group: nat): nat {
    group / 4 * 72 + group % 4 * 16
  }

  /** The scales of a block follow its packed groups. */
  function ScaleOffset(group: nat, groups: nat): nat
    requires group < groups
  {
    var blockGroups := if groups - group / 4 * 4 < 4 then groups - group / 4 * 4 else 4;
    group / 4 * 72 + blockGroups * 16 + group % 4 * 2
  }

  /** A byte of a row, by what it means. */
  datatype Place = DataByte(group: nat, i: nat) | ScaleByte(group: nat, i: nat)

  predicate Valid(p: Place, groups: nat) {
    p.group < groups && p.i < if p.DataByte? then 16 else 2
  }

  function OffsetOf(p: Place, groups: nat): nat
    requires Valid(p, groups)
  {
    if p.DataByte? then DataOffset(p.group) + p.i else ScaleOffset(p.group, groups) + p.i
  }

  /** What a byte of a row means. */
  function PlaceOf(b: nat, groups: nat): Place {
    var block, inBlock := b / 72, b % 72;
    var blockGroups := if groups - block * 4 < 4 then groups - block * 4 else 4;
    if inBlock < blockGroups * 16 then DataByte(block * 4 + inBlock / 16, inBlock % 16)
    else ScaleByte(block * 4 + (inBlock - blockGroups * 16) / 2, (inBlock - blockGroups * 16) % 2)
  }

  lemma Blocks(b: nat, r: nat)
    requires r < 72
    ensures (b * 72 + r) / 72 == b && (b * 72 + r) % 72 == r
  {
  }

  /** The regions of the groups do not overlap, and lie within 18 bytes for each group. */
  lemma NoOverlap(p: Place, groups: nat)
    requires Valid(p, groups)
    ensures OffsetOf(p, groups) < 18 * groups && PlaceOf(OffsetOf(p, groups), groups) == p
  {
    var block, inBlock := p.group / 4, p.group % 4;
    var blockGroups := if groups - block * 4 < 4 then groups - block * 4 else 4;
    var r := if p.DataByte? then inBlock * 16 + p.i else blockGroups * 16 + inBlock * 2 + p.i;
    assert r < blockGroups * 18 <= 72;
    Blocks(block, r);
  }

  /** The regions leave no gap. */
  lemma NoGap(b: nat, groups: nat)
    requires b < 18 * groups
    ensures Valid(PlaceOf(b, groups), groups) && OffsetOf(PlaceOf(b, groups), groups) == b
  {
    var block, inBlock := b / 72, b % 72;
    assert block * 4 < groups;
    var blockGroups := if groups - block * 4 < 4 then groups - block * 4 else 4;
    assert inBlock < blockGroups * 18;
    var p := PlaceOf(b, groups);
    assert p.group / 4 == block;
  }

  // --- the quantiser ---

  /** To the nearest whole number, halves away from zero. */
  function Nearest(v: real): int {
    if v >= 0.0 then (v + 0.5).Floor else -((-v + 0.5).Floor)
  }

  function Quantize(x: real, scale: real): int {
    if scale == 0.0 then 8
    else
      var q := Nearest(x / scale) + 8;
      if q > 15 then 15 else if q < 0 then 0 else q
  }

  /** The value that a stored nibble stands for. */
  function Dequantize(q: int, scale: real): real {
    (q - 8) as real * scale
  }

  lemma Steps(v: real, x: real, absMax: real, scale: real)
    requires scale > 0.0 && v * scale == x && Abs(x) <= absMax < 7.5 * scale
    ensures -7.5 < v < 7.5
  {
    RealSmaller(v, 7.5, scale);
    assert (-7.5) * scale == -(7.5 * scale);
    RealSmaller(-7.5, v, scale);
  }

  lemma NearestClose(v: real)
    requires -7.5 < v < 7.5
    ensures -7 <= Nearest(v) <= 7 && -0.5 <= Nearest(v) as real - v <= 0.5
  {
  }

  /** Halves are rounded away from zero, on both sides of it. */
  lemma HalvesAway(n: nat)
    ensures Nearest(n as real + 0.5) == n + 1 && Nearest(-(n as real + 0.5)) == -(n + 1)
  {
  }

  /** A group of zeros is stored as a row of eights, under the scale that zero is rounded to. */
  lemma ZeroGroup(r: Rounding, x: seq<real>, from: nat, group: nat, i: nat)
    requires from + group * 32 + 32 <= |x| && i < 16 && r.value(r.bits(0.0)) == 0.0
    requires forall k :: from + group * 32 <= k < from + group * 32 + 32 ==> x[k] == 0.0
    ensures ScaleBits(r, x, from + group * 32) == r.bits(0.0) && ByteAt(r, x, from, DataByte(group, i)) == 0x88
  {
    var k := LargestAttained(x, from + group * 32, 32);
  }

  lemma StepsClose(n: int, v: real, x: real, scale: real)
    requires scale >= 0.0 && v * scale == x && -0.5 <= n as real - v <= 0.5
    ensures Abs(n as real * scale - x) <= scale / 2.0
  {
    var d := n as real - v;
    HalfOf(d, scale);
    var e := n as real * scale - v * scale;
    assert e == d * scale;
  }

  /** With a scale that is a seventh of the largest magnitude, to within one part in 256, the clamp is never needed and
      the nibble stands for a value within half a scale. */
  lemma HalfScale(x: real, absMax: real, scale: real)
    requires Abs(x) <= absMax && scale >= 0.0 && Abs(scale - absMax / 7.0) <= absMax / 7.0 / 256.0
    ensures 0 <= Quantize(x, scale) <= 15
    ensures Abs(Dequantize(Quantize(x, scale), scale) - x) <= scale / 2.0
  {
    if scale > 0.0 {
      var v := x / scale;
      assert v * scale == x;
      Steps(v, x, absMax, scale);
      NearestClose(v);
      StepsClose(Nearest(v), v, x, scale);
      assert Quantize(x, scale) == Nearest(v) + 8;
    } else {
      assert absMax == 0.0;
    }
  }

  /** How scales are rounded to 16 bits: bits are the pattern, and value what it stands for. */
  datatype Rounding = Rounding(bits: real -> nat, value: nat -> real)

  /** A magnitude is rounded with a relative error of at most 2^-8. */
  predicate Accurate(r: Rounding, v: real) {
    r.bits(v) < 0x1_0000 && r.value(r.bits(v)) >= 0.0 && Abs(r.value(r.bits(v)) - v) <= v / 256.0
  }

  function Largest(x: seq<real>, start: nat, n: nat): real
    requires start + n <= |x|
  {
    if n == 0 then 0.0
    else
      var before := Largest(x, start, n - 1);
      if Abs(x[start + n - 1]) > before then Abs(x[start + n - 1]) else before
  }

  lemma {:induction false} LargestBounds(x: seq<real>, start: nat, n: nat, i: nat)
    requires start + n <= |x| && i < n
    ensures Abs(x[start + i]) <= Largest(x, start, n)
  {
    if i < n - 1 {
      LargestBounds(x, start, n - 1, i);
    }
  }

  /** The largest magnitude is that of one of the weights. */
  lemma {:induction false} LargestAttained(x: seq<real>, start: nat, n: nat) returns (i: nat)
    requires start + n <= |x| && n > 0
    ensures i < n && Largest(x, start, n) == Abs(x[start + i])
  {
    i := n - 1;
    if n > 1 && Abs(x[start + n - 1]) <= Largest(x, start, n - 1) {
      i := LargestAttained(x, start, n - 1);
    } else if n == 1 {
      assert Largest(x, start, 0) == 0.0;
    }
  }

  /** No magnitude among the 32 weights from start on exceeds m. */
  predicate Within(x: seq<real>, start: nat, m: real) {
    start + 32 <= |x| && forall i :: start <= i < start + 32 ==> Abs(x[i]) <= m
  }

  /** The error is at most m / 14, but for the rounding of the scale, if no magnitude exceeds m. */
  ghost predicate Fine(x: seq<real>, start: nat, error: real) {
    forall m :: Within(x, start, m) ==> error <= m * (257.0 / 256.0) / 14.0
  }

  /** The rounding is accurate at a seventh of the largest of the 32 magnitudes. */
  predicate RoundsWell(r: Rounding, x: seq<real>, start: nat) {
    start + 32 <= |x| && forall i :: start <= i < start + 32 && Within(x, start, Abs(x[i])) ==>
      Accurate(r, Abs(x[i]) / 7.0)
  }

  lemma LargestWithin(x: seq<real>, start: nat, m: real)
    requires start + 32 <= |x|
    ensures Within(x, start, m) <==> Largest(x, start, 32) <= m
  {
    var i := LargestAttained(x, start, 32);
    assert Within(x, start, m) ==> Abs(x[start + i]) <= m;
    if Largest(x, start, 32) <= m {
      forall k | start <= k < start + 32 ensures Abs(x[k]) <= m {
        LargestBounds(x, start, 32, k - start);
      }
    }
  }

  lemma RoundsAtLargest(r: Rounding, x: seq<real>, start: nat)
    requires RoundsWell(r, x, start)
    ensures Accurate(r, Largest(x, start, 32) / 7.0)
  {
    var i := LargestAttained(x, start, 32);
    LargestWithin(x, start, Largest(x, start, 32));
    assert Within(x, start, Abs(x[start + i]));
  }

  lemma {:induction false} LargestPositive(x: seq<real>, start: nat, n: nat)
    requires start + n <= |x|
    ensures Largest(x, start, n) >= 0.0
  {
    if n > 0 {
      LargestPositive(x, start, n - 1);
    }
  }

  /** The pattern that is stored as the scale of a group. */
  function ScaleBits(r: Rounding, x: seq<real>, start: nat): nat
    requires start + 32 <= |x|
  {
    var absMax := Largest(x, start, 32);
    r.bits(if absMax == 0.0 then 0.0 else absMax / 7.0)
  }

  /** The byte at a place of a row that starts at `from` in the source. */
  function ByteAt(r: Rounding, x: seq<real>, from: nat, p: Place): int
    requires from + p.group * 32 + 32 <= |x| && p.i < 16
  {
    var start := from + p.group * 32;
    var bits := ScaleBits(r, x, start);
    if p.ScaleByte? then (if p.i == 0 then bits % 256 else bits / 256)
    else Quantize(x[start + 2 * p.i], r.value(bits)) * 16 + Quantize(x[start + 2 * p.i + 1], r.value(bits))
  }

  /** Reading a weight back from its byte. */
  function Nibble(b: int, column: nat): int {
    if column % 2 == 0 then b / 16 else b % 16
  }

  /** Every stored nibble stands for a value within half of the scale that is stored for its group. */
  lemma WeightClose(r: Rounding, x: seq<real>, from: nat, group: nat, column: nat)
    requires column < 32 && from + group * 32 + 32 <= |x|
    requires Accurate(r, Largest(x, from + group * 32, 32) / 7.0)
    ensures var scale := r.value(ScaleBits(r, x, from + group * 32));
      && 0 <= ByteAt(r, x, from, DataByte(group, column / 2)) < 256
      && Abs(Dequantize(Nibble(ByteAt(r, x, from, DataByte(group, column / 2)), column),
          scale) - x[from + group * 32 + column]) <= scale / 2.0
  {
    var start := from + group * 32;
    var i := column / 2;
    var absMax := Largest(x, start, 32);
    var scale := r.value(ScaleBits(r, x, start));
    LargestPositive(x, start, 32);
    LargestBounds(x, start, 32, 2 * i);
    LargestBounds(x, start, 32, 2 * i + 1);
    assert Abs(scale - absMax / 7.0) <= absMax / 7.0 / 256.0;
    HalfScale(x[start + 2 * i], absMax, scale);
    HalfScale(x[start + 2 * i + 1], absMax, scale);
    hide Quantize, Dequantize, Largest, ScaleBits;
    var high, low := Quantize(x[start + 2 * i], scale), Quantize(x[start + 2 * i + 1], scale);
    assert (high * 16 + low) / 16 == high && (high * 16 + low) % 16 == low;
    assert column == 2 * i || column == 2 * i + 1;
  }

  /** The bytes of a group are those of its two regions. */
  lemma GroupBytes(b: nat, group: nat, groups: nat)
    requires group < groups && b < 18 * groups
    ensures PlaceOf(b, groups).group == group <==>
              || DataOffset(group) <= b < DataOffset(group) + 16
              || ScaleOffset(group, groups) <= b < ScaleOffset(group, groups) + 2
  {
    NoGap(b, groups);
    if DataOffset(group) <= b < DataOffset(group) + 16 {
      NoOverlap(DataByte(group, b - DataOffset(group)), groups);
    }
    if ScaleOffset(group, groups) <= b < ScaleOffset(group, groups) + 2 {
      NoOverlap(ScaleByte(group, b - ScaleOffset(group, groups)), groups);
    }
  }

  method LargestMagnitude(source: array<real>, start: nat) returns (absMax: real)
    requires start + 32 <= source.Length
    ensures absMax == Largest(source[..], start, 32)
  {
    absMax := 0.0;
    var column := 0;
    while column < 32
      invariant 0 <= column <= 32 && absMax == Largest(source[..], start, column)
    {
      if Abs(source[start + column]) > absMax {
        absMax := Abs(source[start + column]);
      }
      column := column + 1;
    }
  }

  /** Packs 32 values into 16 bytes, the first of each pair in the high half. */
  method PackGroup(source: array<real>, start: nat, scale: real, data: array<int>, packed: nat)
    requires start + 32 <= source.Length && packed + 16 <= data.Length
    modifies data
    ensures forall b :: 0 <= b < data.Length && !(packed <= b < packed + 16) ==> data[b] == old(data[b])
    ensures forall b :: packed <= b < packed + 16 ==>
              data[b] == Quantize(source[start + 2 * (b - packed)], scale) * 16
                  + Quantize(source[start + 2 * (b - packed) + 1], scale)
  {
    var column := 0;
    while column < 32
      invariant 0 <= column <= 32 && column % 2 == 0
      invariant forall b :: 0 <= b < data.Length && !(packed <= b < packed + 16) ==> data[b] == old(data[b])
      invariant forall b :: packed <= b < packed + column / 2 ==>
                  data[b] == Quantize(source[start + 2 * (b - packed)], scale) * 16
                      + Quantize(source[start + 2 * (b - packed) + 1], scale)
    {
      var high := Quantize(source[start + column], scale);
      var low := Quantize(source[start + column + 1], scale);
      data[packed + column / 2] := high * 16 + low;
      column := column + 2;
    }
  }

  /** The bytes from row on hold the groups before g. */
  ghost predicate Holds(r: Rounding, x: seq<real>, from: nat, data: seq<int>, row: nat, g: nat, groups: nat) {
    && from + groups * 32 <= |x| && row + 18 * groups <= |data|
    && forall b :: 0 <= b < 18 * groups && PlaceOf(b, groups).group < g ==>
        HoldsByte(r, x, from, data[row + b], PlaceOf(b, groups))
  }

  predicate HoldsByte(r: Rounding, x: seq<real>, from: nat, byte: int, p: Place) {
    from + p.group * 32 + 32 <= |x| && p.i < 16 && byte == ByteAt(r, x, from, p)
  }

  /** The scale of a group as it is read back from the row; bytes out of range have no meaning. */
  function ReadScale(r: Rounding, data: seq<int>, row: nat, group: nat, groups: nat): real
    requires group < groups && row + 18 * groups <= |data|
  {
    Regions(group, groups);
    var at := row + ScaleOffset(group, groups);
    if data[at] >= 0 && data[at + 1] >= 0 then r.value(data[at] + 256 * data[at + 1]) else 0.0
  }

  /** A weight as it is read back from the row. */
  function ReadWeight(r: Rounding, data: seq<int>, row: nat, group: nat, groups: nat, column: nat): real
    requires group < groups && column < 32 && row + 18 * groups <= |data|
  {
    Regions(group, groups);
    Dequantize(Nibble(data[row + DataOffset(group) + column / 2], column), ReadScale(r, data, row, group, groups))
  }

  /** Where the scales round well, every weight of the row comes back within half the scale that comes back for its
      group; and that is at most m / 14, but for the rounding, if no weight of the group exceeds m. */
  ghost predicate RowClose(r: Rounding, x: seq<real>, from: nat, data: seq<int>, row: nat, groups: nat) {
    && from + groups * 32 <= |x| && row + 18 * groups <= |data|
    && forall group: nat, column: nat {:trigger ReadWeight(r, data, row, group, groups, column)} ::
         group < groups && column < 32 && RoundsWell(r, x, from + group * 32) ==>
           var error := Abs(ReadWeight(r, data, row, group, groups, column) - x[from + group * 32 + column]);
           && error <= ReadScale(r, data, row, group, groups) / 2.0
           && Fine(x, from + group * 32, error)
  }

  lemma HeldAt(r: Rounding, x: seq<real>, from: nat, data: seq<int>, row: nat, groups: nat, p: Place)
    requires Holds(r, x, from, data, row, groups, groups) && Valid(p, groups)
    ensures 0 <= OffsetOf(p, groups) < 18 * groups && HoldsByte(r, x, from, data[row + OffsetOf(p, groups)], p)
  {
    NoOverlap(p, groups);
  }

  lemma HeldClose(r: Rounding, x: seq<real>, from: nat, data: seq<int>, row: nat, groups: nat)
    requires Holds(r, x, from, data, row, groups, groups)
    ensures RowClose(r, x, from, data, row, groups)
  {
    HoldsRoom(r, x, from, data, row, groups, groups);
    forall group: nat, column: nat | group < groups && column < 32 && RoundsWell(r, x, from + group * 32)
      ensures var error := Abs(ReadWeight(r, data, row, group, groups, column) - x[from + group * 32 + column]);
        error <= ReadScale(r, data, row, group, groups) / 2.0 && Fine(x, from + group * 32, error)
    {
      hide Holds, ReadWeight, ReadScale, RoundsWell, Fine, Abs;
      HeldWeight(r, x, from, data, row, groups, group, column);
    }
  }

  lemma HeldWeight(r: Rounding, x: seq<real>, from: nat, data: seq<int>, row: nat, groups: nat, group: nat,
      column: nat)
    requires Holds(r, x, from, data, row, groups, groups) && group < groups && column < 32
    requires RoundsWell(r, x, from + group * 32)
    ensures from + groups * 32 <= |x| && row + 18 * groups <= |data|
    ensures var error := Abs(ReadWeight(r, data, row, group, groups, column) - x[from + group * 32 + column]);
      error <= ReadScale(r, data, row, group, groups) / 2.0 && Fine(x, from + group * 32, error)
  {
    hide *;
    HoldsRoom(r, x, from, data, row, groups, groups);
    RoundsAtLargest(r, x, from + group * 32);
    HeldScale(r, x, from, data, row, groups, group);
    HeldNibble(r, x, from, data, row, groups, group, column);
    WeightClose(r, x, from, group, column);
    ScaleSmall(r, x, from + group * 32);
    FineBelow(x, from + group * 32, r.value(ScaleBits(r, x, from + group * 32)) / 2.0,
              Abs(ReadWeight(r, data, row, group, groups, column) - x[from + group * 32 + column]));
  }

  lemma FineBelow(x: seq<real>, start: nat, bound: real, error: real)
    requires Fine(x, start, bound) && error <= bound
    ensures Fine(x, start, error)
  {
  }

  lemma HeldNibble(r: Rounding, x: seq<real>, from: nat, data: seq<int>, row: nat, groups: nat, group: nat,
      column: nat)
    requires Holds(r, x, from, data, row, groups, groups) && group < groups && column < 32
    requires from + groups * 32 <= |x| && row + 18 * groups <= |data|
    ensures ReadWeight(r, data, row, group, groups, column)
         == Dequantize(Nibble(ByteAt(r, x, from, DataByte(group, column / 2)), column),
                       ReadScale(r, data, row, group, groups))
  {
    hide Holds, Dequantize, Nibble, ScaleOffset, DataOffset, ReadScale, ByteAt;
    Regions(group, groups);
    HeldAt(r, x, from, data, row, groups, DataByte(group, column / 2));
  }

  lemma HeldScale(r: Rounding, x: seq<real>, from: nat, data: seq<int>, row: nat, groups: nat, group: nat)
    requires Holds(r, x, from, data, row, groups, groups) && group < groups
    requires from + groups * 32 <= |x| && row + 18 * groups <= |data|
    ensures ReadScale(r, data, row, group, groups) == r.value(ScaleBits(r, x, from + group * 32))
  {
    hide Holds, ScaleBits, DataOffset, ScaleOffset;
    Regions(group, groups);
    HeldAt(r, x, from, data, row, groups, ScaleByte(group, 0));
    HeldAt(r, x, from, data, row, groups, ScaleByte(group, 1));
  }

  /** The scale is at most a seventh of any bound on the magnitudes, but for the rounding. */
  lemma ScaleSmall(r: Rounding, x: seq<real>, start: nat)
    requires start + 32 <= |x| && Accurate(r, Largest(x, start, 32) / 7.0)
    ensures Fine(x, start, r.value(ScaleBits(r, x, start)) / 2.0)
  {
    var largest := Largest(x, start, 32);
    LargestPositive(x, start, 32);
    assert r.value(ScaleBits(r, x, start)) <= largest / 7.0 * (257.0 / 256.0);
    forall m | Within(x, start, m)
      ensures r.value(ScaleBits(r, x, start)) / 2.0 <= m * (257.0 / 256.0) / 14.0
    {
      LargestWithin(x, start, m);
    }
  }

  /** The two regions of a group lie in the row, apart from each other. */
  lemma Regions(group: nat, groups: nat)
    requires group < groups
    ensures DataOffset(group) + 16 <= 18 * groups && ScaleOffset(group, groups) + 2 <= 18 * groups
    ensures DataOffset(group) + 16 <= ScaleOffset(group, groups)
  {
    NoOverlap(DataByte(group, 15), groups);
    NoOverlap(ScaleByte(group, 1), groups);
  }

  lemma HoldsRoom(r: Rounding, x: seq<real>, from: nat, data: seq<int>, row: nat, g: nat, groups: nat)
    requires Holds(r, x, from, data, row, g, groups)
    ensures from + groups * 32 <= |x| && row + 18 * groups <= |data|
  {
  }

  lemma ScaleBitsIs(r: Rounding, x: seq<real>, start: nat)
    requires start + 32 <= |x|
    ensures ScaleBits(r, x, start) == r.bits(if Largest(x, start, 32) == 0.0 then 0.0 else Largest(x, start, 32) / 7.0)
  {
  }

  /** Quantises one group into its two regions of the row. */
  method QuantizeGroup(r: Rounding, source: array<real>, data: array<int>, from: nat, row: nat, group: nat, groups: nat)
    requires group < groups && Holds(r, source[..], from, data[..], row, group, groups)
    modifies data
    ensures Holds(r, source[..], from, data[..], row, group + 1, groups)
    ensures forall b :: 0 <= b < data.Length && !(row <= b < row + 18 * groups) ==> data[b] == old(data[b])
  {
    hide Holds, Quantize, Largest, ScaleBits, DataOffset, ScaleOffset;
    Regions(group, groups);
    HoldsRoom(r, source[..], from, data[..], row, group, groups);
    ghost var before := data[..];
    var start := from + group * 32;
    var absMax := LargestMagnitude(source, start);
    var scaleBits := r.bits(if absMax == 0.0 then 0.0 else absMax / 7.0);
    ScaleBitsIs(r, source[..], start);
    var at := row + ScaleOffset(group, groups);
    data[at] := scaleBits % 256;
    data[at + 1] := scaleBits / 256;
    PackGroup(source, start, r.value(scaleBits), data, row + DataOffset(group));
    GroupHeld(r, source[..], from, before, data[..], row, group, groups);
  }

  lemma GroupHeld(r: Rounding, x: seq<real>, from: nat, before: seq<int>, data: seq<int>, row: nat, group: nat,
      groups: nat)
    requires group < groups && Holds(r, x, from, before, row, group, groups) && |data| == |before|
    requires DataOffset(group) + 16 <= 18 * groups && ScaleOffset(group, groups) + 2 <= 18 * groups
    requires forall k ::
               row <= k < row + 18 * groups && !(row + DataOffset(group) <= k < row + DataOffset(group) + 16)
               && !(row + ScaleOffset(group, groups) <= k < row + ScaleOffset(group, groups) + 2)
               ==> data[k] == before[k]
    requires var start, at := from + group * 32, row + ScaleOffset(group, groups);
      var bits := ScaleBits(r, x, start);
      && data[at] == bits % 256 && data[at + 1] == bits / 256
      && forall b :: row + DataOffset(group) <= b < row + DataOffset(group) + 16 ==>
           var i := b - row - DataOffset(group);
           data[b] == Quantize(x[start + 2 * i], r.value(bits)) * 16 + Quantize(x[start + 2 * i + 1], r.value(bits))
    ensures Holds(r, x, from, data, row, group + 1, groups)
  {
    forall b | 0 <= b < 18 * groups
        && PlaceOf(b, groups).group < group + 1 ensures HoldsByte(r, x, from, data[row + b], PlaceOf(b, groups)) {
      NoGap(b, groups);
      GroupBytes(b, group, groups);
      if PlaceOf(b, groups).group < group {
        assert HoldsByte(r, x, from, before[row + b], PlaceOf(b, groups));
      }
    }
  }

  /** Quantises all rows: every byte of every row is the one that its place asks for, and so every weight can be read
      back closely. */
  method QuantizeRows(r: Rounding, source: array<real>, data: array<int>, rows: nat, columns: nat)
    requires columns > 0 && columns % 32 == 0 && source.Length == rows * columns
        && data.Length == rows * (columns / 32 * 18)
    modifies data
    ensures forall row :: 0 <= row < rows ==>
              0 <= row * columns && 0 <= row * (columns / 32 * 18)
              && Holds(r, source[..], row * columns, data[..], row * (columns / 32 * 18), columns / 32, columns / 32)
              && RowClose(r, source[..], row * columns, data[..], row * (columns / 32 * 18), columns / 32)
  {
    var groups := columns / 32;
    var rowBytes := groups * 18;
    var row := 0;
    while row < rows
      invariant 0 <= row <= rows
      invariant forall k :: 0 <= k < row ==>
                  0 <= k * columns && 0 <= k * rowBytes
                      && Holds(r, source[..], k * columns, data[..], k * rowBytes, groups, groups)
    {
      SlotFits(row, rows, columns);
      SlotFits(row, rows, rowBytes);
      ghost var before := data[..];
      QuantizeRow(r, source, data, row * columns, row * rowBytes, groups);
      forall k | 0 <= k < row
        ensures 0 <= k * columns && 0 <= k * rowBytes
            && Holds(r, source[..], k * columns, data[..], k * rowBytes, groups, groups)
      {
        SlotFits(k, row, rowBytes);
        SameRow(r, source[..], k * columns, before, data[..], k * rowBytes, groups);
      }
      row := row + 1;
    }
    forall k | 0 <= k < rows
      ensures 0 <= k * columns && 0 <= k * rowBytes
          && RowClose(r, source[..], k * columns, data[..], k * rowBytes, groups)
    {
      HeldClose(r, source[..], k * columns, data[..], k * rowBytes, groups);
    }
  }

  method QuantizeRow(r: Rounding, source: array<real>, data: array<int>, from: nat, row: nat, groups: nat)
    requires from + groups * 32 <= source.Length && row + 18 * groups <= data.Length
    modifies data
    ensures Holds(r, source[..], from, data[..], row, groups, groups)
    ensures forall b :: 0 <= b < data.Length && !(row <= b < row + 18 * groups) ==> data[b] == old(data[b])
  {
    var group := 0;
    while group < groups
      invariant 0 <= group <= groups && Holds(r, source[..], from, data[..], row, group, groups)
      invariant forall b :: 0 <= b < data.Length && !(row <= b < row + 18 * groups) ==> data[b] == old(data[b])
    {
      QuantizeGroup(r, source, data, from, row, group, groups);
      group := group + 1;
    }
  }

  lemma SameRow(r: Rounding, x: seq<real>, from: nat, before: seq<int>, data: seq<int>, row: nat, groups: nat)
    requires Holds(r, x, from, before, row, groups, groups) && |data| == |before|
    requires forall b :: row <= b < row + 18 * groups ==> data[b] == before[b]
    ensures Holds(r, x, from, data, row, groups, groups)
  {
    forall b | 0 <= b < 18 * groups
        && PlaceOf(b, groups).group < groups ensures HoldsByte(r, x, from, data[row + b], PlaceOf(b, groups)) {
      assert HoldsByte(r, x, from, before[row + b], PlaceOf(b, groups));
    }
  }
}
