/** Packing NVFP4 rows: which byte of the source goes where, in each layout, for the whole matrix and for a share of its
    rows. The four bytes of a single-precision number are those of its bit pattern, the low byte first. */
module Nvfp4Packing {
  import opened Arithmetic
  import opened Nvfp4Layout

  /** A matrix of 4-bit weights, two to a byte, with one scale for blockK rows by 16 columns, and global scales that are
      spread evenly over the rows of scales. */
  datatype Source = Source(rows: nat, columns: nat, weights: seq<nat>, scaleBytes: seq<nat>, globalScales: seq<nat>,
      blockK: nat)

  function RawBytes(columns: nat): nat { (columns + 1) / 2 }

  function Blocks(columns: nat): nat
    requires columns > 0
    ensures Blocks(columns) > 0
  {
    (columns - 1) / 16 + 1
  }

  function ScaleRows(s: Source): nat
    requires s.rows > 0 && s.blockK > 0
    ensures ScaleRows(s) > 0
  {
    (s.rows - 1) / s.blockK + 1
  }

  predicate ValidSource(s: Source) {
    && s.rows > 0 && s.columns > 0 && s.blockK > 0 && s.globalScales != []
    && |s.weights| == s.rows * RawBytes(s.columns) && |s.scaleBytes| == ScaleRows(s) * Blocks(s.columns)
  }

  // --- rows ---

  /** With crossed gates, even rows come from the first half of the matrix and odd rows from the second. */
  function SourceRow(rows: nat, cross: bool, row: nat): nat {
    if cross then (if row % 2 == 1 then rows / 2 + row / 2 else row / 2) else row
  }

  function DestinationRow(rows: nat, cross: bool, row: nat): nat {
    if cross then (if row < rows / 2 then 2 * row else 2 * (row - rows / 2) + 1) else row
  }

  /** For an even number of rows, crossing the gates only changes their order. */
  lemma RowsBijection(rows: nat, cross: bool, row: nat)
    requires row < rows && (cross ==> rows % 2 == 0)
    ensures SourceRow(rows, cross, row) < rows && DestinationRow(rows, cross, SourceRow(rows, cross, row)) == row
    ensures DestinationRow(rows, cross, row) < rows && SourceRow(rows, cross, DestinationRow(rows, cross, row)) == row
  {
  }

  // --- bytes ---

  /** Byte i of a 32-bit pattern. */
  function Byte32(v: nat, i: nat): nat {
    if i == 0 then v % 0x100 else if i == 1 then v / 0x100 % 0x100 else if i == 2 then v / 0x1_0000 % 0x100
        else v / 0x100_0000 % 0x100
  }

  function GlobalScale(s: Source, row: nat): nat
    requires ValidSource(s)
  {
    var count := |s.globalScales|;
    var index := Share(row / s.blockK, count, ScaleRows(s));
    s.globalScales[if index < count - 1 then index else count - 1]
  }

  function Share(scaleRow: nat, count: nat, scaleRows: nat): nat
    requires scaleRows > 0
  {
    Product(scaleRow, count);
    Quotient(scaleRow * count, scaleRows)
  }

  lemma ScaleFits(s: Source, row: nat, block: nat)
    requires ValidSource(s) && row < s.rows && block < Blocks(s.columns)
    ensures row / s.blockK < ScaleRows(s)
    ensures 0 <= row / s.blockK * Blocks(s.columns) + block < |s.scaleBytes|
  {
    DivMonotone(row, s.rows - 1, s.blockK);
    hide Blocks;
    SlotFits(row / s.blockK, ScaleRows(s), Blocks(s.columns));
  }

  function ScaleByte(s: Source, row: nat, block: nat): nat
    requires ValidSource(s) && row < s.rows && block < Blocks(s.columns)
  {
    ScaleFits(s, row, block);
    s.scaleBytes[row / s.blockK * Blocks(s.columns) + block]
  }

  /** How many bytes of weights a block has; the last one may have fewer. */
  function BlockBytes(columns: nat, block: nat): nat
    requires columns > 0 && block < Blocks(columns)
    ensures BlockBytes(columns, block) <= 8 && block * 8 + BlockBytes(columns, block) <= RawBytes(columns)
  {
    ((if columns - block * 16 < 16 then columns - block * 16 else 16) + 1) / 2
  }

  function WeightByte(s: Source, row: nat, block: nat, i: nat): nat
    requires ValidSource(s) && row < s.rows && block < Blocks(s.columns)
  {
    SlotFits(row, s.rows, RawBytes(s.columns));
    if i < BlockBytes(s.columns, block) then s.weights[row * RawBytes(s.columns) + block * 8 + i] else 0
  }

  /** A part of a packed row; scaled gives the pattern of a block scale times a global scale. */
  function PartByte(layout: Layout, scaled: (nat, nat) -> nat, s: Source, row: nat, part: Part): nat
    requires ValidSource(s) && row < s.rows && ValidPart(layout, Blocks(s.columns), part)
  {
    match part
    case Weight(block, i) => WeightByte(s, row, block, i)
    case Scale(block, i) =>
      if layout == Compact then ScaleByte(s, row, block)
          else Byte32(scaled(ScaleByte(s, row, block), GlobalScale(s, row)), i)
    case Global(i) => Byte32(GlobalScale(s, row), i)
    case Pad(_) => 0
  }

  /** The rows that are asked for lie in the matrix, and fill whole tiles in the planar layout. */
  predicate Accepts(layout: Layout, s: Source, cross: bool, start: nat, n: nat) {
    && ValidSource(s) && start + n <= s.rows && (cross ==> s.rows % 2 == 0) && RowsFit(layout, n)
  }

  /** Byte b of n packed rows from start on. */
  function PackedByte(layout: Layout, scaled: (nat, nat) -> nat, s: Source, cross: bool, start: nat, n: nat,
      b: nat): nat
    requires Accepts(layout, s, cross, start, n) && b < n * RowBytes(layout, Blocks(s.columns))
  {
    NoGap(layout, Blocks(s.columns), n, b);
    var p := PlaceOf(layout, Blocks(s.columns), b);
    RowsBijection(s.rows, cross, start + p.row);
    PartByte(layout, scaled, s, SourceRow(s.rows, cross, start + p.row), p.part)
  }

  function Packed(layout: Layout, scaled: (nat, nat) -> nat, s: Source, cross: bool, start: nat, n: nat): seq<nat>
    requires Accepts(layout, s, cross, start, n)
  {
    Product(n, RowBytes(layout, Blocks(s.columns)));
    seq(n * RowBytes(layout, Blocks(s.columns)), b requires 0 <= b < n * RowBytes(layout, Blocks(s.columns)) =>
      PackedByte(layout, scaled, s, cross, start, n, b))
  }

  /** What stands at a place of the packed rows. */
  lemma PackedAt(layout: Layout, scaled: (nat, nat) -> nat, s: Source, cross: bool, start: nat, n: nat, p: Place)
    requires Accepts(layout, s, cross, start, n) && p.row < n && ValidPart(layout, Blocks(s.columns), p.part)
    ensures SourceRow(s.rows, cross, start + p.row) < s.rows
    ensures 0 <= OffsetOf(layout, Blocks(s.columns), p) < |Packed(layout, scaled, s, cross, start, n)|
    ensures Packed(layout, scaled, s, cross, start, n)[OffsetOf(layout, Blocks(s.columns), p)]
         == PartByte(layout, scaled, s, SourceRow(s.rows, cross, start + p.row), p.part)
  {
    RowsBijection(s.rows, cross, start + p.row);
    NoOverlap(layout, Blocks(s.columns), n, p);
  }

  /** Packing some of the rows gives a stretch of the packed matrix. */
  lemma ShardIsSlice(layout: Layout, scaled: (nat, nat) -> nat, s: Source, cross: bool, start: nat, n: nat)
    requires Accepts(layout, s, cross, start, n) && Accepts(layout, s, cross, 0, s.rows) && RowsFit(layout, start)
    ensures var bytes := RowBytes(layout, Blocks(s.columns));
      && 0 <= start * bytes <= (start + n) * bytes <= |Packed(layout, scaled, s, cross, 0, s.rows)|
      && Packed(layout, scaled, s, cross, start, n)
          == Packed(layout, scaled, s, cross, 0, s.rows)[start * bytes..(start + n) * bytes]
  {
    var blocks := Blocks(s.columns);
    var bytes := RowBytes(layout, blocks);
    Product(start, bytes);
    MulMonotone(start, start + n, bytes);
    MulMonotone(start + n, s.rows, bytes);
    Distribute(start, n, bytes);
    var share, whole := Packed(layout, scaled, s, cross, start, n), Packed(layout, scaled, s, cross, 0, s.rows);
    forall b | 0 <= b < n * bytes ensures share[b] == whole[start * bytes + b] {
      SameByte(layout, scaled, s, cross, start, n, b);
    }
  }

  lemma SameByte(layout: Layout, scaled: (nat, nat) -> nat, s: Source, cross: bool, start: nat, n: nat, b: nat)
    requires Accepts(layout, s, cross, start, n) && Accepts(layout, s, cross, 0, s.rows) && RowsFit(layout, start)
    requires b < n * RowBytes(layout, Blocks(s.columns))
    ensures 0 <= start * RowBytes(layout, Blocks(s.columns)) + b < |Packed(layout, scaled, s, cross, 0, s.rows)|
    ensures Packed(layout, scaled, s, cross, start, n)[b]
         == Packed(layout, scaled, s, cross, 0, s.rows)[start * RowBytes(layout, Blocks(s.columns)) + b]
  {
    hide Packed, PartByte, OffsetOf, PlaceOf, RowBytes, SourceRow, ValidSource;
    var blocks := Blocks(s.columns);
    NoGap(layout, blocks, n, b);
    var p := PlaceOf(layout, blocks, b);
    PackedAt(layout, scaled, s, cross, start, n, p);
    Shifted(layout, blocks, start, p);
    PackedAt(layout, scaled, s, cross, 0, s.rows, Place(start + p.row, p.part));
  }

  /** Every weight of the source is found in the packed matrix. */
  lemma WeightKept(layout: Layout, scaled: (nat, nat) -> nat, s: Source, cross: bool, row: nat, j: nat)
    requires Accepts(layout, s, cross, 0, s.rows) && row < s.rows && j < RawBytes(s.columns)
    ensures var p := Place(DestinationRow(s.rows, cross, row), Weight(j / 8, j % 8));
      && 0 <= row * RawBytes(s.columns) + j < |s.weights|
      && 0 <= OffsetOf(layout, Blocks(s.columns), p) < |Packed(layout, scaled, s, cross, 0, s.rows)|
      && Packed(layout, scaled, s, cross, 0, s.rows)[OffsetOf(layout, Blocks(s.columns), p)]
          == s.weights[row * RawBytes(s.columns) + j]
  {
    RowsBijection(s.rows, cross, row);
    SlotFits(row, s.rows, RawBytes(s.columns));
    assert j / 8 < Blocks(s.columns) && j % 8 < BlockBytes(s.columns, j / 8);
    PackedAt(layout, scaled, s, cross, 0, s.rows, Place(DestinationRow(s.rows, cross, row), Weight(j / 8, j % 8)));
    hide Packed, OffsetOf;
    assert j == j / 8 * 8 + j % 8;
  }

  /** No weight is lost: matrices of the same shape with the same packed bytes have the same weights. */
  lemma Lossless(layout: Layout, scaled: (nat, nat) -> nat, s: Source, t: Source, cross: bool)
    requires Accepts(layout, s, cross, 0, s.rows) && Accepts(layout, t, cross, 0, t.rows)
    requires s.rows == t.rows && s.columns == t.columns
    requires Packed(layout, scaled, s, cross, 0, s.rows) == Packed(layout, scaled, t, cross, 0, t.rows)
    ensures s.weights == t.weights
  {
    hide Packed, Accepts, OffsetOf, PackedByte, RowsFit;
    SameSizes(layout, s, t, cross);
    forall k | 0 <= k < |s.weights| ensures s.weights[k] == t.weights[k] {
      SameWeight(layout, scaled, s, t, cross, k);
    }
  }

  lemma SameSizes(layout: Layout, s: Source, t: Source, cross: bool)
    requires Accepts(layout, s, cross, 0, s.rows) && Accepts(layout, t, cross, 0, t.rows) && s.rows == t.rows
        && s.columns == t.columns
    ensures |s.weights| == |t.weights|
  {
  }

  lemma SameWeight(layout: Layout, scaled: (nat, nat) -> nat, s: Source, t: Source, cross: bool, k: nat)
    requires Accepts(layout, s, cross, 0, s.rows) && Accepts(layout, t, cross, 0, t.rows)
    requires s.rows == t.rows && s.columns == t.columns && k < |s.weights| && k < |t.weights|
    requires Packed(layout, scaled, s, cross, 0, s.rows) == Packed(layout, scaled, t, cross, 0, t.rows)
    ensures s.weights[k] == t.weights[k]
  {
    hide Packed, OffsetOf, PackedByte, RowsFit, RawBytes, Blocks;
    var raw := RawBytes(s.columns);
    Rest(k, raw, s.rows);
    WeightKept(layout, scaled, s, cross, k / raw, k % raw);
    WeightKept(layout, scaled, t, cross, k / raw, k % raw);
  }

  // --- the loops ---

  /** Place p is written before block number `block` of row number `row`; -1 stands for the start of the row. */
  predicate Written(p: Place, row: nat, block: int) {
    || p.row < row
    || (p.row == row && match p.part
                        case Weight(b, _) => b < block
                        case Scale(b, _) => b < block
                        case Global(_) => block >= 0
                        case Pad(_) => block >= 0)
  }

  /** The bytes that were written are those of the packed rows. */
  ghost predicate Progress(layout: Layout, scaled: (nat, nat) -> nat, s: Source, cross: bool, start: nat, n: nat,
      d: seq<nat>, row: nat, block: int)
    requires Accepts(layout, s, cross, start, n)
  {
    && |d| == n * RowBytes(layout, Blocks(s.columns))
    && forall b :: 0 <= b < |d| && Written(PlaceOf(layout, Blocks(s.columns), b), row, block) ==>
         d[b] == PackedByte(layout, scaled, s, cross, start, n, b)
  }

  method Fill(d: array<nat>, at: nat, count: nat, value: nat)
    requires at + count <= d.Length
    modifies d
    ensures forall b :: 0 <= b < d.Length ==> d[b] == if at <= b < at + count then value else old(d[b])
  {
    var i := 0;
    while i < count
      invariant 0 <= i <= count
      invariant forall b :: 0 <= b < d.Length ==> d[b] == if at <= b < at + i then value else old(d[b])
    {
      d[at + i] := value;
      i := i + 1;
    }
  }

  method Copy(d: array<nat>, at: nat, source: seq<nat>, from: nat, count: nat)
    requires at + count <= d.Length && from + count <= |source|
    modifies d
    ensures forall b :: 0 <= b < d.Length ==>
        d[b] == if at <= b < at + count then source[from + (b - at)] else old(d[b])
  {
    var i := 0;
    while i < count
      invariant 0 <= i <= count
      invariant forall b :: 0 <= b < d.Length ==>
          d[b] == if at <= b < at + i then source[from + (b - at)] else old(d[b])
    {
      d[at + i] := source[from + i];
      i := i + 1;
    }
  }

  function Bytes32(v: nat): seq<nat> {
    [Byte32(v, 0), Byte32(v, 1), Byte32(v, 2), Byte32(v, 3)]
  }

  /** The eight bytes of a block of weights. */
  method CopyWeights(d: array<nat>, at: nat, s: Source, row: nat, block: nat)
    requires at + 8 <= d.Length && ValidSource(s) && row < s.rows && block < Blocks(s.columns)
    modifies d
    ensures forall b :: 0 <= b < d.Length ==>
        d[b] == if at <= b < at + 8 then WeightByte(s, row, block, b - at) else old(d[b])
  {
    SlotFits(row, s.rows, RawBytes(s.columns));
    Fill(d, at, 8, 0);
    Copy(d, at, s.weights, row * RawBytes(s.columns) + block * 8, BlockBytes(s.columns, block));
  }

  /** The bytes of one part lie one behind the other. */
  lemma PartsTogether(layout: Layout, blocks: nat, row: nat, block: nat, i: nat)
    ensures OffsetOf(layout, blocks, Place(row, Weight(block, i)))
        == OffsetOf(layout, blocks, Place(row, Weight(block, 0))) + i
    ensures OffsetOf(layout, blocks, Place(row, Scale(block, i)))
        == OffsetOf(layout, blocks, Place(row, Scale(block, 0))) + i
    ensures layout != Planar ==>
        OffsetOf(layout, blocks, Place(row, Global(i))) == OffsetOf(layout, blocks, Place(row, Global(0))) + i
    ensures layout != Planar ==>
        OffsetOf(layout, blocks, Place(row, Pad(i))) == OffsetOf(layout, blocks, Place(row, Pad(0))) + i
  {
  }

  function ScaleSize(layout: Layout): nat {
    if layout == Compact then 1 else 4
  }

  /** A byte belongs to a block exactly when it lies in one of its two stretches. */
  lemma BlockStretch(layout: Layout, blocks: nat, n: nat, row: nat, block: nat, b: nat)
    requires blocks > 0 && RowsFit(layout, n) && row < n && block < blocks && b < n * RowBytes(layout, blocks)
    ensures var w, c := OffsetOf(layout, blocks, Place(row, Weight(block, 0))),
        OffsetOf(layout, blocks, Place(row, Scale(block, 0)));
      && 0 <= w && w + 8 <= n * RowBytes(layout, blocks) && 0 <= c
          && c + ScaleSize(layout) <= n * RowBytes(layout, blocks)
      && (w <= b < w + 8 ==> PlaceOf(layout, blocks, b) == Place(row, Weight(block, b - w)))
      && (c <= b < c + ScaleSize(layout) ==> PlaceOf(layout, blocks, b) == Place(row, Scale(block, b - c)))
      && (Written(PlaceOf(layout, blocks, b), row, block + 1) && !Written(PlaceOf(layout, blocks, b), row, block) ==>
            w <= b < w + 8 || c <= b < c + ScaleSize(layout))
  {
    hide OffsetOf, PlaceOf, RowBytes;
    var w, c := OffsetOf(layout, blocks, Place(row, Weight(block, 0))),
        OffsetOf(layout, blocks, Place(row, Scale(block, 0)));
    PartsTogether(layout, blocks, row, block, 7);
    PartsTogether(layout, blocks, row, block, ScaleSize(layout) - 1);
    NoOverlap(layout, blocks, n, Place(row, Weight(block, 0)));
    NoOverlap(layout, blocks, n, Place(row, Scale(block, 0)));
    NoOverlap(layout, blocks, n, Place(row, Weight(block, 7)));
    NoOverlap(layout, blocks, n, Place(row, Scale(block, ScaleSize(layout) - 1)));
    if w <= b < w + 8 {
      PartsTogether(layout, blocks, row, block, b - w);
      NoOverlap(layout, blocks, n, Place(row, Weight(block, b - w)));
    }
    if c <= b < c + ScaleSize(layout) {
      PartsTogether(layout, blocks, row, block, b - c);
      NoOverlap(layout, blocks, n, Place(row, Scale(block, b - c)));
    }
    NoGap(layout, blocks, n, b);
    var p := PlaceOf(layout, blocks, b);
    if Written(p, row, block + 1) && !Written(p, row, block) {
      PartsTogether(layout, blocks, row, block, p.part.i);
    }
  }

  /** Writes the weights and the scale of one block. */
  method PackBlock(layout: Layout, scaled: (nat, nat) -> nat, s: Source, cross: bool, start: nat, n: nat, d: array<nat>,
      row: nat, block: nat)
    requires Accepts(layout, s, cross, start, n) && row < n && block < Blocks(s.columns)
    requires Progress(layout, scaled, s, cross, start, n, d[..], row, block)
    modifies d
    ensures Progress(layout, scaled, s, cross, start, n, d[..], row, block + 1)
  {
    hide Progress, OffsetOf, PlaceOf, RowBytes, WeightByte, PartByte, GlobalScale, ScaleByte, ValidSource;
    ghost var before := d[..];
    ProgressSize(layout, scaled, s, cross, start, n, d[..], row, block);
    var blocks := Blocks(s.columns);
    RowsBijection(s.rows, cross, start + row);
    var sourceRow := SourceRow(s.rows, cross, start + row);
    BlockStretch(layout, blocks, n, row, block, 0);
    var blockDestination := OffsetOf(layout, blocks, Place(row, Weight(block, 0)));
    var scaleDestination := OffsetOf(layout, blocks, Place(row, Scale(block, 0)));
    CopyWeights(d, blockDestination, s, sourceRow, block);
    var scale := if layout == Compact then [ScaleByte(s, sourceRow, block)]
                 else Bytes32(scaled(ScaleByte(s, sourceRow, block), GlobalScale(s, sourceRow)));
    Copy(d, scaleDestination, scale, 0, |scale|);
    ScaleBytes(layout, scaled, s, sourceRow, block, scale);
    BlockWritten(layout, scaled, s, cross, start, n, before, d[..], row, block, scale);
  }

  lemma ScaleBytes(layout: Layout, scaled: (nat, nat) -> nat, s: Source, row: nat, block: nat, scale: seq<nat>)
    requires ValidSource(s) && row < s.rows && block < Blocks(s.columns)
    requires scale == if layout == Compact then [ScaleByte(s, row, block)]
        else Bytes32(scaled(ScaleByte(s, row, block), GlobalScale(s, row)))
    ensures |scale| == ScaleSize(layout)
    ensures forall i :: 0 <= i < |scale| ==> scale[i] == PartByte(layout, scaled, s, row, Scale(block, i))
  {
  }

  lemma BlockWritten(layout: Layout, scaled: (nat, nat) -> nat, s: Source, cross: bool, start: nat, n: nat,
      before: seq<nat>, d: seq<nat>, row: nat, block: nat, scale: seq<nat>)
    requires Accepts(layout, s, cross, start, n) && row < n && block < Blocks(s.columns)
        && SourceRow(s.rows, cross, start + row) < s.rows
    requires Progress(layout, scaled, s, cross, start, n, before, row, block) && |d| == |before|
    requires |scale| == ScaleSize(layout)
    requires forall i :: 0 <= i < |scale| ==>
        scale[i] == PartByte(layout, scaled, s, SourceRow(s.rows, cross, start + row), Scale(block, i))
    requires var blocks := Blocks(s.columns);
      var w, c := OffsetOf(layout, blocks, Place(row, Weight(block, 0))),
          OffsetOf(layout, blocks, Place(row, Scale(block, 0)));
      forall b :: 0 <= b < |d| ==>
        d[b] == if c <= b < c + |scale| then scale[b - c]
                else if w <= b < w + 8 then WeightByte(s, SourceRow(s.rows, cross, start + row), block, b - w)
                else before[b]
    ensures Progress(layout, scaled, s, cross, start, n, d, row, block + 1)
  {
    hide OffsetOf, PlaceOf, RowBytes, WeightByte, PartByte, ValidSource, SourceRow;
    var blocks := Blocks(s.columns);
    forall b | 0 <= b < |d| && Written(PlaceOf(layout, blocks, b), row, block + 1)
      ensures d[b] == PackedByte(layout, scaled, s, cross, start, n, b)
    {
      BlockStretch(layout, blocks, n, row, block, b);
      WeightPart(layout, scaled, s, SourceRow(s.rows, cross, start + row), block);
    }
  }

  lemma WeightPart(layout: Layout, scaled: (nat, nat) -> nat, s: Source, row: nat, block: nat)
    requires ValidSource(s) && row < s.rows && block < Blocks(s.columns)
    ensures forall i :: 0 <= i < 8 ==>
        PartByte(layout, scaled, s, row, Weight(block, i)) == WeightByte(s, row, block, i)
  {
  }

  lemma ProgressSize(layout: Layout, scaled: (nat, nat) -> nat, s: Source, cross: bool, start: nat, n: nat, d: seq<nat>,
      row: nat, block: int)
    requires Accepts(layout, s, cross, start, n) && Progress(layout, scaled, s, cross, start, n, d, row, block)
    ensures |d| == n * RowBytes(layout, Blocks(s.columns))
  {
  }

  /** In the compact layout, a row starts with its global scale and ends with padding. */
  method StartRow(layout: Layout, scaled: (nat, nat) -> nat, s: Source, cross: bool, start: nat, n: nat, d: array<nat>,
      row: nat)
    requires Accepts(layout, s, cross, start, n) && row < n
        && Progress(layout, scaled, s, cross, start, n, d[..], row, -1)
    modifies d
    ensures Progress(layout, scaled, s, cross, start, n, d[..], row, 0)
  {
    hide Progress, OffsetOf, PlaceOf, RowBytes, PartByte, GlobalScale;
    ghost var before := d[..];
    var blocks := Blocks(s.columns);
    ProgressSize(layout, scaled, s, cross, start, n, d[..], row, -1);
    RowsBijection(s.rows, cross, start + row);
    if layout == Compact {
      var pad := RowBytes(layout, blocks) - 4 - blocks * 9;
      HeaderStretch(blocks, n, row, 0);
      Fill(d, OffsetOf(layout, blocks, Place(row, Pad(0))), pad, 0);
      var global := Bytes32(GlobalScale(s, SourceRow(s.rows, cross, start + row)));
      Copy(d, OffsetOf(layout, blocks, Place(row, Global(0))), global, 0, 4);
      HeaderWritten(scaled, s, cross, start, n, before, d[..], row, global);
    } else {
      NoHeader(layout, scaled, s, cross, start, n, before, row);
    }
  }

  lemma NoHeader(layout: Layout, scaled: (nat, nat) -> nat, s: Source, cross: bool, start: nat, n: nat, d: seq<nat>,
      row: nat)
    requires layout != Compact && Accepts(layout, s, cross, start, n)
        && Progress(layout, scaled, s, cross, start, n, d, row, -1)
    ensures Progress(layout, scaled, s, cross, start, n, d, row, 0)
  {
    hide OffsetOf, PlaceOf, RowBytes;
    forall b | 0 <= b < |d| && Written(PlaceOf(layout, Blocks(s.columns), b), row, 0)
      ensures d[b] == PackedByte(layout, scaled, s, cross, start, n, b)
    {
      NoGap(layout, Blocks(s.columns), n, b);
    }
  }

  /** The header and the padding of a compact row are two stretches of it. */
  lemma HeaderStretch(blocks: nat, n: nat, row: nat, b: nat)
    requires blocks > 0 && row < n && b < n * RowBytes(Compact, blocks)
    ensures var g, c, pad := OffsetOf(Compact, blocks, Place(row, Global(0))),
        OffsetOf(Compact, blocks, Place(row, Pad(0))),
                             RowBytes(Compact, blocks) - 4 - blocks * 9;
      && 0 <= g && g + 4 <= n * RowBytes(Compact, blocks) && 0 <= pad && 0 <= c
          && c + pad <= n * RowBytes(Compact, blocks)
      && (g <= b < g + 4 ==> PlaceOf(Compact, blocks, b) == Place(row, Global(b - g)))
      && (c <= b < c + pad ==> PlaceOf(Compact, blocks, b) == Place(row, Pad(b - c)))
      && (Written(PlaceOf(Compact, blocks, b), row, 0) && !Written(PlaceOf(Compact, blocks, b), row, -1) ==>
          g <= b < g + 4 || c <= b < c + pad)
  {
    var g, c, pad := OffsetOf(Compact, blocks, Place(row, Global(0))), OffsetOf(Compact, blocks, Place(row, Pad(0))),
                     RowBytes(Compact, blocks) - 4 - blocks * 9;
    SlotFits(row, n, RowBytes(Compact, blocks));
    assert g == row * RowBytes(Compact, blocks) && c == g + 4 + blocks * 9;
    hide OffsetOf, PlaceOf, RowBytes;
    if g <= b < g + 4 {
      PartsTogether(Compact, blocks, row, 0, b - g);
      NoOverlap(Compact, blocks, n, Place(row, Global(b - g)));
    }
    if c <= b < c + pad {
      PartsTogether(Compact, blocks, row, 0, b - c);
      NoOverlap(Compact, blocks, n, Place(row, Pad(b - c)));
    }
    NoGap(Compact, blocks, n, b);
    var p := PlaceOf(Compact, blocks, b);
    if Written(p, row, 0) && !Written(p, row, -1) {
      PartsTogether(Compact, blocks, row, 0, p.part.i);
    }
  }

  lemma HeaderWritten(scaled: (nat, nat) -> nat, s: Source, cross: bool, start: nat, n: nat, before: seq<nat>,
      d: seq<nat>, row: nat, global: seq<nat>)
    requires Accepts(Compact, s, cross, start, n) && row < n && SourceRow(s.rows, cross, start + row) < s.rows
    requires Progress(Compact, scaled, s, cross, start, n, before, row, -1) && |d| == |before|
    requires global == Bytes32(GlobalScale(s, SourceRow(s.rows, cross, start + row)))
    requires var blocks := Blocks(s.columns);
      var g, c := OffsetOf(Compact, blocks, Place(row, Global(0))), OffsetOf(Compact, blocks, Place(row, Pad(0)));
      forall b :: 0 <= b < |d| ==>
        d[b] == if g <= b < g + 4 then global[b - g]
                else if c <= b < c + (RowBytes(Compact, blocks) - 4 - blocks * 9) then 0
                else before[b]
    ensures Progress(Compact, scaled, s, cross, start, n, d, row, 0)
  {
    hide OffsetOf, PlaceOf, RowBytes, ValidSource, SourceRow, GlobalScale;
    var blocks := Blocks(s.columns);
    forall b | 0 <= b < |d| && Written(PlaceOf(Compact, blocks, b), row, 0)
      ensures d[b] == PackedByte(Compact, scaled, s, cross, start, n, b)
    {
      HeaderStretch(blocks, n, row, b);
    }
  }

  lemma RowWritten(layout: Layout, scaled: (nat, nat) -> nat, s: Source, cross: bool, start: nat, n: nat, d: seq<nat>,
      row: nat)
    requires Accepts(layout, s, cross, start, n)
        && Progress(layout, scaled, s, cross, start, n, d, row, Blocks(s.columns))
    ensures Progress(layout, scaled, s, cross, start, n, d, row + 1, -1)
  {
    hide OffsetOf, PlaceOf, RowBytes;
    forall b | 0 <= b < |d| && Written(PlaceOf(layout, Blocks(s.columns), b), row + 1, -1)
      ensures d[b] == PackedByte(layout, scaled, s, cross, start, n, b)
    {
      NoGap(layout, Blocks(s.columns), n, b);
    }
  }

  lemma NothingWritten(layout: Layout, scaled: (nat, nat) -> nat, s: Source, cross: bool, start: nat, n: nat,
      d: seq<nat>)
    requires Accepts(layout, s, cross, start, n) && |d| == n * RowBytes(layout, Blocks(s.columns))
    ensures Progress(layout, scaled, s, cross, start, n, d, 0, -1)
  {
  }

  lemma AllWritten(layout: Layout, scaled: (nat, nat) -> nat, s: Source, cross: bool, start: nat, n: nat, d: seq<nat>)
    requires Accepts(layout, s, cross, start, n) && Progress(layout, scaled, s, cross, start, n, d, n, -1)
    ensures d == Packed(layout, scaled, s, cross, start, n)
  {
    hide OffsetOf, PlaceOf, RowBytes;
    forall b | 0 <= b < |d| ensures d[b] == PackedByte(layout, scaled, s, cross, start, n, b) {
      NoGap(layout, Blocks(s.columns), n, b);
    }
  }

  /** Packs n rows from start on, or reports that the request does not fit and writes nothing. */
  method PackCompactE4M3NVFP4Block16Rows(scaled: (nat, nat) -> nat, s: Source, d: array<nat>, start: nat, n: nat,
                                         crossSwiglu: bool, planar: bool, compactScales: bool) returns (ok: bool)
    requires s.rows > 0 && s.columns > 0 && s.globalScales != [] && s.blockK > 0 ==> ValidSource(s)
    requires var layout := if compactScales then Compact else if planar then Planar else RowMajor;
      s.columns > 0 ==> d.Length == n * RowBytes(layout, Blocks(s.columns))
    modifies d
    ensures var layout := if compactScales then Compact else if planar then Planar else RowMajor;
      && (ok <==> Accepts(layout, s, crossSwiglu, start, n) && !(planar && compactScales))
      && (ok ==> d[..] == Packed(layout, scaled, s, crossSwiglu, start, n))
    ensures !ok ==> d[..] == old(d[..])
  {
    if s.rows == 0 || s.columns == 0 || s.globalScales == [] || s.blockK == 0 || start + n > s.rows
       || (crossSwiglu && s.rows % 2 != 0) || (planar && n % 32 != 0) || (planar && compactScales) {
      return false;
    }
    hide Progress, Packed, RowBytes, ValidSource;
    var layout := if compactScales then Compact else if planar then Planar else RowMajor;
    var packedBlocks := Blocks(s.columns);
    NothingWritten(layout, scaled, s, crossSwiglu, start, n, d[..]);
    var localRow := 0;
    while localRow < n
      invariant 0 <= localRow <= n && Progress(layout, scaled, s, crossSwiglu, start, n, d[..], localRow, -1)
    {
      StartRow(layout, scaled, s, crossSwiglu, start, n, d, localRow);
      var block := 0;
      while block < packedBlocks
        invariant 0 <= block <= packedBlocks
            && Progress(layout, scaled, s, crossSwiglu, start, n, d[..], localRow, block)
      {
        PackBlock(layout, scaled, s, crossSwiglu, start, n, d, localRow, block);
        block := block + 1;
      }
      RowWritten(layout, scaled, s, crossSwiglu, start, n, d[..], localRow);
      localRow := localRow + 1;
    }
    AllWritten(layout, scaled, s, crossSwiglu, start, n, d[..]);
    ok := true;
  }
}
