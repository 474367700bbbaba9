/** What can be read back from packed NVFP4 rows, in terms of the matrix that was packed. */
module Nvfp4Recovery {
  import opened Arithmetic
  import opened Nvfp4Layout
  import opened Nvfp4Packing

  /** Rows, blocks and bytes are counted upwards: the last one may be partly filled but is not empty. */
  lemma Counts(s: Source)
    requires s.rows > 0 && s.columns > 0 && s.blockK > 0
    ensures 16 * (Blocks(s.columns) - 1) < s.columns <= 16 * Blocks(s.columns)
    ensures 2 * (RawBytes(s.columns) - 1) < s.columns <= 2 * RawBytes(s.columns)
    ensures (ScaleRows(s) - 1) * s.blockK < s.rows <= ScaleRows(s) * s.blockK
  {
    DivTimes(s.rows - 1, s.blockK);
  }

  // --- where the program's pointer stands ---

  /** The pointer that starts with a row, passes its header, and is advanced by the size of a block after each block. */
  function Pointer(layout: Layout, row: nat, bytes: nat, block: nat): int {
    if block == 0 then row * bytes + (if layout == Compact then 4 else 0)
    else Pointer(layout, row, bytes, block - 1) + 8 + (if layout == Compact then 1 else 4)
  }

  /** In the two layouts that go row by row, a block has its weights at the pointer and its scale behind them. */
  lemma PointerOffsets(layout: Layout, blocks: nat, row: nat, block: nat)
    requires layout != Planar
    ensures var at := Pointer(layout, row, RowBytes(layout, blocks), block);
      && OffsetOf(layout, blocks, Place(row, Weight(block, 0))) == at
      && OffsetOf(layout, blocks, Place(row, Scale(block, 0))) == at + 8
  {
    hide RowBytes, Pointer;
    PointerIs(layout, row, RowBytes(layout, blocks), block);
  }

  /** A row ends behind its last block; a compact row is filled up to the next multiple of four bytes. */
  lemma RowFilled(layout: Layout, blocks: nat)
    requires layout != Planar
    ensures var used := Pointer(layout, 0, RowBytes(layout, blocks), blocks);
      used <= RowBytes(layout, blocks) < used + 4 && RowBytes(layout, blocks) % 4 == 0
  {
    PointerIs(layout, 0, RowBytes(layout, blocks), blocks);
    hide Pointer;
  }

  lemma {:induction false} PointerIs(layout: Layout, row: nat, bytes: nat, block: nat)
    ensures Pointer(layout, row, bytes, block) == row * bytes + if layout == Compact then 4 + block * 9 else block * 12
  {
    if block > 0 {
      PointerIs(layout, row, bytes, block - 1);
    }
  }

  // --- scales ---

  /** The index of the global scale of a row. */
  lemma GlobalIndex(s: Source, row: nat) returns (index: nat)
    requires ValidSource(s) && row < s.rows
    ensures index < |s.globalScales| && GlobalScale(s, row) == s.globalScales[index]
    ensures index == var share := (row / s.blockK) * |s.globalScales| / ScaleRows(s);
                     if |s.globalScales| - 1 < share then |s.globalScales| - 1 else share
  {
    Product(row / s.blockK, |s.globalScales|);
    index := Share(row / s.blockK, |s.globalScales|, ScaleRows(s));
    if index > |s.globalScales| - 1 {
      index := |s.globalScales| - 1;
    }
  }

  /** Where the scale of a block stands among the scales of the matrix, which go row of scales by row of scales. */
  function ScaleSlot(s: Source, row: nat, block: nat): int
    requires s.blockK > 0 && s.columns > 0
  {
    row / s.blockK * Blocks(s.columns) + block
  }

  lemma ScalePart(layout: Layout, scaled: (nat, nat) -> nat, s: Source, row: nat, block: nat, i: nat)
    requires ValidSource(s) && row < s.rows && block < Blocks(s.columns)
    requires ValidPart(layout, Blocks(s.columns), Scale(block, i))
    ensures 0 <= ScaleSlot(s, row, block) < |s.scaleBytes|
    ensures PartByte(layout, scaled, s, row, Scale(block, i))
         == if layout == Compact then s.scaleBytes[ScaleSlot(s, row, block)]
            else Byte32(scaled(s.scaleBytes[ScaleSlot(s, row, block)], GlobalScale(s, row)), i)
  {
    hide Byte32, Blocks, GlobalScale, ValidSource;
    ScaleFits(s, row, block);
  }

  /** The scale of every block of the matrix is found behind its weights: as it is in the compact layout, and multiplied
      by the global scale of its row in the other two. */
  lemma ScaleKept(layout: Layout, scaled: (nat, nat) -> nat, s: Source, cross: bool, row: nat, block: nat, i: nat)
    requires Accepts(layout, s, cross, 0, s.rows) && row < s.rows && block < Blocks(s.columns)
    requires i < if layout == Compact then 1 else 4
    ensures var p := Place(DestinationRow(s.rows, cross, row), Scale(block, i));
      && 0 <= ScaleSlot(s, row, block) < |s.scaleBytes|
      && 0 <= OffsetOf(layout, Blocks(s.columns), p) < |Packed(layout, scaled, s, cross, 0, s.rows)|
      && Packed(layout, scaled, s, cross, 0, s.rows)[OffsetOf(layout, Blocks(s.columns), p)]
          == if layout == Compact then s.scaleBytes[ScaleSlot(s, row, block)]
             else Byte32(scaled(s.scaleBytes[ScaleSlot(s, row, block)], GlobalScale(s, row)), i)
  {
    hide Packed, OffsetOf, Byte32, Blocks, GlobalScale, ScaleSlot, PartByte, ValidSource;
    RowsBijection(s.rows, cross, row);
    ScalePart(layout, scaled, s, row, block, i);
    PackedAt(layout, scaled, s, cross, 0, s.rows, Place(DestinationRow(s.rows, cross, row), Scale(block, i)));
  }

  /** In the compact layout the global scale of every row stands in front of it. */
  lemma GlobalKept(scaled: (nat, nat) -> nat, s: Source, cross: bool, row: nat, i: nat)
    requires Accepts(Compact, s, cross, 0, s.rows) && row < s.rows && i < 4
    ensures var p := Place(DestinationRow(s.rows, cross, row), Global(i));
      && 0 <= OffsetOf(Compact, Blocks(s.columns), p) < |Packed(Compact, scaled, s, cross, 0, s.rows)|
      && Packed(Compact, scaled, s, cross, 0, s.rows)[OffsetOf(Compact, Blocks(s.columns), p)]
          == Byte32(GlobalScale(s, row), i)
  {
    RowsBijection(s.rows, cross, row);
    hide Packed, OffsetOf, Byte32, Blocks, GlobalScale;
    PackedAt(Compact, scaled, s, cross, 0, s.rows, Place(DestinationRow(s.rows, cross, row), Global(i)));
  }

  lemma SameBytes(a: nat, b: nat)
    requires forall i: nat :: i < 4 ==> Byte32(a, i) == Byte32(b, i)
    ensures a < 0x1_0000_0000 && b < 0x1_0000_0000 ==> a == b
  {
    hide Byte32;
    assert Byte32(a, 0) == Byte32(b, 0) && Byte32(a, 1) == Byte32(b, 1) && Byte32(a, 2) == Byte32(b, 2)
        && Byte32(a, 3) == Byte32(b, 3);
    FromBytes(a);
    FromBytes(b);
  }

  lemma FromBytes(v: nat)
    ensures v < 0x1_0000_0000 ==>
        v == Byte32(v, 0) + 0x100 * Byte32(v, 1) + 0x1_0000 * Byte32(v, 2) + 0x100_0000 * Byte32(v, 3)
  {
    var p := v / 0x100;
    var q := p / 0x100;
    assert v / 0x1_0000 == q;
    assert v / 0x100_0000 == q / 0x100;
  }

  /** Two matrices of one shape that are packed alike in the compact layout. */
  predicate PackedAlike(scaled: (nat, nat) -> nat, s: Source, t: Source, cross: bool) {
    && Accepts(Compact, s, cross, 0, s.rows) && Accepts(Compact, t, cross, 0, t.rows)
    && s.rows == t.rows && s.columns == t.columns && s.blockK == t.blockK
    && Packed(Compact, scaled, s, cross, 0, s.rows) == Packed(Compact, scaled, t, cross, 0, t.rows)
  }

  lemma SameScaleAt(scaled: (nat, nat) -> nat, s: Source, t: Source, cross: bool, row: nat, block: nat)
    requires PackedAlike(scaled, s, t, cross) && row < s.rows && block < Blocks(s.columns)
    ensures s.blockK > 0 && s.columns > 0 && ScaleSlot(s, row, block) == ScaleSlot(t, row, block)
    ensures 0 <= ScaleSlot(s, row, block) < |s.scaleBytes| && ScaleSlot(s, row, block) < |t.scaleBytes|
    ensures s.scaleBytes[ScaleSlot(s, row, block)] == t.scaleBytes[ScaleSlot(s, row, block)]
  {
    assert s.blockK > 0 && s.columns > 0;
    assert ScaleSlot(s, row, block) == ScaleSlot(t, row, block);
    hide Packed, OffsetOf, Byte32, Blocks, ValidSource, ScaleSlot;
    ScaleKept(Compact, scaled, s, cross, row, block, 0);
    ScaleKept(Compact, scaled, t, cross, row, block, 0);
  }

  lemma SlotIs(s: Source, k: nat)
    requires ValidSource(s) && k < |s.scaleBytes|
    ensures var blocks := Blocks(s.columns);
      && k / blocks < ScaleRows(s) && k % blocks < blocks
      && 0 <= k / blocks * s.blockK < s.rows && ScaleSlot(s, k / blocks * s.blockK, k % blocks) == k
  {
    var blocks := Blocks(s.columns);
    assert k < ScaleRows(s) * blocks;
    hide Blocks, ScaleRows, ValidSource;
    Rest(k, blocks, ScaleRows(s));
    FirstRow(s, k / blocks);
  }

  lemma SameScale(scaled: (nat, nat) -> nat, s: Source, t: Source, cross: bool, k: nat)
    requires PackedAlike(scaled, s, t, cross) && k < |s.scaleBytes|
    ensures |s.scaleBytes| == |t.scaleBytes| && s.scaleBytes[k] == t.scaleBytes[k]
  {
    var blocks := Blocks(s.columns);
    assert |s.scaleBytes| == ScaleRows(s) * blocks == |t.scaleBytes|;
    SlotIs(s, k);
    hide PackedAlike, ValidSource, Blocks, ScaleRows, ScaleSlot;
    SameScaleAt(scaled, s, t, cross, k / blocks * s.blockK, k % blocks);
  }

  /** The first row that has its scales in this row of scales. */
  lemma FirstRow(s: Source, scaleRow: nat)
    requires s.rows > 0 && s.blockK > 0 && scaleRow < ScaleRows(s)
    ensures 0 <= scaleRow * s.blockK < s.rows && scaleRow * s.blockK / s.blockK == scaleRow
  {
    DivTimes(s.rows - 1, s.blockK);
    MulMonotone(scaleRow, ScaleRows(s) - 1, s.blockK);
    Product(scaleRow, s.blockK);
    Divide(scaleRow, s.blockK, 0);
  }

  lemma SameGlobal(scaled: (nat, nat) -> nat, s: Source, t: Source, cross: bool, row: nat)
    requires PackedAlike(scaled, s, t, cross) && row < s.rows
    ensures GlobalScale(s, row) < 0x1_0000_0000 && GlobalScale(t, row) < 0x1_0000_0000 ==>
        GlobalScale(s, row) == GlobalScale(t, row)
  {
    hide Packed, OffsetOf, Byte32, Blocks, GlobalScale;
    forall i: nat | i < 4 ensures Byte32(GlobalScale(s, row), i) == Byte32(GlobalScale(t, row), i) {
      GlobalKept(scaled, s, cross, row, i);
      GlobalKept(scaled, t, cross, row, i);
    }
    SameBytes(GlobalScale(s, row), GlobalScale(t, row));
  }

  lemma SameRows(s: Source, t: Source)
    requires s.rows == t.rows > 0 && s.blockK == t.blockK > 0
    ensures ScaleRows(s) == ScaleRows(t)
  {
  }

  // --- which global scales are used ---

  /** With no more global scales than rows of scales, every global scale is that of some row. */
  lemma GlobalUsed(s: Source, g: nat) returns (row: nat)
    requires ValidSource(s) && |s.globalScales| <= ScaleRows(s) && g < |s.globalScales|
    ensures row < s.rows && Share(row / s.blockK, |s.globalScales|, ScaleRows(s)) == g
    ensures GlobalScale(s, row) == s.globalScales[g]
  {
    var r := RowOfShare(g, |s.globalScales|, ScaleRows(s));
    hide ScaleRows, Share, Blocks;
    FirstRow(s, r);
    row := r * s.blockK;
  }

  lemma RowOfShare(g: nat, count: nat, rows: nat) returns (r: nat)
    requires g < count <= rows
    ensures r < rows && Share(r, count, rows) == g
  {
    Product(g, rows);
    r := (g * rows + count - 1) / count;
    DivTimes(g * rows + count - 1, count);
    Product(r, count);
    var rest := r * count - g * rows;
    assert 0 <= rest < count;
    Divide(g, rows, rest);
    if r >= rows {
      MulMonotone(rows, r, count);
      MulMonotone(g + 1, count, rows);
      Distribute(g, 1, rows);
    }
  }

  /** With no more global scales than rows of scales, the compact layout loses nothing: matrices that are packed alike
      are
      the same. */
  lemma CompactLossless(scaled: (nat, nat) -> nat, s: Source, t: Source, cross: bool)
    requires PackedAlike(scaled, s, t, cross) && |s.globalScales| == |t.globalScales|
    requires forall g :: 0 <= g < |s.globalScales| ==>
        s.globalScales[g] < 0x1_0000_0000 && t.globalScales[g] < 0x1_0000_0000
    ensures s.weights == t.weights && s.scaleBytes == t.scaleBytes
    ensures |s.globalScales| <= ScaleRows(s) ==> s == t
  {
    Lossless(Compact, scaled, s, t, cross);
    assert |s.scaleBytes| == |t.scaleBytes|;
    assert ValidSource(s) && ValidSource(t);
    hide Packed, Blocks, ScaleRows;
    forall k | 0 <= k < |s.scaleBytes| ensures s.scaleBytes[k] == t.scaleBytes[k] {
      SameScale(scaled, s, t, cross, k);
    }
    if |s.globalScales| <= ScaleRows(s) {
      forall g | 0 <= g < |s.globalScales| ensures s.globalScales[g] == t.globalScales[g] {
        var row := GlobalUsed(s, g);
        SameGlobal(scaled, s, t, cross, row);
        assert ScaleRows(t) == ScaleRows(s) by { SameRows(s, t); }
      }
    }
  }

  /** With more global scales than rows of scales, the last one is that of no row, so that it makes no difference to the
      packed rows. */
  lemma LastGlobalUnused(layout: Layout, scaled: (nat, nat) -> nat, s: Source, cross: bool, v: nat)
    requires Accepts(layout, s, cross, 0, s.rows) && |s.globalScales| > ScaleRows(s)
    ensures var t := s.(globalScales := s.globalScales[|s.globalScales| - 1 := v]);
      && Accepts(layout, t, cross, 0, t.rows)
      && Packed(layout, scaled, t, cross, 0, t.rows) == Packed(layout, scaled, s, cross, 0, s.rows)
  {
    var t := s.(globalScales := s.globalScales[|s.globalScales| - 1 := v]);
    forall row | 0 <= row < s.rows ensures GlobalScale(t, row) == GlobalScale(s, row) {
      DivMonotone(row, s.rows - 1, s.blockK);
      ShareBelow(row / s.blockK, |s.globalScales|, ScaleRows(s));
    }
    hide PlaceOf, RowBytes, GlobalScale, Blocks, ScaleRows;
    var all := Packed(layout, scaled, s, cross, 0, s.rows);
    forall b | 0 <= b < |all|
      ensures PackedByte(layout, scaled, t, cross, 0, t.rows, b) == PackedByte(layout, scaled, s, cross, 0, s.rows, b)
    {
      NoGap(layout, Blocks(s.columns), s.rows, b);
      RowsBijection(s.rows, cross, PlaceOf(layout, Blocks(s.columns), b).row);
    }
  }

  lemma ShareBelow(r: nat, count: nat, rows: nat)
    requires r < rows < count
    ensures Share(r, count, rows) < count - 1
  {
    Product(r, count);
    DivTimes(r * count, rows);
    MulMonotone(r + 1, rows, count);
    Distribute(r, 1, count);
    var q := Share(r, count, rows);
    if q >= count - 1 {
      MulMonotone(count - 1, q, rows);
      Distribute(count, -1, rows);
    }
  }
}
