/** The three layouts of packed NVFP4 rows. A row has blocks of 16 weights, 8 bytes each, with a scale for each block:
    behind the weights of its block, behind the weights of a tile of 32 rows, or as one byte, with the global scale of
    the row in front of it. */
module Nvfp4Layout {
  import opened Arithmetic

  datatype Layout = RowMajor | Planar | Compact

  /** A byte of a row, by what it means. */
  datatype Part = Weight(block: nat, i: nat) | Scale(block: nat, i: nat) | Global(i: nat) | Pad(i: nat)

  datatype Place = Place(row: nat, part: Part)

  function RowBytes(layout: Layout, blocks: nat): (bytes: nat)
    ensures blocks > 0 ==> bytes > 0
  {
    if layout == Compact then (4 + blocks * 9 + 3) / 4 * 4 else blocks * 12
  }

  predicate ValidPart(layout: Layout, blocks: nat, part: Part) {
    match part
    case Weight(block, i) => block < blocks && i < 8
    case Scale(block, i) => block < blocks && i < if layout == Compact then 1 else 4
    case Global(i) => layout == Compact && i < 4
    case Pad(i) => layout == Compact && i < RowBytes(layout, blocks) - 4 - blocks * 9
  }

  /** Where a part lies in its row, when rows lie one behind the other. */
  function InRow(layout: Layout, blocks: nat, part: Part): nat {
    match part
    case Weight(block, i) => if layout == Compact then 4 + block * 9 + i else block * 12 + i
    case Scale(block, i) => if layout == Compact then 4 + block * 9 + 8 + i else block * 12 + 8 + i
    case Global(i) => i
    case Pad(i) => 4 + blocks * 9 + i
  }

  function PartAt(layout: Layout, blocks: nat, o: nat): Part {
    if layout == Compact then
      if o < 4 then Global(o)
      else if o < 4 + blocks * 9
          then (if (o - 4) % 9 < 8 then Weight((o - 4) / 9, (o - 4) % 9) else Scale((o - 4) / 9, 0))
      else Pad(o - 4 - blocks * 9)
    else if o % 12 < 8 then Weight(o / 12, o % 12) else Scale(o / 12, o % 12 - 8)
  }

  lemma PartRoundTrip(layout: Layout, blocks: nat, part: Part)
    requires layout != Planar && ValidPart(layout, blocks, part)
    ensures InRow(layout, blocks, part) < RowBytes(layout, blocks)
    ensures PartAt(layout, blocks, InRow(layout, blocks, part)) == part
  {
    match part
    case Weight(block, i) => Divide(block, if layout == Compact then 9 else 12, i);
    case Scale(block, i) => Divide(block, if layout == Compact then 9 else 12, 8 + i);
    case Global(i) =>
    case Pad(i) =>
  }

  lemma PartCover(layout: Layout, blocks: nat, o: nat)
    requires layout != Planar && o < RowBytes(layout, blocks)
    ensures ValidPart(layout, blocks, PartAt(layout, blocks, o))
        && InRow(layout, blocks, PartAt(layout, blocks, o)) == o
  {
  }

  /** Where a part lies in its tile, in the planar layout. */
  function InTile(blocks: nat, row: nat, part: Part): nat {
    match part
    case Weight(block, i) => (row * blocks + block) * 8 + i
    case Scale(block, i) => 256 * blocks + (row * blocks + block) * 4 + i
    case _ => 0
  }

  function TilePlace(blocks: nat, o: nat): Place
    requires blocks > 0
  {
    if o < 256 * blocks then Place(o / 8 / blocks, Weight(o / 8 % blocks, o % 8))
    else Place((o - 256 * blocks) / 4 / blocks, Scale((o - 256 * blocks) / 4 % blocks, (o - 256 * blocks) % 4))
  }

  lemma TileRoundTrip(blocks: nat, row: nat, part: Part)
    requires ValidPart(Planar, blocks, part) && row < 32
    ensures blocks > 0 && InTile(blocks, row, part) < 384 * blocks
        && TilePlace(blocks, InTile(blocks, row, part)) == Place(row, part)
  {
    SlotFits(row, 32, blocks);
    var x := row * blocks + part.block;
    Divide(row, blocks, part.block);
    assert x < 32 * blocks;
    if part.Weight? {
      Divide(x, 8, part.i);
    } else {
      Divide(x, 4, part.i);
    }
  }

  lemma Rest(x: nat, d: nat, n: nat)
    requires d > 0 && x < n * d
    ensures x / d < n && x % d < d && x == x / d * d + x % d
  {
    DivTimes(x, d);
    if x / d >= n {
      MulMonotone(n, x / d, d);
    }
  }

  lemma TileCover(blocks: nat, o: nat)
    requires o < 384 * blocks
    ensures blocks > 0 && TilePlace(blocks, o).row < 32
    ensures ValidPart(Planar, blocks, TilePlace(blocks, o).part)
    ensures InTile(blocks, TilePlace(blocks, o).row, TilePlace(blocks, o).part) == o
  {
    if o < 256 * blocks {
      Rest(o / 8, blocks, 32);
    } else {
      Rest((o - 256 * blocks) / 4, blocks, 32);
    }
  }

  /** Where a part of a row lies among the packed rows. */
  function OffsetOf(layout: Layout, blocks: nat, p: Place): int {
    if layout == Planar then p.row / 32 * (384 * blocks) + InTile(blocks, p.row % 32, p.part)
    else p.row * RowBytes(layout, blocks) + InRow(layout, blocks, p.part)
  }

  function Quotient(b: nat, d: nat): nat
    requires d > 0
  {
    b / d
  }

  /** What a byte of the packed rows means. */
  function PlaceOf(layout: Layout, blocks: nat, b: nat): Place
    requires blocks > 0
  {
    if layout == Planar then
      var inner := TilePlace(blocks, b % (384 * blocks));
      Place(Quotient(b, 384 * blocks) * 32 + inner.row, inner.part)
    else Place(Quotient(b, RowBytes(layout, blocks)), PartAt(layout, blocks, b % RowBytes(layout, blocks)))
  }

  /** In the planar layout the rows fill whole tiles. */
  predicate RowsFit(layout: Layout, rows: nat) {
    layout == Planar ==> rows % 32 == 0
  }

  /** Parts of rows lie apart from each other, within the bytes of the rows. */
  lemma NoOverlap(layout: Layout, blocks: nat, rows: nat, p: Place)
    requires blocks > 0 && RowsFit(layout, rows) && p.row < rows && ValidPart(layout, blocks, p.part)
    ensures 0 <= OffsetOf(layout, blocks, p) < rows * RowBytes(layout, blocks)
    ensures PlaceOf(layout, blocks, OffsetOf(layout, blocks, p)) == p
  {
    if layout == Planar {
      TileRoundTrip(blocks, p.row % 32, p.part);
      Divide(p.row / 32, 384 * blocks, InTile(blocks, p.row % 32, p.part));
      SlotFits(p.row / 32, rows / 32, 384 * blocks);
      Tiles(rows, blocks);
    } else {
      PartRoundTrip(layout, blocks, p.part);
      Divide(p.row, RowBytes(layout, blocks), InRow(layout, blocks, p.part));
      SlotFits(p.row, rows, RowBytes(layout, blocks));
    }
  }

  lemma Tiles(rows: nat, blocks: nat)
    requires rows % 32 == 0
    ensures rows / 32 * (384 * blocks) == rows * (blocks * 12)
  {
    var tiles := rows / 32;
    assert rows == tiles * 32;
    Associate(tiles, 32, blocks * 12);
    assert 32 * (blocks * 12) == 384 * blocks;
  }

  /** And leave no gap. */
  lemma NoGap(layout: Layout, blocks: nat, rows: nat, b: nat)
    requires blocks > 0 && RowsFit(layout, rows) && b < rows * RowBytes(layout, blocks)
    ensures PlaceOf(layout, blocks, b).row < rows && ValidPart(layout, blocks, PlaceOf(layout, blocks, b).part)
    ensures OffsetOf(layout, blocks, PlaceOf(layout, blocks, b)) == b
  {
    if layout == Planar {
      Tiles(rows, blocks);
      NoTileGap(blocks, rows / 32, b);
    } else {
      NoRowGap(layout, blocks, rows, b);
    }
  }

  lemma NoRowGap(layout: Layout, blocks: nat, rows: nat, b: nat)
    requires layout != Planar && blocks > 0 && b < rows * RowBytes(layout, blocks)
    ensures PlaceOf(layout, blocks, b).row < rows && ValidPart(layout, blocks, PlaceOf(layout, blocks, b).part)
    ensures OffsetOf(layout, blocks, PlaceOf(layout, blocks, b)) == b
  {
    hide RowBytes, InRow, PartAt, ValidPart;
    Rest(b, RowBytes(layout, blocks), rows);
    PartCover(layout, blocks, b % RowBytes(layout, blocks));
  }

  lemma NoTileGap(blocks: nat, tiles: nat, b: nat)
    requires blocks > 0 && b < tiles * (384 * blocks)
    ensures PlaceOf(Planar, blocks, b).row < tiles * 32 && ValidPart(Planar, blocks, PlaceOf(Planar, blocks, b).part)
    ensures OffsetOf(Planar, blocks, PlaceOf(Planar, blocks, b)) == b
  {
    hide TilePlace, InTile, ValidPart;
    Rest(b, 384 * blocks, tiles);
    TileCover(blocks, b % (384 * blocks));
  }

  /** Rows further down lie further on, by as many bytes as the rows before them take. */
  lemma Shifted(layout: Layout, blocks: nat, start: nat, p: Place)
    requires blocks > 0 && RowsFit(layout, start) && ValidPart(layout, blocks, p.part)
    ensures OffsetOf(layout, blocks, Place(start + p.row, p.part))
        == start * RowBytes(layout, blocks) + OffsetOf(layout, blocks, p)
  {
    if layout == Planar {
      Tiles(start, blocks);
      assert (start + p.row) / 32 == start / 32 + p.row / 32 && (start + p.row) % 32 == p.row % 32;
      Distribute(start / 32, p.row / 32, 384 * blocks);
    } else {
      Distribute(start, p.row, RowBytes(layout, blocks));
    }
  }

  /** The offsets of the planar layout as the program writes them. */
  function PlanarWeightOffset(row: nat, blocks: nat, block: nat): int {
    row / 32 * 32 * blocks * 12 + (row % 32 * blocks + block) * 8
  }

  function PlanarScaleOffset(row: nat, blocks: nat, block: nat): int {
    row / 32 * 32 * blocks * 12 + 32 * blocks * 8 + (row % 32 * blocks + block) * 4
  }

  lemma PlanarOffsets(row: nat, blocks: nat, block: nat)
    ensures PlanarWeightOffset(row, blocks, block) == OffsetOf(Planar, blocks, Place(row, Weight(block, 0)))
    ensures PlanarScaleOffset(row, blocks, block) == OffsetOf(Planar, blocks, Place(row, Scale(block, 0)))
  {
    var tiles := row / 32;
    Associate(tiles, 32, blocks);
    assert tiles * 32 * blocks * 12 == tiles * (32 * blocks) * 12;
    Associate(tiles, 32 * blocks, 12);
  }
}
