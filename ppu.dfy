/** The slice of the PPU466 data model that the asset baker fills in:
    RGBA colours, 4-colour palettes, and 8x8 tiles stored as two bit planes. */
module Ppu {

  /** An unsigned 8-bit channel value. */
  newtype u8 = b: int | 0 <= b < 256

  /** glm::u8vec4: four 8-bit channels x, y, z, w (red, green, blue, alpha). */
  datatype Color = Color(x: u8, y: u8, z: u8, w: u8)

  const Transparent: Color := Color(0, 0, 0, 0)

  /** Tiles are 8x8 pixels; a palette has 4 entries. */
  const TileSize: nat := 8
  const PaletteSize: nat := 4

  /** PPU466::Palette, an array of 4 colours. */
  type Palette = seq<Color>

  /** PPU466::Tile: bit x of bit0[y] and of bit1[y] are the low and high bits
      of the palette index of pixel (x, y); row 0 is the bottom row. */
  datatype Tile = Tile(bit0: seq<bv8>, bit1: seq<bv8>)

  predicate ValidTile(t: Tile) {
    |t.bit0| == TileSize && |t.bit1| == TileSize
  }

  /** A palette of four transparent entries, the value a fresh Palette holds. */
  const BlankPalette: Palette := [Transparent, Transparent, Transparent, Transparent]

  /** A tile whose bit planes are all zero. */
  const BlankTile: Tile := Tile([0, 0, 0, 0, 0, 0, 0, 0], [0, 0, 0, 0, 0, 0, 0, 0])

  /** The byte with only bit x set, `1 << x`, for x < 8. */
  function Mask(x: nat): (m: bv8)
    requires x < TileSize
  {
    match x
    case 0 => 0x01
    case 1 => 0x02
    case 2 => 0x04
    case 3 => 0x08
    case 4 => 0x10
    case 5 => 0x20
    case 6 => 0x40
    case _ => 0x80
  }

  /** Bit x of a bit-plane row, as 0 or 1. */
  function Bit(row: bv8, x: nat): (b: nat)
    requires x < TileSize
    ensures b <= 1
  {
    if row & Mask(x) == 0 then 0 else 1
  }

  /** The 2-bit palette index that bit x of a pair of plane rows holds:
      ((hi >> x) & 1) * 2 + ((lo >> x) & 1). */
  function RowIndex(lo: bv8, hi: bv8, x: nat): (i: nat)
    requires x < TileSize
    ensures i < PaletteSize
  {
    2 * Bit(hi, x) + Bit(lo, x)
  }

  /** The 2-bit palette index stored for pixel (x, y). */
  function PixelIndex(t: Tile, x: nat, y: nat): nat
    requires ValidTile(t) && x < TileSize && y < TileSize
  {
    RowIndex(t.bit0[y], t.bit1[y], x)
  }

  /** The colour the PPU shows for pixel (x, y) of a tile drawn with a palette. */
  function Decode(p: Palette, t: Tile, x: nat, y: nat): Color
    requires |p| == PaletteSize && ValidTile(t) && x < TileSize && y < TileSize
  {
    p[PixelIndex(t, x, y)]
  }

  /** The byte `b << x` for a bit b, 0 or 1, moved to position x; any other
      byte counts as a clear bit. */
  function BitAt(b: bv8, x: nat): bv8
    requires x < TileSize
  {
    if b == 1 then Mask(x) else 0
  }

  /** Shifting a single bit left by x gives BitAt: the row masks and the
      source's shifts agree. */
  lemma ShiftIsBitAt(b: bv8, x: nat)
    requires b <= 1 && x < TileSize
    ensures (b << x) == BitAt(b, x)
  {
  }

  /** Reading bit x with the PPU's `(row >> x) & 1` gives Bit(row, x). */
  lemma ShiftReadsBit(row: bv8, x: nat)
    requires x < TileSize
    ensures ((row >> x) & 1) as nat == Bit(row, x)
  {
  }

  /** Decoding in the PPU's own shift form: pixel (x, y) shows palette entry
      `((bit1[y] >> x) & 1) * 2 + ((bit0[y] >> x) & 1)`. */
  lemma DecodeShifts(p: Palette, t: Tile, x: nat, y: nat)
    requires |p| == PaletteSize && ValidTile(t) && x < TileSize && y < TileSize
    ensures Decode(p, t, x, y) == p[((t.bit1[y] >> x) & 1) as nat * 2 + ((t.bit0[y] >> x) & 1) as nat]
  {
    ShiftReadsBit(t.bit0[y], x);
    ShiftReadsBit(t.bit1[y], x);
  }

  /** ORing a single bit into position x of a row sets bit x to that bit when
      it was clear, and leaves every other bit as it was. */
  lemma OrBit(row: bv8, b: bv8, x: nat)
    requires x < TileSize && Bit(row, x) == 0
    ensures Bit(row | BitAt(b, x), x) == if b == 1 then 1 else 0
    ensures forall other :: 0 <= other < TileSize && other != x ==>
              Bit(row | BitAt(b, x), other) == Bit(row, other)
  {
  }

  /** A row is determined by its eight bits. */
  lemma RowDeterminedByBits(r: bv8, s: bv8)
    requires forall x :: 0 <= x < TileSize ==> Bit(r, x) == Bit(s, x)
    ensures r == s
  {
    assert Bit(r, 0) == Bit(s, 0) && Bit(r, 1) == Bit(s, 1);
    assert Bit(r, 2) == Bit(s, 2) && Bit(r, 3) == Bit(s, 3);
    assert Bit(r, 4) == Bit(s, 4) && Bit(r, 5) == Bit(s, 5);
    assert Bit(r, 6) == Bit(s, 6) && Bit(r, 7) == Bit(s, 7);
  }

  /** A tile is determined by the 64 palette indices it stores: no bit of the
      two planes lies outside some pixel's index. */
  lemma TileDeterminedByIndices(s: Tile, t: Tile)
    requires ValidTile(s) && ValidTile(t)
    requires forall x, y :: 0 <= x < TileSize && 0 <= y < TileSize ==>
               PixelIndex(s, x, y) == PixelIndex(t, x, y)
    ensures s == t
  {
    forall y | 0 <= y < TileSize
      ensures s.bit0[y] == t.bit0[y] && s.bit1[y] == t.bit1[y]
    {
      forall x | 0 <= x < TileSize
        ensures Bit(s.bit0[y], x) == Bit(t.bit0[y], x) && Bit(s.bit1[y], x) == Bit(t.bit1[y], x)
      {
        assert PixelIndex(s, x, y) == PixelIndex(t, x, y);
      }
      RowDeterminedByBits(s.bit0[y], t.bit0[y]);
      RowDeterminedByBits(s.bit1[y], t.bit1[y]);
    }
    assert s.bit0 == t.bit0;
    assert s.bit1 == t.bit1;
  }

  /** The OR of `bits[x] << x` (BitAt) over the bits given, accumulated from
      x = 0 upward: the row whose bit x is bits[x] (see PackRowBits). */
  function PackRow(bits: seq<bv8>): bv8
    requires |bits| <= TileSize
  {
    if bits == [] then 0
    else
      var x := |bits| - 1;
      PackRow(bits[..x]) | BitAt(bits[x], x)
  }

  /** Bit x of a packed row is set exactly when bits[x] is 1; the bits above
      |bits| are clear. */
  lemma {:induction false} PackRowBits(bits: seq<bv8>)
    requires |bits| <= TileSize
    ensures forall x :: 0 <= x < TileSize ==>
              Bit(PackRow(bits), x) == if x < |bits| && bits[x] == 1 then 1 else 0
  {
    if bits != [] {
      var x := |bits| - 1;
      var init := bits[..x];
      var acc := PackRow(init);
      var row := acc | BitAt(bits[x], x);
      PackRowBits(init);
      assert Bit(acc, x) == 0;
      OrBit(acc, bits[x], x);
      assert PackRow(bits) == row;
      forall z | 0 <= z < TileSize
        ensures Bit(row, z) == if z < |bits| && bits[z] == 1 then 1 else 0
      {
        if z < x {
          assert init[z] == bits[z];
          assert Bit(row, z) == Bit(acc, z);
        } else if z > x {
          assert Bit(row, z) == Bit(acc, z) == 0;
        }
      }
    }
  }

  /** Packing one more bit ORs it in at its position. */
  lemma PackRowStep(bits: seq<bv8>, x: nat)
    requires |bits| == TileSize && x < TileSize
    ensures PackRow(bits[..x + 1]) == PackRow(bits[..x]) | BitAt(bits[x], x)
  {
    assert bits[..x + 1][..x] == bits[..x];
  }
}
