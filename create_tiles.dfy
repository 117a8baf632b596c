/** The CreateTiles asset baker: turns 8x8 RGBA images into PPU palettes and
    2-bit-per-pixel tiles, and fills the palette and tile tables. */
module CreateTiles {
  import opened Ppu
  import opened SeenColors

  /** Every source image is 8x8 pixels, stored row by row from the top. */
  const ImagePixels: nat := 64

  /** Sizes of the PPU's palette table and tile table. */
  const PaletteTableSize: nat := 8
  const TileTableSize: nat := 256

  /** The last palette slot is reserved for the background. */
  const BackgroundSlot: nat := 7

  /** The image pixel that lands at (x, y) of the tile: tile row 0 is the
      bottom image row. */
  function Pixel(img: seq<Color>, x: nat, y: nat): Color
    requires |img| == ImagePixels && x < TileSize && y < TileSize
  {
    img[8 * (7 - y) + x]
  }

  /** Tile row y as the baker reads it: image row 7 - y, left to right. */
  function RowPixels(img: seq<Color>, y: nat): (row: seq<Color>)
    requires |img| == ImagePixels && y < TileSize
    ensures |row| == TileSize
    ensures forall x :: 0 <= x < TileSize ==> row[x] == Pixel(img, x, y)
  {
    img[8 * (7 - y)..8 * (7 - y) + 8]
  }

  /** The pixels of tile rows 0 .. n - 1 in the order the baker visits them:
      y outer, x inner. */
  function ScanRows(img: seq<Color>, n: nat): (s: seq<Color>)
    requires |img| == ImagePixels && n <= TileSize
    ensures |s| == 8 * n
  {
    if n == 0 then [] else ScanRows(img, n - 1) + RowPixels(img, n - 1)
  }

  /** All 64 pixels in scan order. */
  function ScanOrder(img: seq<Color>): seq<Color>
    requires |img| == ImagePixels
  {
    ScanRows(img, TileSize)
  }

  /** Pixel (x, y) is visited at step 8 * y + x. */
  lemma {:induction false} ScanRowsPixel(img: seq<Color>, n: nat, x: nat, y: nat)
    requires |img| == ImagePixels && n <= TileSize && x < TileSize && y < n
    ensures ScanRows(img, n)[8 * y + x] == Pixel(img, x, y)
  {
    if y < n - 1 {
      ScanRowsPixel(img, n - 1, x, y);
    }
  }

  /** Scanning the first n rows is a prefix of scanning the first m >= n. */
  lemma {:induction false} ScanRowsPrefix(img: seq<Color>, n: nat, m: nat)
    requires |img| == ImagePixels && n <= m <= TileSize
    ensures ScanRows(img, n) <= ScanRows(img, m)
  {
    if n < m {
      ScanRowsPrefix(img, n, m - 1);
    }
  }

  /** Every scanned pixel comes from the image. */
  lemma {:induction false} ScanRowsFromImage(img: seq<Color>, n: nat)
    requires |img| == ImagePixels && n <= TileSize
    ensures forall c :: c in ScanRows(img, n) ==> c in img
  {
    if n > 0 {
      ScanRowsFromImage(img, n - 1);
      var row := RowPixels(img, n - 1);
      forall c | c in row
        ensures c in img
      {
        var x :| 0 <= x < |row| && row[x] == c;
        assert img[8 * (7 - (n - 1)) + x] == c;
      }
    }
  }

  /** Scanning visits every pixel: the scan holds the same colours as the image. */
  lemma ScanOrderValues(img: seq<Color>)
    requires |img| == ImagePixels
    ensures Values(ScanOrder(img)) == Values(img)
  {
    var s := ScanOrder(img);
    ScanRowsFromImage(img, TileSize);
    forall c | c in img
      ensures c in s
    {
      var i :| 0 <= i < |img| && img[i] == c;
      var y, x := 7 - i / 8, i % 8;
      ScanRowsPixel(img, TileSize, x, y);
      assert s[8 * y + x] == c;
    }
  }

  /** The colours of a sprite in the order its palette slots are assigned. */
  function SpriteColors(img: seq<Color>): seq<Color>
    requires |img| == ImagePixels
  {
    FirstSeen(ScanOrder(img))
  }

  /** A sprite has one palette slot per distinct colour. */
  lemma SpriteColorsCount(img: seq<Color>)
    requires |img| == ImagePixels
    ensures |SpriteColors(img)| == |Values(img)|
  {
    ScanOrderValues(img);
    FirstSeenCount(ScanOrder(img));
  }

  /** The palette baked for a sprite: its colours in first-seen order, the
      unused slots left transparent. */
  function SpritePalette(img: seq<Color>): (p: Palette)
    requires |img| == ImagePixels && |Values(img)| <= PaletteSize
    ensures |p| == PaletteSize
  {
    SpriteColorsCount(img);
    var colors := SpriteColors(img);
    colors + seq(PaletteSize - |colors|, _ => Transparent)
  }

  /** The slot of colour c in a colour list; colours not in the list do not
      occur where this is used. */
  function SlotOf(colors: seq<Color>, c: Color): nat {
    if c in colors then IndexOf(colors, c) else 0
  }

  /** The palette slot of the colour at pixel (x, y). */
  function SpriteIndex(img: seq<Color>, x: nat, y: nat): (i: nat)
    requires |img| == ImagePixels && x < TileSize && y < TileSize
    ensures i < |SpriteColors(img)| && SpriteColors(img)[i] == Pixel(img, x, y)
  {
    ScanRowsPixel(img, TileSize, x, y);
    FirstSeenValues(ScanOrder(img));
    IndexOf(SpriteColors(img), Pixel(img, x, y))
  }

  /** Bit 0 and bit 1 of a palette slot number, as bit-plane bits. */
  function LowBit(i: nat): bv8 {
    if i % 2 == 1 then 1 else 0
  }

  function HighBit(i: nat): bv8 {
    if i / 2 % 2 == 1 then 1 else 0
  }

  /** Bit 0 (RowLowBits) and bit 1 (RowHighBits) of the slot of each pixel of
      a row. */
  function RowLowBits(colors: seq<Color>, row: seq<Color>): seq<bv8> {
    seq(|row|, x requires 0 <= x < |row| => LowBit(SlotOf(colors, row[x])))
  }

  function RowHighBits(colors: seq<Color>, row: seq<Color>): seq<bv8> {
    seq(|row|, x requires 0 <= x < |row| => HighBit(SlotOf(colors, row[x])))
  }

  /** Rows 0 .. n - 1 of the low (LowPlane) and high (HighPlane) bit plane
      baked with a colour list: row y is the OR over x of the corresponding
      bit of pixel (x, y)'s slot, shifted to bit x. */
  function LowPlane(img: seq<Color>, colors: seq<Color>, n: nat): (rows: seq<bv8>)
    requires |img| == ImagePixels && n <= TileSize
    ensures |rows| == n
  {
    if n == 0 then [] else LowPlane(img, colors, n - 1) + [PackRow(RowLowBits(colors, RowPixels(img, n - 1)))]
  }

  function HighPlane(img: seq<Color>, colors: seq<Color>, n: nat): (rows: seq<bv8>)
    requires |img| == ImagePixels && n <= TileSize
    ensures |rows| == n
  {
    if n == 0 then [] else HighPlane(img, colors, n - 1) + [PackRow(RowHighBits(colors, RowPixels(img, n - 1)))]
  }

  /** Row y of either plane packs the slot bits of tile row y. */
  lemma {:induction false} PlaneRow(img: seq<Color>, colors: seq<Color>, n: nat, y: nat)
    requires |img| == ImagePixels && y < n <= TileSize
    ensures LowPlane(img, colors, n)[y] == PackRow(RowLowBits(colors, RowPixels(img, y)))
    ensures HighPlane(img, colors, n)[y] == PackRow(RowHighBits(colors, RowPixels(img, y)))
  {
    if y < n - 1 {
      PlaneRow(img, colors, n - 1, y);
    }
  }

  /** The tile baked for a sprite: both planes, all eight rows. */
  function SpriteTile(img: seq<Color>): (t: Tile)
    requires |img| == ImagePixels
    ensures ValidTile(t)
  {
    var colors := SpriteColors(img);
    Tile(LowPlane(img, colors, TileSize), HighPlane(img, colors, TileSize))
  }

  /** The source's `idx & 1` and `(idx >> 1) & 1` on a slot number below 4. */
  lemma SlotBits(i: nat)
    requires i < PaletteSize
    ensures (i as bv8) & 1 == LowBit(i)
    ensures ((i as bv8) >> 1) & 1 == HighBit(i)
    ensures LowBit(i) <= 1 && HighBit(i) <= 1
    ensures 2 * (if HighBit(i) == 1 then 1 else 0) + (if LowBit(i) == 1 then 1 else 0) == i
  {
  }

  /** The source's shifted slot bits, `(idx & 1) << x` and
      `((idx >> 1) & 1) << x`, are the slot's bits placed at position x. */
  lemma ShiftSlot(i: nat, x: nat)
    requires i < PaletteSize && x < TileSize
    ensures ((i as bv8) & 1) << x == BitAt(LowBit(i), x)
    ensures (((i as bv8) >> 1) & 1) << x == BitAt(HighBit(i), x)
  {
    SlotBits(i);
    ShiftIsBitAt((i as bv8) & 1, x);
    ShiftIsBitAt(((i as bv8) >> 1) & 1, x);
  }

  /** With at most four colours, every slot number fits in two bits: the tile
      stores exactly the slot of each pixel. */
  lemma SpriteTileIndex(img: seq<Color>, x: nat, y: nat)
    requires |img| == ImagePixels && |Values(img)| <= PaletteSize
    requires x < TileSize && y < TileSize
    ensures PixelIndex(SpriteTile(img), x, y) == SpriteIndex(img, x, y)
  {
    SpriteColorsCount(img);
    var colors := SpriteColors(img);
    var i := SpriteIndex(img, x, y);
    var row := RowPixels(img, y);
    var lows, highs := RowLowBits(colors, row), RowHighBits(colors, row);
    PackRowBits(lows);
    PackRowBits(highs);
    SpriteTileRow(img, y);
    assert SlotOf(colors, row[x]) == i;
    SlotBits(i);
  }

  /** Round trip: decoding the baked tile through the baked palette gives back
      every source pixel, whenever the sprite has at most four colours. */
  lemma SpriteRoundTrip(img: seq<Color>)
    requires |img| == ImagePixels && |Values(img)| <= PaletteSize
    ensures forall x, y :: 0 <= x < TileSize && 0 <= y < TileSize ==>
              Decode(SpritePalette(img), SpriteTile(img), x, y) == Pixel(img, x, y)
  {
    forall x, y | 0 <= x < TileSize && 0 <= y < TileSize
      ensures Decode(SpritePalette(img), SpriteTile(img), x, y) == Pixel(img, x, y)
    {
      SpriteTileIndex(img, x, y);
    }
  }

  /** The baked tile is the only tile that stores the slot of every pixel. */
  lemma SpriteTileUnique(img: seq<Color>, t: Tile)
    requires |img| == ImagePixels && |Values(img)| <= PaletteSize && ValidTile(t)
    requires forall x, y :: 0 <= x < TileSize && 0 <= y < TileSize ==>
               PixelIndex(t, x, y) == SpriteIndex(img, x, y)
    ensures t == SpriteTile(img)
  {
    forall x, y | 0 <= x < TileSize && 0 <= y < TileSize
      ensures PixelIndex(t, x, y) == PixelIndex(SpriteTile(img), x, y)
    {
      SpriteTileIndex(img, x, y);
    }
    TileDeterminedByIndices(t, SpriteTile(img));
  }

  /** Slot 0 holds the first pixel scanned, the left pixel of the bottom image
      row (img[56]), whatever its colour. */
  lemma SpritePaletteFirst(img: seq<Color>)
    requires |img| == ImagePixels && |Values(img)| <= PaletteSize
    ensures SpritePalette(img)[0] == img[56]
  {
    FirstSeenHead(ScanOrder(img));
    ScanRowsPixel(img, TileSize, 0, 0);
  }

  /** Without the four-colour bound the scan reaches a pixel of a fifth colour
      while four slots are already taken, so the baker writes palette[4],
      one past the end of the palette. */
  lemma FifthColorOverflows(img: seq<Color>)
    requires |img| == ImagePixels && |Values(img)| > PaletteSize
    ensures exists k :: 0 <= k < ImagePixels &&
              |FirstSeen(ScanOrder(img)[..k])| == PaletteSize &&
              ScanOrder(img)[k] !in FirstSeen(ScanOrder(img)[..k])
  {
    ScanOrderValues(img);
    FirstSeenReaches(ScanOrder(img), PaletteSize);
  }

  /** One step of the scan within a row, for a colour list that the whole
      row's scan stays within: a colour already seen leaves the slots alone, a
      new one takes the next slot (there is always one free), and the slot the
      pixel gets is its slot in the colour list. */
  lemma PixelStep(prefix: seq<Color>, row: seq<Color>, colors: seq<Color>, x: nat)
    requires x < |row| && FirstSeen(prefix + row) <= colors && |colors| <= PaletteSize
    ensures var seen := FirstSeen(prefix + row[..x]);
            var c := row[x];
            && Distinct(seen)
            && (c !in seen ==> |seen| < PaletteSize)
            && FirstSeen(prefix + row[..x + 1]) == Extend(seen, c)
            && IndexOf(Extend(seen, c), c) == SlotOf(colors, c)
  {
    var all := prefix + row;
    var before := prefix + row[..x];
    var next := prefix + row[..x + 1];
    var c := row[x];
    assert next == before + [c];
    assert before == all[..|before|] && next == all[..|next|];
    FirstSeenValues(before);
    FirstSeenValues(next);
    FirstSeenSnoc(before, c);
    FirstSeenPrefix(all, |next|);
    IndexOfPrefix(FirstSeen(next), colors, c);
  }

  /** ORing the bit that the packed bits hold at position x into a row that
      packs the bits before x packs the bits up to and including x. */
  lemma RowStep(bits: seq<bv8>, x: nat, row: bv8, b: bv8)
    requires |bits| == TileSize && x < TileSize
    requires row == PackRow(bits[..x]) && b == bits[x]
    ensures row | BitAt(b, x) == PackRow(bits[..x + 1])
  {
    PackRowStep(bits, x);
  }

  /** The palette look-up for a pixel of colour c at column x: scans the
      slots found so far (all distinct) and, at the slot holding c, ORs that
      slot's two bits into bit x of the row's plane bytes,
      `bit0[y] | (idx & 1) << x` and `bit1[y] | ((idx >> 1) & 1) << x`. */
  method LookUpColor(pal: array<Color>, colorsFound: nat, c: Color, x: nat, row0: bv8, row1: bv8)
    returns (inPalette: bool, new0: bv8, new1: bv8)
    requires pal.Length == PaletteSize && colorsFound <= PaletteSize && x < TileSize && Distinct(pal[..colorsFound])
    ensures inPalette <==> c in pal[..colorsFound]
    ensures inPalette ==> new0 == row0 | BitAt(LowBit(IndexOf(pal[..colorsFound], c)), x)
    ensures inPalette ==> new1 == row1 | BitAt(HighBit(IndexOf(pal[..colorsFound], c)), x)
    ensures !inPalette ==> new0 == row0 && new1 == row1
  {
    ghost var found := pal[..colorsFound];
    inPalette, new0, new1 := false, row0, row1;
    var i := 0;
    while i < colorsFound
      invariant 0 <= i <= colorsFound
      invariant inPalette <==> c in found[..i]
      invariant inPalette ==> (c in found &&
                  new0 == row0 | BitAt(LowBit(IndexOf(found, c)), x) &&
                  new1 == row1 | BitAt(HighBit(IndexOf(found, c)), x))
      invariant !inPalette ==> new0 == row0 && new1 == row1
    {
      if c == pal[i] {
        assert found[i] == c;
        IndexOfDistinct(found, i);
        inPalette := true;
        var lo: bv8 := (i as bv8) & 1;
        var hi: bv8 := ((i as bv8) >> 1) & 1;
        ShiftSlot(i, x);
        new0 := new0 | (lo << x);
        new1 := new1 | (hi << x);
      }
      assert found[..i + 1] == found[..i] + [found[i]];
      i := i + 1;
    }
    assert found[..i] == found;
  }

  /** A colour not yet in the palette takes the next free slot, colorsFound,
      and that slot's two bits are ORed into bit x of the row's plane bytes. */
  method AddColor(pal: array<Color>, colorsFound: nat, c: Color, x: nat, row0: bv8, row1: bv8)
    returns (new0: bv8, new1: bv8)
    requires pal.Length == PaletteSize && colorsFound < PaletteSize && x < TileSize
    modifies pal
    ensures pal[..] == old(pal[..])[colorsFound := c]
    ensures new0 == row0 | BitAt(LowBit(colorsFound), x)
    ensures new1 == row1 | BitAt(HighBit(colorsFound), x)
  {
    pal[colorsFound] := c;
    var lo: bv8 := (colorsFound as bv8) & 1;
    var hi: bv8 := ((colorsFound as bv8) >> 1) & 1;
    ShiftSlot(colorsFound, x);
    new0 := row0 | (lo << x);
    new1 := row1 | (hi << x);
  }

  /** The body of the x loop for one pixel of colour c at column x: look the
      colour up, add it when it is new, and leave in the row bytes the bits of
      the slot it ends up in. */
  method StorePixel(pal: array<Color>, row0: bv8, row1: bv8,
                    colorsFound: nat, x: nat, c: Color, ghost found: seq<Color>)
    returns (count: nat, new0: bv8, new1: bv8)
    requires pal.Length == PaletteSize && x < TileSize && colorsFound <= PaletteSize
    requires pal[..colorsFound] == found && Distinct(found)
    requires c !in found ==> colorsFound < PaletteSize
    modifies pal
    ensures count <= PaletteSize && pal[..count] == Extend(found, c)
    ensures forall k :: count <= k < PaletteSize ==> pal[k] == old(pal[k])
    ensures new0 == row0 | BitAt(LowBit(IndexOf(Extend(found, c), c)), x)
    ensures new1 == row1 | BitAt(HighBit(IndexOf(Extend(found, c), c)), x)
  {
    var inPalette;
    inPalette, new0, new1 := LookUpColor(pal, colorsFound, c, x, row0, row1);
    count := colorsFound;
    if !inPalette {
      new0, new1 := AddColor(pal, colorsFound, c, x, row0, row1);
      assert pal[..colorsFound + 1] == found + [c];
      assert IndexOf(found + [c], c) == colorsFound;
      count := colorsFound + 1;
    }
  }

  /** One pixel (x, y) of the x loop: pal[..count] holds the colours first
      seen in the pixels scanned before it (the earlier rows, prefix, then
      the row's first x pixels), and the row bytes hold the slots of the row's
      first x pixels; afterwards both take in pixel x. */
  method ScanPixel(img: seq<Color>, y: nat, x: nat, pal: array<Color>, count: nat,
                   row0: bv8, row1: bv8, ghost prefix: seq<Color>, ghost colors: seq<Color>)
    returns (count': nat, new0: bv8, new1: bv8)
    requires |img| == ImagePixels && y < TileSize && x < TileSize
    requires pal.Length == PaletteSize && count <= PaletteSize
    requires pal[..count] == FirstSeen(prefix + RowPixels(img, y)[..x])
    requires FirstSeen(prefix + RowPixels(img, y)) <= colors && |colors| <= PaletteSize
    requires row0 == PackRow(RowLowBits(colors, RowPixels(img, y))[..x])
    requires row1 == PackRow(RowHighBits(colors, RowPixels(img, y))[..x])
    modifies pal
    ensures count <= count' <= PaletteSize
    ensures pal[..count'] == FirstSeen(prefix + RowPixels(img, y)[..x + 1])
    ensures forall k :: count' <= k < PaletteSize ==> pal[k] == old(pal[k])
    ensures new0 == PackRow(RowLowBits(colors, RowPixels(img, y))[..x + 1])
    ensures new1 == PackRow(RowHighBits(colors, RowPixels(img, y))[..x + 1])
  {
    ghost var row := RowPixels(img, y);
    var c := img[8 * (7 - y) + x];
    assert c == row[x];
    PixelStep(prefix, row, colors, x);
    ghost var slot := SlotOf(colors, c);
    count', new0, new1 := StorePixel(pal, row0, row1, count, x, c, pal[..count]);
    RowStep(RowLowBits(colors, row), x, row0, LowBit(slot));
    RowStep(RowHighBits(colors, row), x, row1, HighBit(slot));
  }

  /** The x loop for tile row y: scans the row's eight pixels, extending the
      palette prefix pal[..colorsFound], the colours found in the rows scanned
      before, and packing the row's two bit planes by the slots the pixels
      have in the finished colour list (colors). */
  method BakeRow(img: seq<Color>, y: nat, pal: array<Color>, colorsFound: nat, ghost colors: seq<Color>)
    returns (count: nat, row0: bv8, row1: bv8)
    requires |img| == ImagePixels && y < TileSize
    requires pal.Length == PaletteSize && colorsFound <= PaletteSize
    requires pal[..colorsFound] == FirstSeen(ScanRows(img, y))
    requires FirstSeen(ScanRows(img, y + 1)) <= colors && |colors| <= PaletteSize
    modifies pal
    ensures colorsFound <= count <= PaletteSize
    ensures pal[..count] == FirstSeen(ScanRows(img, y + 1))
    ensures forall k :: count <= k < PaletteSize ==> pal[k] == old(pal[k])
    ensures row0 == PackRow(RowLowBits(colors, RowPixels(img, y)))
    ensures row1 == PackRow(RowHighBits(colors, RowPixels(img, y)))
  {
    ghost var prefix := ScanRows(img, y);
    ghost var row := RowPixels(img, y);
    assert ScanRows(img, y + 1) == prefix + row;
    ghost var lows, highs := RowLowBits(colors, row), RowHighBits(colors, row);
    count, row0, row1 := colorsFound, 0, 0;
    var x := 0;
    assert prefix + row[..0] == prefix;
    assert lows[..0] == [] && highs[..0] == [];
    while x < TileSize
      invariant 0 <= x <= TileSize && colorsFound <= count <= PaletteSize
      invariant pal[..count] == FirstSeen(prefix + row[..x])
      invariant forall k :: count <= k < PaletteSize ==> pal[k] == old(pal[k])
      invariant row0 == PackRow(lows[..x]) && row1 == PackRow(highs[..x])
    {
      count, row0, row1 := ScanPixel(img, y, x, pal, count, row0, row1, prefix, colors);
      x := x + 1;
    }
    assert row[..x] == row && lows[..x] == lows && highs[..x] == highs;
  }

  /** The scan of the first n + 1 rows stays within the sprite's colour list. */
  lemma ScanRowsWithin(img: seq<Color>, n: nat)
    requires |img| == ImagePixels && n < TileSize
    ensures FirstSeen(ScanRows(img, n + 1)) <= SpriteColors(img)
  {
    ScanRowsPrefix(img, n + 1, TileSize);
    assert ScanRows(img, n + 1) == ScanOrder(img)[..8 * (n + 1)];
    FirstSeenPrefix(ScanOrder(img), 8 * (n + 1));
  }

  /** Row y of the sprite's tile packs the slot bits of tile row y. */
  lemma SpriteTileRow(img: seq<Color>, y: nat)
    requires |img| == ImagePixels && y < TileSize
    ensures SpriteTile(img).bit0[y] == PackRow(RowLowBits(SpriteColors(img), RowPixels(img, y)))
    ensures SpriteTile(img).bit1[y] == PackRow(RowHighBits(SpriteColors(img), RowPixels(img, y)))
  {
    PlaneRow(img, SpriteColors(img), TileSize, y);
  }

  /** Four slots holding the sprite's colours, then transparent ones, are the
      sprite's palette. */
  lemma SpritePaletteSlots(img: seq<Color>, pal: seq<Color>, colorsFound: nat)
    requires |img| == ImagePixels && |Values(img)| <= PaletteSize
    requires |pal| == PaletteSize && colorsFound <= PaletteSize
    requires pal[..colorsFound] == SpriteColors(img)
    requires forall k :: colorsFound <= k < PaletteSize ==> pal[k] == Transparent
    ensures colorsFound == |Values(img)| && pal == SpritePalette(img)
  {
    SpriteColorsCount(img);
    var p := SpritePalette(img);
    forall k | 0 <= k < PaletteSize
      ensures pal[k] == p[k]
    {
      if k < colorsFound {
        assert pal[k] == pal[..colorsFound][k];
      }
    }
  }

  /** One pass of the row loop: bakes tile row y and stores it into the two
      bit-plane buffers. */
  method BakeTileRow(img: seq<Color>, y: nat, pal: array<Color>, bit0: array<bv8>, bit1: array<bv8>,
                     colorsFound: nat, ghost colors: seq<Color>)
    returns (count: nat)
    requires |img| == ImagePixels && y < TileSize && colors == SpriteColors(img) && |colors| <= PaletteSize
    requires pal.Length == PaletteSize && colorsFound <= PaletteSize
    requires bit0.Length == TileSize && bit1.Length == TileSize && bit0 != bit1
    requires pal[..colorsFound] == FirstSeen(ScanRows(img, y))
    requires forall k :: colorsFound <= k < PaletteSize ==> pal[k] == Transparent
    modifies pal, bit0, bit1
    ensures count <= PaletteSize
    ensures pal[..count] == FirstSeen(ScanRows(img, y + 1))
    ensures forall k :: count <= k < PaletteSize ==> pal[k] == Transparent
    ensures bit0[y] == LowPlane(img, colors, TileSize)[y] && bit1[y] == HighPlane(img, colors, TileSize)[y]
    ensures forall r :: 0 <= r < TileSize && r != y ==> bit0[r] == old(bit0[r]) && bit1[r] == old(bit1[r])
  {
    ScanRowsWithin(img, y);
    PlaneRow(img, colors, TileSize, y);
    var row0, row1;
    count, row0, row1 := BakeRow(img, y, pal, colorsFound, colors);
    ghost var found := pal[..count];
    bit0[y], bit1[y] := row0, row1;
    assert pal[..count] == found;
  }

  /** The sprite loop body of the baker: the palette and tile for one 8x8
      sprite, and the number of colours found. */
  method BakeSprite(img: seq<Color>) returns (palette: Palette, tile: Tile, colorsFound: nat)
    requires |img| == ImagePixels
    requires |Values(img)| <= PaletteSize
    ensures colorsFound == |Values(img)|
    ensures palette == SpritePalette(img)
    ensures palette[..colorsFound] == SpriteColors(img)
    ensures forall k :: colorsFound <= k < PaletteSize ==> palette[k] == Transparent
    ensures tile == SpriteTile(img)
  {
    var pal := new Color[PaletteSize](_ => Transparent);
    var bit0 := new bv8[TileSize](_ => 0);
    var bit1 := new bv8[TileSize](_ => 0);
    ghost var colors := SpriteColors(img);
    ghost var want0, want1 := LowPlane(img, colors, TileSize), HighPlane(img, colors, TileSize);
    SpriteColorsCount(img);
    colorsFound := 0;
    var y := 0;
    while y < TileSize
      invariant 0 <= y <= TileSize && colorsFound <= PaletteSize
      invariant pal[..colorsFound] == FirstSeen(ScanRows(img, y))
      invariant forall k :: colorsFound <= k < PaletteSize ==> pal[k] == Transparent
      invariant forall r :: 0 <= r < y ==> bit0[r] == want0[r] && bit1[r] == want1[r]
    {
      colorsFound := BakeTileRow(img, y, pal, bit0, bit1, colorsFound, colors);
      y := y + 1;
    }
    palette := pal[..];
    tile := Tile(bit0[..], bit1[..]);
    assert tile.bit0 == want0 && tile.bit1 == want1;
    assert palette[..colorsFound] == SpriteColors(img);
    SpritePaletteSlots(img, palette, colorsFound);
  }

  /** True when some pixel's blue channel is zero: the end marker of a room
      image's object records. */
  predicate HasSentinel(img: seq<Color>) {
    exists i :: 0 <= i < |img| && img[i].z == 0
  }

  /** Counts the leading pixels of a room image whose blue channel is non-zero:
      the position of the first pixel with blue channel zero. */
  method CountObjects(img: seq<Color>) returns (numObjects: nat)
    requires HasSentinel(img)
    ensures numObjects < |img| && img[numObjects].z == 0
    ensures forall j :: 0 <= j < numObjects ==> img[j].z != 0
  {
    numObjects := 0;
    while img[numObjects].z != 0
      invariant numObjects < |img|
      invariant forall j :: 0 <= j < numObjects ==> img[j].z != 0
      decreases |img| - numObjects
    {
      numObjects := numObjects + 1;
    }
  }

  /** The background palette: transparent, the first two pixels of the
      background image, transparent. */
  function BackgroundPalette(background: seq<Color>): (p: Palette)
    requires |background| >= 2
    ensures |p| == PaletteSize && p[0] == Transparent && p[3] == Transparent
    ensures p[1..3] == background[..2]
  {
    [Transparent, background[0], background[1], Transparent]
  }

  /** The sprite loop: sprite i's palette and tile go to slot i of the
      palette and tile tables; no other entry changes. */
  method BakeSprites(sprites: seq<seq<Color>>, palettes: array<Palette>, tiles: array<Tile>)
    requires palettes.Length == PaletteTableSize && tiles.Length == TileTableSize
    requires |sprites| <= BackgroundSlot
    requires forall i :: 0 <= i < |sprites| ==>
               |sprites[i]| == ImagePixels && |Values(sprites[i])| <= PaletteSize
    modifies palettes, tiles
    ensures forall j :: 0 <= j < |sprites| ==>
              palettes[j] == SpritePalette(sprites[j]) && tiles[j] == SpriteTile(sprites[j])
    ensures forall j :: |sprites| <= j < PaletteTableSize ==> palettes[j] == old(palettes[j])
    ensures forall j :: |sprites| <= j < TileTableSize ==> tiles[j] == old(tiles[j])
  {
    var i := 0;
    while i < |sprites|
      invariant 0 <= i <= |sprites|
      invariant forall j :: 0 <= j < i ==>
                  palettes[j] == SpritePalette(sprites[j]) && tiles[j] == SpriteTile(sprites[j])
      invariant forall j :: i <= j < PaletteTableSize ==> palettes[j] == old(palettes[j])
      invariant forall j :: i <= j < TileTableSize ==> tiles[j] == old(tiles[j])
    {
      var palette, tile, _ := BakeSprite(sprites[i]);
      palettes[i] := palette;
      tiles[i] := tile;
      i := i + 1;
    }
  }

  /** The room loop: for each room, count its objects up to the sentinel
      (the count is not used further) and store a blank tile in the slot
      after the sprites' tiles; no other entry changes. */
  method PlaceRoomTiles(rooms: seq<seq<Color>>, tiles: array<Tile>, first: nat)
    requires tiles.Length == TileTableSize && first + |rooms| <= TileTableSize
    requires forall i :: 0 <= i < |rooms| ==> HasSentinel(rooms[i])
    modifies tiles
    ensures forall j :: first <= j < first + |rooms| ==> tiles[j] == BlankTile
    ensures forall j :: 0 <= j < first ==> tiles[j] == old(tiles[j])
    ensures forall j :: first + |rooms| <= j < TileTableSize ==> tiles[j] == old(tiles[j])
  {
    var i := 0;
    while i < |rooms|
      invariant 0 <= i <= |rooms|
      invariant forall j :: first <= j < first + i ==> tiles[j] == BlankTile
      invariant forall j :: 0 <= j < first ==> tiles[j] == old(tiles[j])
      invariant forall j :: first + i <= j < TileTableSize ==> tiles[j] == old(tiles[j])
    {
      var numObjects := CountObjects(rooms[i]);
      tiles[first + i] := BlankTile;
      i := i + 1;
    }
  }

  /** The whole baking pass: the background palette goes to the last palette
      slot, sprite i's palette and tile to slot i, and each room gets a blank
      tile after the sprites. Entries nothing writes keep their zero value. */
  method BakeAssets(background: seq<Color>, sprites: seq<seq<Color>>, rooms: seq<seq<Color>>)
    returns (paletteTable: seq<Palette>, tileTable: seq<Tile>)
    requires |background| >= 2
    requires |sprites| <= BackgroundSlot
    requires |sprites| + |rooms| <= TileTableSize
    requires forall i :: 0 <= i < |sprites| ==>
               |sprites[i]| == ImagePixels && |Values(sprites[i])| <= PaletteSize
    requires forall i :: 0 <= i < |rooms| ==> HasSentinel(rooms[i])
    ensures |paletteTable| == PaletteTableSize && |tileTable| == TileTableSize
    ensures paletteTable[BackgroundSlot] == BackgroundPalette(background)
    ensures forall i :: 0 <= i < |sprites| ==>
              paletteTable[i] == SpritePalette(sprites[i]) && tileTable[i] == SpriteTile(sprites[i])
    ensures forall i :: |sprites| <= i < BackgroundSlot ==> paletteTable[i] == BlankPalette
    ensures forall i :: |sprites| <= i < TileTableSize ==> tileTable[i] == BlankTile
  {
    var palettes := new Palette[PaletteTableSize](_ => BlankPalette);
    var tiles := new Tile[TileTableSize](_ => BlankTile);
    palettes[BackgroundSlot] := BackgroundPalette(background);
    BakeSprites(sprites, palettes, tiles);
    PlaceRoomTiles(rooms, tiles, |sprites|);
    paletteTable := palettes[..];
    tileTable := tiles[..];
  }
}
