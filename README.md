# CreateTiles asset baker, modelled in Dafny

`CreateTiles.cpp` is the offline asset baker of a small PPU466 game. It reads
8x8 RGBA images and turns each sprite image into two things:

- a four-entry palette, filled with the image's colours in the order the scan
  first meets them;
- a tile of two bit planes, `bit0` and `bit1`, where bit `x` of row `y` holds
  bit 0 and bit 1 of the palette slot of pixel `data[8 * (7 - y) + x]`. Tile
  row 0 is the bottom image row.

It also places the background palette, built from the first two pixels of
the background image, in slot 7 of the palette table. It scans each room
image for the first pixel whose blue channel is zero and stores a blank tile
for the room after the sprites' tiles.

The project has three modules:

- `Ppu` (`ppu.dfy`) holds the slice of the PPU466 data model that the baker
  fills in. It has colours (`glm::u8vec4` as four bytes), palettes and tiles
  as two `bv8` planes. It also has the decoding a PPU applies to a tile:
  palette `[2 * bit1 + bit0]`. It packs bit rows with OR and proves the bit
  facts the baker relies on:
  - the source's `(i & 1) << x` shifts;
  - an OR changes only bit `x`;
  - a row, and a tile, are determined by their bits.
- `SeenColors` (`seen_colors.dfy`) defines `FirstSeen`, the distinct values
  of a sequence in first-occurrence order. It proves distinctness, counting,
  order and prefix-stability, plus the properties of `IndexOf`, the slot a
  colour occupies.
- `CreateTiles` (`create_tiles.dfy`) is the baker itself:
  - the specification functions `SpriteColors`, `SpritePalette` and
    `SpriteTile`;
  - the imperative baking loops over arrays (`LookUpColor`, `AddColor`,
    `StorePixel`, `ScanPixel`, `BakeRow`, `BakeTileRow`, `BakeSprite`), each
    proved against those functions;
  - the room scan (`CountObjects`);
  - the table placement (`BakeSprites`, `PlaceRoomTiles`, `BakeAssets`).

The central result is the round trip, `SpriteRoundTrip`: for a sprite with
at most four distinct colours, decoding the baked tile through the baked
palette gives back every source pixel. `SpriteTileUnique` adds that the baked
tile is the only tile storing those palette slots. `BakeSprite` is proved to
produce exactly `SpritePalette(img)` and `SpriteTile(img)`.

## Model

| member | source | states |
|---|---|---|
| Ppu.RowIndex | CreateTiles.cpp:79-80 | the two plane bits at position x together form a palette index below 4 |
| Ppu.ShiftIsBitAt | CreateTiles.cpp:81-82 | the source's `bit << x`, for a bit 0 or 1 and x < 8, is the byte with only bit x set to that bit |
| Ppu.ShiftReadsBit | CreateTiles.cpp:81-82 | reading back bit x of a plane row with `(row >> x) & 1` gives the bit stored at position x |
| Ppu.OrBit | CreateTiles.cpp:90-91 | ORing a bit into a clear position x sets bit x to that bit and leaves every other bit of the row unchanged |
| Ppu.RowDeterminedByBits | CreateTiles.cpp:65-66 | two plane rows with the same eight bits are equal |
| Ppu.TileDeterminedByIndices | CreateTiles.cpp:64-66 | two tiles storing the same palette index at all 64 pixels are the same tile |
| Ppu.PackRowBits | CreateTiles.cpp:81-82 | the row built by ORing `bits[x] << x` for x = 0, 1, … has bit x set exactly when bits[x] is 1, and no bit beyond the bits given |
| Ppu.PackRowStep | CreateTiles.cpp:90-91 | packing one more bit ORs it in at its own position |
| Ppu.PackRow | CreateTiles.cpp:81-82 | the row reached by ORing `bits[x] << x` into a zero row for x = 0, 1, …; its meaning, bit x is bits[x], is the contract of `Ppu.PackRowBits` |
| Ppu.DecodeShifts | CreateTiles.cpp:79-82 | decoding pixel (x, y) reads palette entry `((bit1[y] >> x) & 1) * 2 + ((bit0[y] >> x) & 1)`, the PPU's shift form of the index |
| SeenColors.ValuesBound | CreateTiles.cpp:69 | a sequence never has more distinct values than elements |
| SeenColors.DistinctSnoc | CreateTiles.cpp:86-93 | appending a colour not yet in the palette keeps the palette's entries distinct |
| SeenColors.Extend | CreateTiles.cpp:74-94 | after one pixel's step, the pixel's colour is among the colours found |
| SeenColors.FirstSeen | CreateTiles.cpp:69-96 | the scan never finds more colours than pixels scanned |
| SeenColors.FirstSeenValues | CreateTiles.cpp:74-94 | the colours found are pairwise distinct and are exactly the colours scanned |
| SeenColors.FirstSeenSnoc | CreateTiles.cpp:86-93 | one pixel more leaves the colours found alone if its colour was seen, and otherwise appends it as the next slot |
| SeenColors.IndexOf | CreateTiles.cpp:76-78 | the slot of a colour in the palette holds that colour |
| SeenColors.IndexOfFirst | CreateTiles.cpp:76-78 | no slot before a colour's slot holds that colour |
| SeenColors.IndexOfPrefix | CreateTiles.cpp:87 | a colour's slot stays the same as more colours are appended |
| SeenColors.DistinctNotBefore | CreateTiles.cpp:76-83 | in distinct palette entries, the colour of slot i does not occur before slot i |
| SeenColors.IndexOfDistinct | CreateTiles.cpp:76-83 | in distinct palette entries, the search loop's matching index i is the colour's slot: at most one slot matches a pixel |
| SeenColors.FirstSeenCount | CreateTiles.cpp:93 | the number of colours found equals the number of distinct colours scanned |
| SeenColors.FirstSeenHead | CreateTiles.cpp:70-72 | slot 0 holds the first colour scanned |
| SeenColors.FirstSeenPrefix | CreateTiles.cpp:86-93 | scanning further only appends: the slots found for a prefix of the scan keep their values and positions |
| SeenColors.FirstSeenOrder | CreateTiles.cpp:70-93 | the slots are ordered by first occurrence: slot i's colour appears in the scan before slot j's whenever i < j |
| SeenColors.FirstSeenReaches | CreateTiles.cpp:87 | a scan of more than n distinct colours meets a new colour at a point where exactly n colours are found |
| CreateTiles.RowPixels | CreateTiles.cpp:72 | tile row y reads the eight pixels `data[8 * (7 - y) + x]`, x = 0 … 7 |
| CreateTiles.Pixel | CreateTiles.cpp:72 | pixel (x, y) of the tile is `data[8 * (7 - y) + x]`; `CreateTiles.ScanRowsPixel` states where the scan visits it |
| CreateTiles.ScanRows | CreateTiles.cpp:70-71 | scanning n rows visits 8n pixels |
| CreateTiles.ScanRowsPixel | CreateTiles.cpp:70-72 | pixel (x, y) is visited at step 8y + x of the scan, y outer and x inner |
| CreateTiles.ScanRowsPrefix | CreateTiles.cpp:70-71 | the scan of the first n rows is a prefix of the scan of the first m >= n rows |
| CreateTiles.ScanRowsFromImage | CreateTiles.cpp:72 | every scanned pixel is a pixel of the image |
| CreateTiles.ScanOrderValues | CreateTiles.cpp:70-72 | the full scan holds exactly the image's colours |
| CreateTiles.SpriteColorsCount | CreateTiles.cpp:69-93 | a sprite gets one palette slot per distinct colour of its image |
| CreateTiles.SpriteColors | CreateTiles.cpp:86-93 | the colours `palette[0..colors_found)` holds after the scan: the distinct colours of the scan in first-seen order; `CreateTiles.SpriteColorsCount`, `SeenColors.FirstSeenValues` and `SeenColors.FirstSeenOrder` state what they are |
| CreateTiles.SpriteIndex | CreateTiles.cpp:76-93 | the palette slot a pixel's colour ends up in is in range and holds that pixel's colour |
| CreateTiles.LowBit | CreateTiles.cpp:79 | bit 0 of a slot number, `idx & 0b1`; `CreateTiles.SlotBits` proves it equal to the source's bv8 expression |
| CreateTiles.HighBit | CreateTiles.cpp:80 | bit 1 of a slot number, `(idx >> 1) & 0b1`; `CreateTiles.SlotBits` proves it equal to the source's bv8 expression |
| CreateTiles.LowPlane | CreateTiles.cpp:81 | the first n rows of `tile.bit0`: n rows, row y packing bit 0 of the slots of tile row y (`CreateTiles.PlaneRow`) |
| CreateTiles.HighPlane | CreateTiles.cpp:82 | the first n rows of `tile.bit1`: n rows, row y packing bit 1 of the slots of tile row y (`CreateTiles.PlaneRow`) |
| CreateTiles.SpritePalette | CreateTiles.cpp:57-62 | the baked palette has four entries |
| CreateTiles.SpriteTile | CreateTiles.cpp:64-66 | the baked tile has eight rows in each plane |
| CreateTiles.PlaneRow | CreateTiles.cpp:70-96 | row y of each plane packs the slot bits of tile row y's pixels |
| CreateTiles.SlotBits | CreateTiles.cpp:79-80 | for a slot below 4, `idx & 1` and `(idx >> 1) & 1` are its two bits, each 0 or 1, and they recombine to the slot |
| CreateTiles.ShiftSlot | CreateTiles.cpp:88-91 | the source's `(idx & 1) << x` and `((idx >> 1) & 1) << x`, for a slot below 4, are the slot's two bits placed at position x |
| CreateTiles.SpriteTileIndex | CreateTiles.cpp:70-96 | with at most four colours, the baked tile stores at pixel (x, y) exactly the palette slot of that pixel's colour |
| CreateTiles.SpriteRoundTrip | CreateTiles.cpp:70-96 | with at most four colours, decoding the baked tile through the baked palette gives back `data[8 * (7 - y) + x]` at every (x, y) |
| CreateTiles.SpriteTileUnique | CreateTiles.cpp:64-96 | any tile storing each pixel's slot is the baked tile |
| CreateTiles.SpritePaletteFirst | CreateTiles.cpp:70-72 | palette slot 0 holds `data[56]`, the first pixel scanned, whatever its colour |
| CreateTiles.FifthColorOverflows | CreateTiles.cpp:87 | an image with more than four colours reaches a new colour while four slots are taken, where `palette[colors_found]` would write `palette[4]` |
| CreateTiles.PixelStep | CreateTiles.cpp:72-94 | one pixel's step: the colours found stay distinct, a new colour always finds a free slot, and the pixel's slot is its slot in the final colour list |
| CreateTiles.RowStep | CreateTiles.cpp:81-82 | ORing pixel x's bit into the row built from pixels 0 … x-1 gives the row built from pixels 0 … x |
| CreateTiles.LookUpColor | CreateTiles.cpp:76-84 | `in_palette` is set exactly when the colour is in `palette[0..colors_found)`; then both plane rows get the matching slot's bits ORed in at x, and otherwise they are unchanged |
| CreateTiles.AddColor | CreateTiles.cpp:86-94 | a new colour is written to slot `colors_found` and only there, and that slot's two bits are ORed into the rows at x |
| CreateTiles.StorePixel | CreateTiles.cpp:74-94 | after a pixel, the palette prefix is the colours found extended by the pixel's colour, later slots are untouched, and the rows hold the bits of the colour's slot |
| CreateTiles.ScanPixel | CreateTiles.cpp:71-94 | one iteration of the x loop keeps the palette prefix equal to the colours first seen in the pixels scanned, and the rows equal to the packed slot bits of the row's pixels so far |
| CreateTiles.BakeRow | CreateTiles.cpp:71-95 | the x loop leaves the colours first seen in rows 0 … y in the palette, later slots untouched, and returns row y of both planes |
| CreateTiles.ScanRowsWithin | CreateTiles.cpp:70-96 | the colours found in the first rows are a prefix of the sprite's final colour list |
| CreateTiles.SpriteTileRow | CreateTiles.cpp:70-96 | row y of the sprite's tile packs the slot bits of tile row y's pixels |
| CreateTiles.SpritePaletteSlots | CreateTiles.cpp:57-62 | a palette that holds the sprite's colours followed by transparent entries is the sprite's palette, and the count is the number of distinct colours |
| CreateTiles.BakeTileRow | CreateTiles.cpp:70-96 | one iteration of the y loop extends the palette to the colours of rows 0 … y, writes row y of both planes, and changes no other row |
| CreateTiles.BakeSprite | CreateTiles.cpp:54-110 | for a sprite with at most four colours, the loops yield exactly the specified palette and tile; `colors_found` is the number of distinct colours, and slots from `colors_found` to 3 stay transparent |
| CreateTiles.CountObjects | CreateTiles.cpp:126-130 | `num_objects` ends at the first pixel whose blue channel is zero; every pixel before it has a non-zero blue channel |
| CreateTiles.HasSentinel | CreateTiles.cpp:127 | some pixel of a room image has blue channel `z == 0`, the condition the `while` loop stops on |
| CreateTiles.BackgroundPalette | CreateTiles.cpp:45-50 | the background palette is transparent, `data[0]`, `data[1]`, transparent |
| CreateTiles.BakeSprites | CreateTiles.cpp:54-110 | sprite i's palette and tile land at slot i of the palette and tile tables; all other entries are unchanged |
| CreateTiles.PlaceRoomTiles | CreateTiles.cpp:112-133 | room i's tile slot `num_sprites + i` holds the all-zero tile; all other entries are unchanged |
| CreateTiles.BakeAssets | CreateTiles.cpp:20-133 | the tables have 8 and 256 entries; the background palette is in slot 7 and sprite i's palette and tile in slot i; every other entry keeps its zero value |

## Left out

- Image loading (`load_png`, `data_path`) and writing the tables
  (`write_chunk` into `tiles.bin`) are I/O. Images are parameters of type
  `seq<Color>`, and `BakeAssets` returns the two tables instead of writing
  them.
- Console output (the greeting and the palette and tile dumps) is
  diagnostic only.
- The six sprite paths and one room path are generalised to any number of
  sprites, at most 7 so the background slot stays free, and any number of
  rooms that fit in the tile table.
- BakeSprite: requires at most four distinct colours. The source does not
  check this and writes `palette[4]` past the end of the palette on a fifth
  colour, which is undefined behaviour. `FifthColorOverflows` shows the scan
  reaches that write.
- CountObjects: requires a pixel with a zero blue channel, because the
  source's `while` loop has no bound check and reads past the image
  otherwise.
- Sprite images are taken to hold exactly 64 pixels, as the source's
  `data[8 * (7 - y) + x]` indexing assumes. The background image needs only
  the two pixels it reads.
- The palette built for each room is never stored or used, so it is not
  modelled. `num_objects` is computed and then dropped. `PlaceRoomTiles` still
  runs `CountObjects`, so the sentinel requirement stays visible.
- BakeRow: the source ORs each pixel's bits straight into `tile.bit0[y]` and
  `tile.bit1[y]`. The model ORs them into two local bytes and stores the
  finished row into the bit-plane arrays once per row. Both rows start at
  zero, so the stored value is the same.
- `uint8_t` loop counters never wrap, because they stay below 8. The two
  slot bits are computed on `bv8` exactly as the source does.
- PPU466.hpp is not part of this model. `Ppu.Decode` states the PPU's
  documented reading of a tile through a palette, which is what the round
  trip is about.
- PlayMode.cpp and Room.hpp are not modelled. They load the tables back, set
  constant tiles and run the game loop, none of which is part of the baker.
