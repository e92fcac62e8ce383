# TurnsTile and CLUTer, modelled in Dafny

TurnsTile is a plugin for the AviSynth video host with two filters:

- **TurnsTile** splits every frame into a grid of tiles. For each grid cell it samples one byte of the cell. It turns that byte into a tile index and copies that tile of a "tilesheet" clip into the cell.
- **CLUTer** maps every pixel to the nearest colour of a palette frame. Nearest means the sum of absolute component differences, with ties going to the smallest packed key. It does this through three lookup tables of 2^24 entries each.

The plugin also ships:

- two source filters, `TurnsTileBmpSource` and `TurnsTileTestSource`, which load BMP, EBMP and PNG files as single-frame clips;
- the string helpers of its test suite.

This project models the integer and byte-buffer logic of all of these and proves what the code promises about it. The modules are:

| file | module | models |
|---|---|---|
| `raster.dfy` | `Raster` | Byte buffers with a pitch. Offsets are stated as `Idx(pitch, row, column)`. `Filled(s, orig, pitch, done, want)` says that buffer `s` is `orig` with exactly the `done` positions set to `want`. Every in-place copy below is proved against it. |
| `palette.dfy` | `Palette` | Packed 24-bit keys, the distance, and the nearest-entry scan of `fillComponentVectors` as a function. Also its argmin, tie-break and fixed-point properties, the sort-and-unique step, and the table invariant. |
| `cluter.dfy` | `Cluter` | The `CLUTer` class: its constructor (`lumaW`/`lumaH` selection), palette extraction from packed and planar frames, the table build, and the packed and planar frame mappers. These work in place on arrays. |
| `interface.dfy` | `Interface` | `Create_TurnsTile` and `Create_CLUTer`: minimum tile sizes, the default tile search loop, the square-tile preference, the validation chain against the greatest common factor, and the `lotile`/`hitile` clamps. |
| `turnstile.dfy` | `Tiling` | The `TurnsTile` 0.1.0 constructor checks and fields, the tile-index to sheet-cell mapping (with the RGB row flip), the sampling point, and the block copy of `GetFrame` into the destination array. |
| `bmp.dfy` | `Bmp` | The BMP header fields (little-endian reads with their C types), the planes/bits dispatch, the `BM` check, `PITCH_BUF`, and the packed and planar row copies. |
| `testsource.dfy` | `TestSource` | File classification (BMP, EBMP, PNG signature), the PNG pixel type, the bottom-up RGBA to BGRA row conversion, and `SetCacheHints`. |
| `util.dfy` | `TestUtil` | `SplitError`, the lower-case hex form of the MD5 digest, and the order in which a frame's rows are fed to the hash. |

`TurnsTileTestSource` contains its own copies of `DecodeBmp`, `DecodeBmpPacked` and `DecodeBmpPlanar` (src/TurnsTileTestSource.cpp:60-167). They are the same code as in `TurnsTileBmpSource` (src/TurnsTileBmpSource.cpp:66-206) and are modelled once, in `Bmp`.

## Model

| member | source | states |
|---|---|---|
| Palette.Pack | src/CLUTer.cpp:238 | `(a << 16) \| (b << 8) \| c` of three bytes is a key below 2^24 |
| Palette.UnpackPack | src/CLUTer.cpp:405-407 | shifting and masking a packed key gives back the three components |
| Palette.PackUnpack | src/CLUTer.cpp:403-407 | every input key `i < 2^24` is the packing of its own components, so the 2^24 loop covers every colour once |
| Palette.PackInjective | src/CLUTer.cpp:191-200 | two packed keys are equal exactly when their components are |
| Palette.DistanceZero | src/CLUTer.cpp:419-421 | the sum of absolute component differences is 0 exactly when the two keys are equal |
| Palette.ScanIndex | src/CLUTer.cpp:423-442 | after `n` entries, the scan's choice is at distance at most that of every entry seen, and strictly below that of every earlier entry (strict `<` keeps the first minimum) |
| Palette.Nearest | src/CLUTer.cpp:409-442 | the entry the scan settles on is a palette member and a 24-bit key |
| Palette.NearestIsClosest | src/CLUTer.cpp:419-440 | on a sorted, deduplicated palette, `q` is the scan's result if and only if no entry is closer and every equally close entry is a larger key |
| Palette.NearestFixedPoint | src/CLUTer.cpp:419-440 | a palette key maps to itself |
| Palette.ClosestMatch | src/CLUTer.cpp:409-442 | the inner loop (start from `(*plt)[0]`, replace on strictly smaller `sumCur`) returns `Nearest` |
| Palette.SortUnique | src/CLUTer.cpp:396-397 | sort then unique gives a strictly ascending sequence holding exactly the keys of the input |
| Palette.TablePrefixStep | src/CLUTer.cpp:444-446 | pushing the three components of the chosen entry for key `n` extends the tables' prefix invariant to `n + 1` |
| Palette.TableEntry | src/CLUTer.cpp:403-448 | for every key `k`, repacking `vecYR[k]`, `vecUG[k]`, `vecVB[k]` gives the nearest entry, a member of the palette |
| Palette.TableIsClosest | src/CLUTer.cpp:403-448 | the repacked table entry for `k` is the closest palette entry with ties to the smallest key, and a palette key is mapped to itself |
| Palette.TableDeterministic | src/CLUTer.cpp:403-448 | the tables are determined by the palette alone |
| Palette.SingleEntry | src/CLUTer.cpp:409-442 | a one-colour palette maps every input to that colour |
| Palette.BlackWhite | src/CLUTer.cpp:419-440 | with palette {black, white}, grey 100 maps to black and grey 200 to white |
| Cluter.LumaBlocks | src/CLUTer.cpp:82-91 | `lumaW`/`lumaH` are 2x2 for YV12, 2x1 for YUY2, and 1x1 for RGB and luma-only input |
| Cluter.ChromaSize | src/CLUTer.cpp:96-98 | the chroma plane size passed to `buildPalettePlanar` is `width / lumaW` by `height / lumaH` |
| Cluter.PixelKeys | src/CLUTer.cpp:184-200 | a YUY2 macropixel gives two keys and an RGB pixel one |
| Cluter.PixelStep | src/CLUTer.cpp:179-204 | each step of the packed scan reads inside the buffer and appends that pixel's keys to the row's keys |
| Cluter.PackedKeysAreKeys | src/CLUTer.cpp:175-206 | every key extracted from a packed frame is a 24-bit key |
| Cluter.RowKeysCount | src/CLUTer.cpp:179-204 | a row of `w` pixels gives `w` keys (two per two-pixel macropixel for YUY2) |
| Cluter.PackedKeysCount | src/CLUTer.cpp:175-206 | `h` rows give `width * h` keys |
| Cluter.PackedKeysUsable | src/CLUTer.cpp:175-208 | a non-empty packed palette frame yields a non-empty list of keys, so `(*plt)[0]` exists |
| Cluter.Yuy2MacropixelKeys | src/CLUTer.cpp:184-192 | macropixel Y1=50, U=60, Y2=70, V=80 registers (50,60,80) and then (70,60,80) |
| Cluter.StepBytes | src/CLUTer.cpp:225-230 | a step of `lumaW` pixels moves 4 bytes for YUY2 and `spp` bytes for RGB |
| Cluter.Rgb32Alpha | src/CLUTer.cpp:245-255 | in an RGB32 row, the mapper's three writes miss exactly the fourth byte of the pixel |
| Cluter.LumaStep | src/CLUTer.cpp:299-306 | each luma sample of the planar scan lies in the buffer, and its key (sample, block's U, block's V) is appended |
| Cluter.ChromaStep | src/CLUTer.cpp:290-297 | U and V are read at the U plane's pitch from the present planes, and count as 0 for an absent plane |
| Cluter.PlanarKeysAreKeys | src/CLUTer.cpp:277-312 | every key extracted from a planar frame is a 24-bit key |
| Cluter.PlanarKeysCount | src/CLUTer.cpp:277-312 | a planar frame yields one key per luma sample |
| Cluter.PlanarRowKeysCount | src/CLUTer.cpp:282-310 | a chroma row of `wu` blocks yields `lumaW * lumaH` keys per block |
| Cluter.BlockKeysCount | src/CLUTer.cpp:299-308 | the first `i` luma rows of a block yield `i * lumaW` keys |
| Cluter.PlanarKeysUsable | src/CLUTer.cpp:277-314 | a planar palette frame with at least one block yields a non-empty list of keys |
| Cluter.KeyAt | src/CLUTer.cpp:351-360 | the key of a planar block is its top-left luma sample with the block's chroma |
| Cluter.LumaWantAt | src/CLUTer.cpp:378-380 | every luma sample of a block is wanted as the table luma of the block's key |
| Cluter.PackedDoneNext | src/CLUTer.cpp:225-259 | one pixel step of the packed mapper adds exactly the run of bytes it writes to the written region |
| Cluter.WantInUnit | src/CLUTer.cpp:232-255 | the byte wanted at a column is the output for the pixel or macropixel holding that column |
| Cluter.RunOnly | src/CLUTer.cpp:240-255 | the writes for one pixel touch no byte outside its run |
| Cluter.CLUTer.constructor | src/CLUTer.cpp:49-103 | sets `spp`, `lumaW`, `lumaH` and the colourspace flags, extracts the keys (packed or planar), and leaves the filter valid: the palette is strictly ascending, holds exactly the extracted keys, and the tables hold the nearest entry of every key |
| Cluter.CLUTer.BuildPalettePacked | src/CLUTer.cpp:167-210 | the keys read are `PackedKeys` of the whole frame, and afterwards the filter is valid |
| Cluter.CLUTer.ReadPackedKeys | src/CLUTer.cpp:175-206 | the row loop appends, row by row, the keys of every row |
| Cluter.CLUTer.ReadRowKeys | src/CLUTer.cpp:177-204 | the pixel loop appends the keys of row `h`, left to right, in steps of `lumaW` |
| Cluter.CLUTer.BuildPalettePlanar | src/CLUTer.cpp:267-316 | the keys read are `PlanarKeys` of every chroma row, and afterwards the filter is valid |
| Cluter.CLUTer.ReadPlanarKeys | src/CLUTer.cpp:277-312 | the chroma-row loop appends the keys of every block, top to bottom |
| Cluter.CLUTer.ReadChromaRow | src/CLUTer.cpp:279-310 | one chroma row appends the keys of its blocks, left to right |
| Cluter.CLUTer.ReadBlock | src/CLUTer.cpp:299-308 | the two luma loops of a block append `lumaH` rows of its keys |
| Cluter.CLUTer.ReadBlockRow | src/CLUTer.cpp:301-306 | one luma row of a block appends `lumaW` keys with the block's U and V |
| Cluter.CLUTer.FillComponentVectors | src/CLUTer.cpp:390-450 | the palette becomes the sorted, deduplicated keys (same set, non-empty); each table grows by exactly 2^24 entries, earlier entries unchanged; the new entries are `IsTable`: entry `i` holds the components of `Nearest(palette, i)` |
| Cluter.CLUTer.ProcessFramePacked | src/CLUTer.cpp:214-263 | on return, the destination is its old contents with exactly the bytes of every row's `rowSize` replaced by the mapped pixel, except the fourth byte of RGB32 pixels. An RGB pixel is keyed by (R, G, B), and its B, G and R bytes get the key's `vecVB`, `vecUG` and `vecYR` entries. A YUY2 macropixel is keyed by Y1,U,V and gets Y,U,Y,V, the same luma in both Y bytes |
| Cluter.CLUTer.MapRow | src/CLUTer.cpp:220-261 | one row of the packed mapper extends the written region from the start of row `h` to the start of row `h + 1` |
| Cluter.CLUTer.MapStep | src/CLUTer.cpp:225-259 | one pixel (RGB) or macropixel (YUY2) step extends the written region by its run, and the next `w` stays a macropixel boundary |
| Cluter.CLUTer.MapPixel | src/CLUTer.cpp:232-257 | the writes for one pixel are exactly the table bytes for its key, at the positions the source uses |
| Cluter.CLUTer.ProcessFramePlanar | src/CLUTer.cpp:320-386 | on return, every luma sample holds the table luma of its block's key. Where a destination chroma plane exists, every chroma sample holds the table U (resp. V) of that key. Every other byte is unchanged |
| Cluter.CLUTer.PlanarDone | src/CLUTer.cpp:332-384 | once all chroma rows are mapped, the written regions are the whole luma plane and the whole chroma planes |
| Cluter.CLUTer.MapBlockRow | src/CLUTer.cpp:340-382 | one chroma row of blocks extends the written regions by that band of luma rows and that chroma row |
| Cluter.CLUTer.BandDone | src/CLUTer.cpp:332-384 | the end of chroma row `h` is the start of chroma row `h + 1` |
| Cluter.CLUTer.MapBlock | src/CLUTer.cpp:342-380 | one block writes its chroma sample (where present) and all `lumaW * lumaH` luma samples with the table bytes of its key |
| Cluter.CLUTer.BlockDone | src/CLUTer.cpp:378-380 | the end of a block's luma rows is the start of the next block |
| Cluter.CLUTer.MapChroma | src/CLUTer.cpp:366-369 | U and V are written at the chroma offset only when their destination plane exists |
| Cluter.CLUTer.MapLumaRow | src/CLUTer.cpp:378-380 | one luma row of a block gets `lumaW` copies of the table luma |
| Interface.MinTileW | src/interface.cpp:52 | the minimum tile width is 2 exactly for YUY2 and YV12, otherwise 1 |
| Interface.MinTileH | src/interface.cpp:112-114 | the minimum tile height is 4 exactly for interlaced YV12, 1 exactly for progressive non-YV12, otherwise 2 |
| Interface.GcdDivides | src/interface.cpp:157-158 | the greatest common factor of two sizes, not both 0, is positive and divides both |
| Interface.GcdGreatest | src/interface.cpp:157-158 | every common divisor divides the greatest common factor |
| Interface.StartTile | src/interface.cpp:118-119 | the search starts at `(16 / min) * min`, a multiple of `min` between `min` and 16 |
| Interface.LargestFit | src/interface.cpp:121-125 | the search ends at a multiple of `min` that divides the clip's size (and the sheet's), at most where it started |
| Interface.LargestFitIsLargest | src/interface.cpp:121-125 | no larger multiple of `min`, up to the start, divides both sizes |
| Interface.DefaultTile | src/interface.cpp:121-125 | the descending loop (step `min`) stops at `LargestFit`, and terminates because `min` itself fits |
| Interface.Square | src/interface.cpp:249-253 | the width becomes the height only when the height fits the width's dimensions and is a multiple of `minTileW`, and symmetrically for the height |
| Interface.SquareAsWritten | src/interface.cpp:131-135 | with a tilesheet, the width becomes the height whenever the height divides both widths, with no multiple check |
| Interface.TileCheck | src/interface.cpp:142-182 | no error exactly when both sizes are accepted; otherwise the first failing check of the eight, in the source's order, each with its own error |
| Interface.AcceptedFits | src/interface.cpp:157-182 | an accepted size divides the clip's dimension and the sheet's |
| Interface.FitAccepted | src/interface.cpp:142-182 | a multiple of the minimum that divides both dimensions passes all the checks |
| Interface.DefaultsAccepted | src/interface.cpp:233-297 | with no tile arguments, the searched and squared defaults pass every tile check. Without a tilesheet this is the source as written. With a tilesheet it holds for the corrected square-tile preference only (see "## Findings") |
| Interface.ClampLo | src/interface.cpp:191-193 | `lotile` defaults to 0 and is clamped into `[0, max]`; a value already in range is kept |
| Interface.ClampHi | src/interface.cpp:195-197 | `hitile` defaults to `max` and is clamped into `[0, max]`; a value already in range is kept |
| Interface.SheetPrechecks | src/interface.cpp:66-99 | passing means matching colourspaces, a mode allowed for the colourspace, even interlaced heights, and mod-4 interlaced YV12 heights. An interlaced YV12 clip whose height is not mod 4 is refused with that error, and a mismatch error means the colourspaces differ |
| Interface.CreateWithSheet | src/interface.cpp:56-219 | as written, with the square-tile preference of src/interface.cpp:131-135: the precheck error comes first. On success the mode is in range, and both tile sizes (the height before halving) are accepted against the greatest common factors and divide both clips. The height passed on is at least 1, `lotile <= hitile`, and for a non-empty sheet both lie in `[0, sheetTiles - 1]` |
| Interface.CreateWithSheetCorrected | src/interface.cpp:56-219 | the same guarantees as `CreateWithSheet`, for the tilesheet overload with the square-tile preference of src/interface.cpp:249-253, which keeps the defaults multiples of the minimum |
| Interface.SheetExplicitTilesAgree | src/interface.cpp:131-138 | when both tile sizes are given, the as-written and the corrected tilesheet overloads give the same result |
| Interface.SheetTileParams | src/interface.cpp:137-215 | the part after the prechecks and the default choice, for given default tile sizes: the first tile check that fails is the error, the width and the full height passed on are the given ones, and on success the same guarantees about tile sizes and tile range hold, with the interlacing flag and mode passed through |
| Interface.SheetHoldsATile | src/interface.cpp:186-189 | accepted tile sizes leave a non-empty sheet with at least one tile, so `tileIdxMax >= 0` |
| Interface.HalfTile | src/interface.cpp:202-203 | an accepted interlaced tile height is even, so halving it gives a height of at least 1 and loses nothing |
| Interface.ClipPrechecks | src/interface.cpp:225-229 | passing exactly when not interlaced, or the height is even and, for YV12, mod 4 |
| Interface.CreateWithoutSheet | src/interface.cpp:221-323 | on success the tile sizes are accepted against the clip's own dimensions, and `lotile`/`hitile` lie in `[0, 255]` without an ordering check; it fails exactly when a precheck or a tile check fails |
| Interface.CreateTurnsTile | src/interface.cpp:35-325 | an unsupported colourspace is the error exactly when it occurs; a mode is passed exactly when there is a tilesheet |
| Interface.SheetDefaultsSucceed | src/interface.cpp:56-219 | for the corrected tilesheet overload: with no tile size or range given, a call that passes the prechecks succeeds |
| Interface.ClipDefaultsSucceed | src/interface.cpp:221-323 | without a tilesheet and no tile size given, a call that passes the prechecks succeeds |
| Interface.DefaultsRefusedAsWritten | src/interface.cpp:118-170 | as written, a YUY2 30x15 clip and sheet with no tile arguments gets default tiles 15x15 and is refused with "tilew must be a multiple of 2", both by the tile check and by the whole `CreateWithSheet` call; the corrected call succeeds with 10x15 tiles |
| Interface.CreateCluter | src/interface.cpp:329-360 | succeeds exactly when the colourspace is supported and shared with the palette and, when interlaced, the height is even (mod 4 for YV12). An unsupported colourspace and a mismatch are reported as such exactly when they are the first failure. The palette frame defaults to 0 |
| Tiling.TurnsTile.SheetCell | src/TurnsTile.cpp:198-207 | the sheet cell of tile `idx < sheetTiles` lies in the sheet, and numbering cells row by row from the top (from the bottom of the buffer for RGB) gives `idx` back |
| Tiling.TurnsTile.SheetCellIs | src/TurnsTile.cpp:198-206 | the cell is `(idx / sheetCols, idx % sheetCols)`, with the row flipped to `sheetRows - 1 - row` for RGB |
| Tiling.ConstructAsWritten | src/TurnsTile.cpp:34-95 | divides by zero exactly when the first failing guard is a zero `tileW` or `tileH` reached by the remainder checks; a built filter has `tileW >= minTileW` and `tileH >= 1` |
| Tiling.Construct | src/TurnsTile.cpp:34-95 | succeeds exactly when the colourspaces are RGB or YUY2 and equal, the tile fits and divides both clips, `tileW >= minTileW` (even for YUY2), `tileH >= 1`, and not mode 4 with RGB24; a built filter is `Valid`, keeps the tile size, and its grid satisfies `srcCols * tileW == width`, `srcRows * tileH == height` and the same for the sheet |
| Tiling.ZeroTileDividesByZero | src/TurnsTile.cpp:52-60 | as written, `tileW = 0` reaches `% tileW`; the corrected order refuses it as below the minimum |
| Tiling.OddYuy2TileOverruns | src/TurnsTile.cpp:211-229 | as written, a YUY2 tile 3 pixels wide is accepted, and the copy step at pixel 2 moves bytes past the tile's 6 |
| Tiling.Yuy2SampleMisplaced | src/TurnsTile.cpp:145-164 | as written, a YUY2 tile 2 pixels wide is sampled at its second pixel: mode 2 reads V and mode 3 reads past the cell |
| Tiling.SampleInCell | src/TurnsTile.cpp:145-175 | at the corrected sampling point every byte a mode reads lies in the cell's line and byte range, and for YUY2 at the start of a macropixel |
| Tiling.InTile | src/TurnsTile.cpp:145-148 | the middle pixel's offset leaves room in the tile for the bytes the modes read |
| Tiling.CellWant | src/TurnsTile.cpp:206-244 | every byte of an output cell is wanted from the matching byte of the picked sheet cell, which lies inside the sheet |
| Tiling.WantCell | src/TurnsTile.cpp:211-244 | the wanted byte at a frame position is byte `(h, j)` of the tile picked for its cell |
| Tiling.StepIsPixels | src/TurnsTile.cpp:87-93 | each copy step moves `wStep * bytesPerPixel` bytes (4 for RGB32 and YUY2, 3 for RGB24), and a tile is a whole number of steps |
| Tiling.DrawnNext | src/TurnsTile.cpp:229-235 | copying byte `j` of line `h` adds exactly that byte to the drawn region |
| Tiling.CopyStep | src/TurnsTile.cpp:215-235 | one copy step writes the `n` bytes of the step from the sheet into the frame and extends the drawn region by them |
| Tiling.CopyLine | src/TurnsTile.cpp:213-242 | the pixel loop draws line `h` of the cell |
| Tiling.CopyTile | src/TurnsTile.cpp:209-249 | the line loop draws the whole cell from the tile at `cropTop`/`cropLeft` |
| Tiling.CropIs | src/TurnsTile.cpp:198-207 | `cropTop` and `cropLeft` are the corner of the sheet cell of the tile index |
| Tiling.CopyCell | src/TurnsTile.cpp:135-249 | the body of the column loop draws cell `(row, col)` and moves the drawn region to the next cell |
| Tiling.CopyRow | src/TurnsTile.cpp:131-251 | the column loop draws every cell of grid row `row` |
| Tiling.GetFrame | src/TurnsTile.cpp:106-266 | on return the destination is its old contents with every byte of the `srcRows x srcCols` grid replaced by the corresponding byte of the tile picked for its cell; the sheet is only read |
| Tiling.GetFrameBytes | src/TurnsTile.cpp:206-244 | byte `j` of line `h` of every cell equals the sheet byte at line `cropTop + h`, byte `cropLeft + j` of the picked tile |
| Tiling.WantedByte | src/TurnsTile.cpp:206-244 | the wanted byte of a cell position is read inside the sheet at the picked tile's corner plus the offset |
| Bmp.U16 | src/TurnsTileBmpSource.cpp:144-156 | a little-endian 16-bit read is below 2^16 |
| Bmp.U32 | src/TurnsTileBmpSource.cpp:144-146 | a little-endian 32-bit read is below 2^32 |
| Bmp.Signed | src/TurnsTileBmpSource.cpp:148-153 | the two's-complement reading lies in `[-half, half)` and is negative exactly when the top bit is set |
| Bmp.Unsigned | src/TurnsTileBmpSource.cpp:148-153 | the bit pattern of a signed value reads back as that value |
| Bmp.S16 | src/TurnsTileBmpSource.cpp:151-156 | a `short int` read is in range, and is 0 exactly when both its bytes are 0 |
| Bmp.S32 | src/TurnsTileBmpSource.cpp:148-149 | an `int` read is in range |
| Bmp.U16At | src/TurnsTileBmpSource.cpp:151-156 | reading back the two bytes of a value gives the value |
| Bmp.U32At | src/TurnsTileBmpSource.cpp:144-149 | reading back the four bytes of a value gives the value |
| Bmp.ParseHeader | src/TurnsTileBmpSource.cpp:144-156 | the fields are in the ranges of their C types; compression reads as 0 exactly when bytes 30 and 31 are 0 |
| Bmp.HeaderRoundTrip | src/TurnsTileBmpSource.cpp:144-156 | parsing the bytes of a header gives that header back, whatever follows it |
| Bmp.OpenFile | src/TurnsTileBmpSource.cpp:120-123 | the empty string exactly for a buffer starting with `BM`, and otherwise the "Input must be BMP or EBMP!" message |
| Bmp.Dispatch | src/TurnsTileBmpSource.cpp:161-179 | a pixel type is returned only with its own planes and bit count; otherwise the error names the bits (1 or 3 planes) or the planes |
| Bmp.DispatchComplete | src/TurnsTileBmpSource.cpp:161-179 | each of BGR32, BGR24, YUY2 and YV12 is accepted with its own planes and bits |
| Bmp.LoadHeader | src/TurnsTileBmpSource.cpp:139-179 | nonzero compression is refused first. Otherwise the load succeeds exactly when the dispatch does. On success the video info has the header's width and height, the dispatched type, and 240 frames at 24/1 fps |
| Bmp.ReadBmp | src/TurnsTileBmpSource.cpp:129-179 | a file without `BM` is refused with the open error, then the compression and dispatch checks apply in order; success exactly when all pass |
| Bmp.ReadHeaderBytes | src/TurnsTileBmpSource.cpp:129-179 | an uncompressed header with the planes and bits of a type loads as that type with the header's size |
| Bmp.PitchBuf | src/TurnsTileBmpSource.cpp:195 | `ceil((bits / 8) * width / 4.0) * 4` is the least multiple of 4 at least `(bits / 8) * width` |
| Bmp.CopyStep | src/TurnsTileBmpSource.cpp:71-73 | storing one byte of the row copy extends the copied region by it |
| Bmp.DecodeBmpPacked | src/TurnsTileBmpSource.cpp:66-75 | on return, `dst[PITCH * i + j] = buf[ofsData + PITCH_BUF * i + j]` for every `i < HEIGHT`, `j < ROW_SIZE`, and every other byte is unchanged |
| Bmp.CopiedBytes | src/TurnsTileBmpSource.cpp:66-75 | a finished row copy holds each source byte at its pitched position, and every byte outside the rows keeps its old value |
| Bmp.DecodeBmpPlanar | src/TurnsTileBmpSource.cpp:79-102 | Y is copied from `ofsData`, U from `ofsData + ROW_SIZE_Y * HEIGHT_Y` and V from after U, each tightly stored rows into its pitched plane, nothing else changed |
| Bmp.PlanarHolds | src/TurnsTileBmpSource.cpp:86-88 | a file holding the three tightly stored planes after `ofsData` holds each plane's rows |
| Bmp.DecodeFrame | src/TurnsTileBmpSource.cpp:188-206 | a 1-plane file is copied with its padded pitch into the first plane; a 3-plane file is copied plane by plane |
| TestSource.AfterLastDot | src/TurnsTileTestSource.cpp:255 | `substr(find_last_of('.') + 1)` is a dot-free suffix of the name, and either the whole name or preceded by a dot |
| TestSource.AfterLastDotExt | src/TurnsTileTestSource.cpp:255 | the text after the last dot of `stem.ext` is `ext` |
| TestSource.SignatureTest | src/TurnsTileTestSource.cpp:259-260 | the short-circuit comparison of the eight bytes accepts exactly the buffers starting with the PNG signature |
| TestSource.MatchesFromIsPng | src/TurnsTileTestSource.cpp:259-260 | the comparison from byte `k` on, once bytes before `k` matched, succeeds exactly for a PNG signature |
| TestSource.ClassifyAsWritten | src/TurnsTileTestSource.cpp:252-267 | as written: an error exactly when the buffer starts with neither `BM` nor the PNG signature; EBMP only for a `BM` buffer |
| TestSource.EbmpNeverDetected | src/TurnsTileTestSource.cpp:254-258 | as written, no file is ever classified as EBMP |
| TestSource.Classify | src/TurnsTileTestSource.cpp:252-267 | an error exactly when the buffer starts with neither `BM` nor the PNG signature; EBMP exactly for a `BM` file whose extension is `ebmp`; PNG exactly for the signature |
| TestSource.EbmpDetected | src/TurnsTileTestSource.cpp:254-256 | a `BM` file named `stem.ebmp` is classified as EBMP |
| TestSource.ClassifyAgrees | src/TurnsTileTestSource.cpp:252-267 | the two classifications differ only on a `BM` file with extension `ebmp` |
| TestSource.PngPixelType | src/TurnsTileTestSource.cpp:178-196 | BGR24 exactly when "RGB24" is asked for, BGR32 otherwise |
| TestSource.PngBytesPerPixel | src/TurnsTileTestSource.cpp:212 | `BytesFromPixels(1)` is the bit count over 8: 3 or 4 |
| TestSource.Load | src/TurnsTileTestSource.cpp:38-56 | an unknown file is refused. A PNG takes the decoder's size and the requested type, or fails with the decoder's code. A BMP goes through the BMP header checks. Every clip is 240 frames at 24/1 fps |
| TestSource.SwapByte | src/TurnsTileTestSource.cpp:224-228 | bytes 0 and 2 of a pixel trade places; 1 and 3 stay |
| TestSource.SwapByteInvolution | src/TurnsTileTestSource.cpp:224-228 | swapping twice gives the byte back |
| TestSource.SwapColumnInvolution | src/TurnsTileTestSource.cpp:224-228 | swapping the columns of a row twice gives every column back |
| TestSource.PngPixelWant | src/TurnsTileTestSource.cpp:224-228 | the frame bytes of a pixel are decoder bytes 2, 1, 0 (and 3 for BGR32) of the same pixel in the mirrored row |
| TestSource.ConvertPng | src/TurnsTileTestSource.cpp:214-232 | on return, frame row `i` holds decoder row `HEIGHT - 1 - i` with bytes 0 and 2 of each pixel swapped. Byte 3 is copied only for BGR32. Every byte outside the rows is unchanged |
| TestSource.PngBytes | src/TurnsTileTestSource.cpp:214-232 | after the conversion, byte `k` of pixel `u` of row `i` is byte `SwapByte(k)` of pixel `u` of decoder row `height - 1 - i` |
| TestSource.SetCacheHints | src/TurnsTileTestSource.cpp:273-293 | each of the four known queries has its own fixed answer; every other query gets 0 |
| TestSource.CacheHintsDistinct | src/TurnsTileTestSource.cpp:278-289 | different known queries get different answers |
| TestUtil.FirstNewline | test/src/util_common.cpp:71 | `find('\n')` (the length for `npos`): no newline before it, a newline at it |
| TestUtil.SplitError | test/src/util_common.cpp:68-73 | a prefix of the message with no newline, followed in the message by a newline when shorter, and the whole message when it has no newline |
| TestUtil.SplitErrorLine | test/src/util_common.cpp:68-73 | a first line followed by a newline and anything splits back to that line |
| TestUtil.SplitErrorIdempotent | test/src/util_common.cpp:68-73 | splitting twice is splitting once |
| TestUtil.HexDigit | test/src/util_common.cpp:33-35 | a nibble's digit is from `"0123456789abcdef"` |
| TestUtil.HexLowerCase | test/src/util_common.cpp:32-36 | every character of the hex form is a lower-case hex digit |
| TestUtil.HexDigits | test/src/util_common.cpp:32-36 | digest byte `k` becomes digits `2k` (high nibble) and `2k + 1` (low nibble) |
| TestUtil.HexRoundTrip | test/src/util_common.cpp:30-38 | the hex form reads back as the digest, so different digests give different strings |
| TestUtil.HexDigest | test/src/util_common.cpp:30-38 | the loop over the 16 digest bytes builds a 32-character string equal to the hex form |
| TestUtil.RowBytes | test/src/util_common.cpp:27 | row `i` of a plane is the `row_size` bytes from `pitch * i` |
| TestUtil.PlaneBytes | test/src/util_common.cpp:26-27 | the first `n` rows of a plane give `row_size * n` bytes |
| TestUtil.PlaneBytesAt | test/src/util_common.cpp:26-27 | byte `j` of row `i` sits at `row_size * i + j` of the plane's stream |
| TestUtil.FrameBytesLength | test/src/util_common.cpp:25-27 | the hashed stream has `row_size * height` bytes per plane |
| TestUtil.HashInput | test/src/util_common.cpp:25-27 | the plane and row loops feed the hash each plane in order, each row top to bottom |

## Left out

- Host plumbing is not modelled: frame fetching, `NewVideoFrame`, read and write pointers, and plane pitches. Frames are values (`Raster.Plane`, `Cluter.Frame`) and destination arrays passed in, and pitches are parameters.
- `env->ThrowError` becomes an error value (`Result`, `Option`, `Outcome`). The message texts are not kept, except in `Bmp.OpenFile`, which returns one as its value.
- `CLUTer::GetFrame` (src/CLUTer.cpp:113-163) is left out. It only fetches the frames and chooses `processFramePlanar` or `processFramePacked` by `vi.IsPlanar()`, and both of those are modelled.
- The TurnsTile tile index is not computed. It comes from `scaleToRange` (double division and `floor`, src/TurnsTile.cpp:270-314) of a sampled byte, or of the `/ 2.0` and `/ 3.0` averages for mode 0. The model takes it as an input function `pick` from a cell to a tile index below `sheetTiles`. `res` is kept as an integer field, and `idxRangeMax` is not kept.
- Tiling.GetFrame: states the copy for any choice of tile index `pick`, not the index `scaleToRange` would choose (floating point).
- The 4-byte word store of src/TurnsTile.cpp:229 is modelled as four byte stores, and `GetFrame`'s nested loops are split into one method per loop. The sheet pointer's advance and reset become offsets computed from `cropTop` for each line.
- src/TurnsTile.cpp is version 0.1.0 of the filter, while src/interface.cpp calls a later constructor: it adds `levels`, `lotile`, `hitile` and `interlaced`, and an overload without a tilesheet. `Interface` produces the arguments (`TurnsTileParams`) and `Tiling.Construct` checks the 0.1.0 ones. The tilesheet-less filter and `levels` (`LCase`) are not modelled.
- The `Weave` call on interlaced output, plugin registration, and `Create_TurnsTile` in src/TurnsTile.cpp:318-327 are left out as host calls.
- `TurnsTile_gcf` is not defined in the repository. It is modelled as the mathematical greatest common factor (`Interface.Gcd`).
- On the `TURNSTILE_HOST_AVISYNTH_26` path, `lumaW`/`lumaH` come from the host's subsampling query. The colourspace `Cluter.Planar(subW, subH)` stands for those factors, and `Y8` for the luma-only case with absent chroma planes.
- PNG decoding (lodepng) is left out. The decoder's result is a parameter of `TestSource.Load`, and its RGB(A) rows are the input of `TestSource.ConvertPng`.
- MD5 is left out. `TestUtil.HashInput` gives the byte stream fed to `md5_append`, and `TestUtil.HexDigest` the text made of a given digest.
- File reading (`ifstream`) is left out. The classification and header checks take the file's bytes as a value. `ReadRefData`, `WriteRefData` and `CompareData` (file I/O and test assertions) are left out.
- Bmp.OpenFile: requires at least 2 bytes, because the source reads `buf[0]` and `buf[1]` of any file unchecked.
- Bmp.ReadBmp: requires a `BM` file to hold the 32 header bytes the source reads unchecked.
- TestSource.Load: requires the same of a `BM` file, and that the signature test never reads past a short buffer.
- The copy methods require destination and source buffers large enough for the rows they touch, as the host's frames are. Out-of-bounds behaviour of a malformed file (a `bfOffBits` or size pointing past the data) is not modelled.
- Integers are unbounded. The source's 32-bit `int` offsets and products are assumed not to overflow for frame-sized values. The header fields are read with their C types' ranges (`Bmp.Signed`), including the compression field read as a `short`.
- Cluter.CLUTer.constructor: requires a palette frame at least one block (`lumaW` by `lumaH` pixels) in size. On an empty palette the source reads `(*plt)[0]` (src/CLUTer.cpp:409) past the end of the key list.
- Cluter.CLUTer.BuildPalettePlanar: requires the same palette size, for the same reason.
- Palette.SortUnique: states the result of `std::sort` plus `std::unique` (strictly ascending, same set of keys), not the library's algorithm.
- The test drivers under test/src/avs and test/src/avsavx are not part of this model.

## Findings

| source | as written | input that shows it | evidently intended | confidence | as-written member | corrected member |
|---|---|---|---|---|---|---|
| src/TurnsTileTestSource.cpp:255 | compares the text after the last `.` with `".ebmp"`; that text holds no dot, so the comparison never succeeds. The mismatch has no observable effect: the constructor only compares `type` with PNG (src/TurnsTileTestSource.cpp:50), so an EBMP file is decoded as it would be with the intended test | a `BM` file named `frame.ebmp` | compare with `"ebmp"` so that EBMP files are classified as EBMP | not executed; high | TestSource.EbmpNeverDetected | TestSource.EbmpDetected |
| src/interface.cpp:131-135 | with a tilesheet, the square-tile preference takes the height as the width without checking that it is a multiple of `minTileW`; the overload without a tilesheet checks it (src/interface.cpp:249-253) | YUY2 clip and tilesheet, both 30x15, no tile arguments: defaults 15x15, refused with "tilew must be a multiple of 2" | the same multiple check as at src/interface.cpp:249-253, so that default sizes are always accepted | not executed; high | Interface.DefaultsRefusedAsWritten | Interface.CreateWithSheetCorrected |
| src/TurnsTile.cpp:52-67 | `vi.width % tileW` and `vi.height % tileH` are evaluated before `tileW < minTileW` and `tileH < 1` are checked | RGB32 64x48 clip and tilesheet, `tilew=0`, `tileh=16`: division by zero | the minimum checks first, refusing `tilew=0` as "tilew must be at least 1" | not executed; high | Tiling.ZeroTileDividesByZero | Tiling.Construct |
| src/TurnsTile.cpp:58-63, 211-229 | a YUY2 tile width only needs to be at least 2; the copy then moves 4-byte words every two pixels, past the end of an odd-width tile | YUY2 6x2 clip and tilesheet, `tilew=3`: the step at pixel 2 writes bytes 4-7 of a 6-byte tile | YUY2 tile widths are even (whole macropixels) | not executed; high | Tiling.OddYuy2TileOverruns | Tiling.Construct |
| src/TurnsTile.cpp:145-164 | the sampling point is `(tileW / 2) * bytesPerPixel` bytes into the tile, which for YUY2 falls on the second pixel of a macropixel when `tileW / 2` is odd | YUY2 tile 2 pixels wide: the point is byte 2, mode 2 (U) reads byte 3 (V), mode 3 (Y2) reads byte 4, the first byte of the next cell | sample at the start of the middle macropixel, so that modes 1-4 read Y1, U, Y2, V of one macropixel inside the cell | not executed; medium | Tiling.Yuy2SampleMisplaced | Tiling.SampleInCell |
