/** The mosaic filter of `TurnsTile` 0.1.0: the constructor's checks and grid
    fields, and the integer part of `GetFrame`, which picks a tile of the
    sheet for every cell of the frame's grid and copies it there.  How a
    cell's tile is picked (a floating-point scaling of a sampled byte) is an
    input. */
module Tiling {
  import opened Raster
  import opened Interface

  // ---------------------------------------------------------------------------
  // The filter's fields

  /** Pixels a copy step advances: one for RGB, a two-pixel macropixel for YUY2. */
  function WStep(csp: ColorSpace): nat
  {
    if csp == YUY2 then 2 else 1
  }

  /** Bytes per pixel: 4 for RGB32, 3 for RGB24, 2 for YUY2. */
  function BytesPerPixel(csp: ColorSpace): nat
  {
    match csp
    case RGB32 => 4
    case RGB24 => 3
    case YUY2 => 2
    case _ => 0
  }

  /** Bytes one copy step moves: a 4-byte word for RGB32 and YUY2, three single
      bytes for RGB24. */
  function StepBytes(csp: ColorSpace): nat
  {
    if csp == RGB24 then 3 else 4
  }

  /** The fields the constructor sets. `res` stands for the resolution the
      floating-point tile scaling uses. */
  datatype TurnsTile = TurnsTile(tileW: nat, tileH: nat, mode: int, res: int, csp: ColorSpace,
                                 srcCols: nat, srcRows: nat, sheetCols: nat, sheetRows: nat, sheetTiles: nat,
                                 wStep: nat, bytesPerPixel: nat, tileBytes: nat)
  {
    /** What the constructor's checks leave true of the fields. */
    predicate Valid()
    {
      && (csp == RGB32 || csp == RGB24 || csp == YUY2)
      && tileW >= 1 && tileH >= 1 && srcCols >= 1 && srcRows >= 1 && sheetCols >= 1 && sheetRows >= 1
      && sheetTiles == Times(sheetCols, sheetRows)
      && wStep == WStep(csp) && bytesPerPixel == BytesPerPixel(csp)
      && (csp == YUY2 ==> tileW % 2 == 0) && tileBytes == Times(bytesPerPixel, tileW)
    }

    /** The sheet row and column of tile `idx`.  Tiles are numbered row by row
        from the top left; RGB frames are stored bottom row first, so for RGB
        the row is counted from the bottom of the buffer. */
    function SheetCell(idx: nat): (cell: (nat, nat))
      requires sheetCols >= 1 && idx < Times(sheetCols, sheetRows)
      ensures cell.0 < sheetRows && cell.1 < sheetCols
      ensures Times(sheetCols, if IsRGB(csp) then sheetRows - 1 - cell.0 else cell.0) + cell.1 == idx
    {
      QuotSplit(idx, sheetCols);
      QuotBelow(idx, sheetRows, sheetCols);
      var tileIdxY := Quot(idx, sheetCols);
      (if IsRGB(csp) then sheetRows - 1 - tileIdxY else tileIdxY, idx - Times(sheetCols, tileIdxY))
    }

    /** `SheetCell` is the quotient and remainder by `sheetCols`. */
    lemma SheetCellIs(idx: nat)
      requires Valid() && idx < sheetTiles
      ensures SheetCell(idx) == (if IsRGB(csp) then sheetRows - 1 - idx / sheetCols else idx / sheetCols, idx % sheetCols)
    {
      QuotIs(idx, sheetCols);
      TimesIs(sheetCols, idx / sheetCols);
      Decompose(idx, sheetCols);
    }
  }

  /** `Quot(a, k)` whole blocks of `k` fit in `a`, and one more does not. */
  lemma {:induction false} QuotSplit(a: nat, k: nat)
    requires k >= 1
    ensures Times(k, Quot(a, k)) <= a < Times(k, Quot(a, k)) + k
  {
    if a >= k {
      QuotSplit(a - k, k);
    }
  }

  /** Why the constructor refuses its arguments. */
  datatype TileError =
    | NotRgbOrYuy2
    | SheetCspMismatch
    | TileWExceedsFrame
    | TileHExceedsFrame
    | WidthNotMultiple
    | HeightNotMultiple
    | TileWTooSmall(minW: nat)
    | TileHBelowOne
    | TileWOdd
    | Mode4WithRgb24

  /** The fields of a constructed filter. */
  function Fields(clip: ClipInfo, sheet: ClipInfo, tileW: nat, tileH: nat, res: int, mode: int): (t: TurnsTile)
    requires tileW >= 1 && tileH >= 1
  {
    var sheetCols, sheetRows := sheet.width / tileW, sheet.height / tileH;
    TurnsTile(tileW, tileH, mode, if res > 0 then res else sheetCols / 2, clip.csp,
              clip.width / tileW, clip.height / tileH, sheetCols, sheetRows, sheetCols * sheetRows,
              WStep(clip.csp), BytesPerPixel(clip.csp), tileW * BytesPerPixel(clip.csp))
  }

  /** What the constructor as written does: it refuses, builds the filter, or
      divides by zero. */
  datatype Outcome = Built(t: TurnsTile) | Refused(e: TileError) | DivisionByZero

  /** The constructor's checks in the order written: the remainders by `tileW`
      and `tileH` come before the minimum-size checks, and nothing asks a YUY2
      tile to be a whole number of macropixels. */
  function ConstructAsWritten(clip: ClipInfo, sheet: ClipInfo, tileW: int, tileH: int, res: int, mode: int): (r: Outcome)
    ensures r == DivisionByZero <==>
              (IsRGB(clip.csp) || clip.csp == YUY2) && sheet.csp == clip.csp &&
              tileW <= clip.width && tileW <= sheet.width && tileH <= clip.height && tileH <= sheet.height &&
              (tileW == 0 || (clip.width % tileW == 0 && sheet.width % tileW == 0 && tileH == 0))
    ensures r.Built? ==> r.t.tileW >= MinTileW(clip.csp) && r.t.tileH >= 1
  {
    if !(IsRGB(clip.csp) || clip.csp == YUY2) then Refused(NotRgbOrYuy2)
    else if sheet.csp != clip.csp then Refused(SheetCspMismatch)
    else if tileW > clip.width || tileW > sheet.width then Refused(TileWExceedsFrame)
    else if tileH > clip.height || tileH > sheet.height then Refused(TileHExceedsFrame)
    else if tileW == 0 then DivisionByZero
    else if clip.width % tileW != 0 || sheet.width % tileW != 0 then Refused(WidthNotMultiple)
    else if tileH == 0 then DivisionByZero
    else if clip.height % tileH != 0 || sheet.height % tileH != 0 then Refused(HeightNotMultiple)
    else if tileW < MinTileW(clip.csp) then Refused(TileWTooSmall(MinTileW(clip.csp)))
    else if tileH < 1 then Refused(TileHBelowOne)
    else if mode == 4 && clip.csp == RGB24 then Refused(Mode4WithRgb24)
    else Built(Fields(clip, sheet, tileW, tileH, res, mode))
  }

  /** The constructor's checks with the minimum sizes checked before anything
      is divided by them, and YUY2 tiles required to hold whole macropixels. */
  function Construct(clip: ClipInfo, sheet: ClipInfo, tileW: int, tileH: int, res: int, mode: int)
    : (r: Result<TurnsTile, TileError>)
    ensures r.Ok? <==>
              (IsRGB(clip.csp) || clip.csp == YUY2) && sheet.csp == clip.csp &&
              MinTileW(clip.csp) <= tileW <= clip.width && tileW <= sheet.width &&
              1 <= tileH <= clip.height && tileH <= sheet.height && tileW % WStep(clip.csp) == 0 &&
              clip.width % tileW == 0 && sheet.width % tileW == 0 &&
              clip.height % tileH == 0 && sheet.height % tileH == 0 &&
              !(mode == 4 && clip.csp == RGB24)
    ensures r.Ok? ==>
              var t := r.value;
              t.Valid() && t.tileW == tileW && t.tileH == tileH &&
              t.srcCols * tileW == clip.width && t.srcRows * tileH == clip.height &&
              t.sheetCols * tileW == sheet.width && t.sheetRows * tileH == sheet.height
    ensures r == Err(TileWTooSmall(MinTileW(clip.csp))) ==> tileW < MinTileW(clip.csp)
  {
    if !(IsRGB(clip.csp) || clip.csp == YUY2) then Err(NotRgbOrYuy2)
    else if sheet.csp != clip.csp then Err(SheetCspMismatch)
    else if tileW > clip.width || tileW > sheet.width then Err(TileWExceedsFrame)
    else if tileH > clip.height || tileH > sheet.height then Err(TileHExceedsFrame)
    else if tileW < MinTileW(clip.csp) then Err(TileWTooSmall(MinTileW(clip.csp)))
    else if tileH < 1 then Err(TileHBelowOne)
    else if tileW % WStep(clip.csp) != 0 then Err(TileWOdd)
    else if clip.width % tileW != 0 || sheet.width % tileW != 0 then Err(WidthNotMultiple)
    else if clip.height % tileH != 0 || sheet.height % tileH != 0 then Err(HeightNotMultiple)
    else if mode == 4 && clip.csp == RGB24 then Err(Mode4WithRgb24)
    else
      var t := Fields(clip, sheet, tileW, tileH, res, mode);
      Whole(clip.width, tileW);
      Whole(clip.height, tileH);
      Whole(sheet.width, tileW);
      Whole(sheet.height, tileH);
      TimesIs(t.sheetCols, t.sheetRows);
      TimesIs(t.bytesPerPixel, tileW);
      Ok(t)
  }

  /** A dimension that `tile` divides is `dim / tile` whole tiles, at least one
      when the tile is no larger than it. */
  lemma Whole(dim: nat, tile: nat)
    requires 1 <= tile <= dim && dim % tile == 0
    ensures (dim / tile) * tile == dim && dim / tile >= 1
  {
    Decompose(dim, tile);
    DivPos(dim, tile);
  }

  /** As written, a zero tile width gets past every check before the first
      remainder and divides by zero, where the minimum-width check would have
      refused it. */
  lemma ZeroTileDividesByZero()
    ensures var clip := ClipInfo(RGB32, 64, 48);
            ConstructAsWritten(clip, clip, 0, 16, 8, 0) == DivisionByZero &&
            Construct(clip, clip, 0, 16, 8, 0) == Err(TileWTooSmall(1))
  {
  }

  /** As written, a YUY2 tile three pixels wide is accepted; its tile is six
      bytes, yet the copy step at pixel 2 moves bytes 4 to 7. */
  lemma OddYuy2TileOverruns()
    ensures var clip := ClipInfo(YUY2, 6, 2);
            var r := ConstructAsWritten(clip, clip, 3, 1, 8, 0);
            r.Built? && r.t.tileBytes == 6 && 2 < r.t.tileW &&
            2 * r.t.bytesPerPixel + StepBytes(YUY2) > r.t.tileBytes &&
            Construct(clip, clip, 3, 1, 8, 0) == Err(TileWOdd)
  {
  }

  // ---------------------------------------------------------------------------
  // The sampling point of a cell

  /** The byte of cell (`row`, `col`) that modes 1 to 4 read from, as written:
      on line `row * tileH + tileH / 2`, at byte `col * tileBytes + (tileW / 2) * bytesPerPixel`. */
  function SampleAsWritten(t: TurnsTile, row: nat, col: nat): (p: (nat, nat))
    requires t.Valid()
  {
    (row * t.tileH + t.tileH / 2, col * t.tileBytes + (t.tileW / 2) * t.bytesPerPixel)
  }

  /** As written, a YUY2 tile two pixels wide is sampled at its second pixel,
      so mode 2, meant to read U, reads the V byte (offset 3 of the macropixel)
      and mode 3, meant to read the second Y, reads the first byte of the next
      cell. */
  lemma Yuy2SampleMisplaced()
    ensures var t := Fields(ClipInfo(YUY2, 8, 2), ClipInfo(YUY2, 8, 2), 2, 1, 8, 2);
            var p := SampleAsWritten(t, 0, 0);
            t.Valid() && (p.1 + 1) % 4 == 3 && p.1 + 2 == t.tileBytes
  {
  }

  /** The byte modes 1 to 4 read from, placed at the start of the middle pixel
      or, for YUY2, of the middle macropixel. */
  function Sample(t: TurnsTile, row: nat, col: nat): (p: (nat, nat))
    requires t.Valid()
  {
    (row * t.tileH + t.tileH / 2, col * t.tileBytes + ((t.tileW / 2) / t.wStep) * t.wStep * t.bytesPerPixel)
  }

  /** Every byte a mode reads lies inside its own cell, and for YUY2 the four
      modes read Y1, U, Y2 and V of one macropixel. */
  lemma SampleInCell(t: TurnsTile, row: nat, col: nat, mode: nat)
    requires t.Valid() && 1 <= mode <= 4 && !(mode == 4 && t.csp == RGB24)
    ensures var p := Sample(t, row, col);
            row * t.tileH <= p.0 < (row + 1) * t.tileH &&
            col * t.tileBytes <= p.1 + (mode - 1) < (col + 1) * t.tileBytes &&
            (t.csp == YUY2 ==> (p.1 - col * t.tileBytes) % 4 == 0)
  {
    var p := Sample(t, row, col);
    assert (row + 1) * t.tileH == row * t.tileH + t.tileH;
    assert (col + 1) * t.tileBytes == col * t.tileBytes + t.tileBytes;
    var half := ((t.tileW / 2) / t.wStep) * t.wStep;
    assert p.1 == col * t.tileBytes + half * t.bytesPerPixel;
    InTile(t, half);
  }

  /** The middle pixel's offset inside the tile leaves room for the bytes the
      modes read. */
  lemma InTile(t: TurnsTile, half: nat)
    requires t.Valid() && half == ((t.tileW / 2) / t.wStep) * t.wStep
    ensures half * t.bytesPerPixel + StepBytes(t.csp) <= t.tileBytes
    ensures t.csp == YUY2 ==> (half * t.bytesPerPixel) % 4 == 0
  {
    TimesIs(t.bytesPerPixel, t.tileW);
    if t.csp == YUY2 {
      assert half % 2 == 0 && half + 2 <= t.tileW;
      assert (half * 2) % 4 == 0 by {
        DivMod(4, half / 2, 0);
        assert half * 2 == 4 * (half / 2);
      }
    } else {
      assert half < t.tileW;
    }
  }

  // ---------------------------------------------------------------------------
  // GetFrame: the tile copy

  /** The frame's bytes drawn once the tile rows above `y0`, the cells of the
      current tile row left of `x0`, the first `h` lines of the current cell and
      the first `j` bytes of its line `h` are done; `width` is the frame's row
      size in bytes. */
  function Drawn(width: nat, tileH: nat, tileBytes: nat, y0: nat, x0: nat, h: nat, j: nat): (nat, nat) -> bool
  {
    (y: nat, x: nat) =>
      x < width &&
      (y < y0 ||
       (y < y0 + tileH &&
        (x < x0 || (x < x0 + tileBytes && (y < y0 + h || (y == y0 + h && x < x0 + j))))))
  }

  /** The frame's grid: `height` lines of `width` bytes. */
  function InGrid(height: nat, width: nat): (nat, nat) -> bool
  {
    (y: nat, x: nat) => y < height && x < width
  }

  /** The sheet byte that belongs at byte `x` of line `y` of the frame: the
      cell's tile, the same line and byte inside the tile. */
  function TileByte(t: TurnsTile, sheet: Plane, pick: (nat, nat) -> nat, y: nat, x: nat): Byte
  {
    if t.tileH == 0 || t.tileBytes == 0 then 0
    else
      var row, col := Quot(y, t.tileH), Quot(x, t.tileBytes);
      if y < Times(t.tileH, row) || x < Times(t.tileBytes, col) then 0
      else CellByte(t, sheet, pick(row, col), y - Times(t.tileH, row), x - Times(t.tileBytes, col))
  }

  /** Byte `j` of line `h` of tile `idx` of the sheet. */
  function CellByte(t: TurnsTile, sheet: Plane, idx: nat, h: nat, j: nat): Byte
  {
    if t.sheetCols == 0 || idx >= Times(t.sheetCols, t.sheetRows) then 0
    else
      var cell := t.SheetCell(idx);
      sheet.Get(Times(t.tileH, cell.0) + h, Times(t.tileBytes, cell.1) + j)
  }

  function TileWant(t: TurnsTile, sheet: Plane, pick: (nat, nat) -> nat): (nat, nat) -> Byte
  {
    (y: nat, x: nat) => TileByte(t, sheet, pick, y, x)
  }

  lemma WantIs(t: TurnsTile, sheet: Plane, pick: (nat, nat) -> nat, y: nat, x: nat)
    ensures TileWant(t, sheet, pick)(y, x) == TileByte(t, sheet, pick, y, x)
  {
  }

  /** A sheet frame of `sheetRows` tiles of `tileH` lines, each line
      `sheetCols` tiles of `tileBytes` bytes. */
  predicate SheetFrame(t: TurnsTile, sheet: Plane)
  {
    sheet.Valid() && sheet.rowSize == Times(t.tileBytes, t.sheetCols) && sheet.height == Times(t.tileH, t.sheetRows)
  }

  /** Byte `j` of line `h` of cell (`row`, `col`), at byte `x` of line `y` of
      the frame, is wanted from line `h`, byte `j` of the picked tile. */
  lemma {:induction false} TileByteAt(t: TurnsTile, sheet: Plane, pick: (nat, nat) -> nat, row: nat, col: nat, h: nat, j: nat,
                   y: nat, x: nat)
    requires t.tileH >= 1 && t.tileBytes >= 1
    requires h < t.tileH && j < t.tileBytes
    requires y == Times(t.tileH, row) + h && x == Times(t.tileBytes, col) + j
    ensures TileByte(t, sheet, pick, y, x) == CellByte(t, sheet, pick(row, col), h, j)
  {
    InBlock(t.tileH, row, h, y);
    InBlock(t.tileBytes, col, j, x);
  }

  /** Byte `j` of line `h` of tile `idx` lies in the sheet at line `h` of the
      tile's cell and byte `j` of it. */
  lemma {:induction false} CellByteAt(t: TurnsTile, sheet: Plane, idx: nat, h: nat, j: nat, sr: nat, sc: nat)
    requires t.sheetCols >= 1 && idx < Times(t.sheetCols, t.sheetRows) && (sr, sc) == t.SheetCell(idx)
    requires sheet.Valid() && Times(t.tileH, sr) + h < sheet.height && Times(t.tileBytes, sc) + j < sheet.rowSize
    ensures CellByte(t, sheet, idx, h, j) == sheet.At(Times(t.tileH, sr) + h, Times(t.tileBytes, sc) + j)
  {
  }

  /** Item `y` of block `n` of `k` items, `i` items into it, is in block
      `Quot(y, k) == n` at offset `i`. */
  lemma InBlock(k: nat, n: nat, i: nat, y: nat)
    requires k >= 1 && i < k && y == Times(k, n) + i
    ensures Quot(y, k) == n && y - Times(k, Quot(y, k)) == i
  {
    QuotBlock(n, k, i);
  }

  /** Byte `j` of line `h` of the block of `want` whose first byte is byte
      `x0` of line `y0`. */
  function Shifted(want: (nat, nat) -> Byte, y0: nat, x0: nat, h: nat, j: nat): Byte
  {
    want(y0 + h, x0 + j)
  }

  /** The `rows` lines of `cols` bytes of `want` from (`y0`, `x0`) on are the
      same block of the sheet from line `top`, byte `left` on. */
  ghost predicate Matches(want: (nat, nat) -> Byte, y0: nat, x0: nat, sheet: Plane, top: nat, left: nat, rows: nat, cols: nat)
  {
    forall h: nat, j: nat :: h < rows && j < cols ==> Shifted(want, y0, x0, h, j) == sheet.Get(top + h, left + j)
  }

  /** Every byte of cell (`row`, `col`) is wanted from the matching byte of the
      picked tile, which lies inside the sheet. */
  lemma {:induction false} CellWant(t: TurnsTile, sheet: Plane, pick: (nat, nat) -> nat, row: nat, col: nat, sr: nat, sc: nat)
    requires t.Valid() && SheetFrame(t, sheet)
    requires pick(row, col) < t.sheetTiles && (sr, sc) == t.SheetCell(pick(row, col))
    ensures Times(t.tileH, sr) + t.tileH <= sheet.height && Times(t.tileBytes, sc) + t.tileBytes <= sheet.rowSize
    ensures Matches(TileWant(t, sheet, pick), Times(t.tileH, row), Times(t.tileBytes, col),
                    sheet, Times(t.tileH, sr), Times(t.tileBytes, sc), t.tileH, t.tileBytes)
  {
    var y0, x0 := Times(t.tileH, row), Times(t.tileBytes, col);
    var top, left := Times(t.tileH, sr), Times(t.tileBytes, sc);
    CellFits(t, sheet, pick, row, col, sr, sc);
    forall h: nat, j: nat | h < t.tileH && j < t.tileBytes
      ensures Shifted(TileWant(t, sheet, pick), y0, x0, h, j) == sheet.Get(top + h, left + j)
    {
      CellWantAt(t, sheet, pick, row, col, sr, sc, h, j);
    }
  }

  /** The cell's tile lies inside the sheet. */
  lemma {:induction false} CellFits(t: TurnsTile, sheet: Plane, pick: (nat, nat) -> nat, row: nat, col: nat, sr: nat, sc: nat)
    requires t.Valid() && SheetFrame(t, sheet)
    requires pick(row, col) < t.sheetTiles && (sr, sc) == t.SheetCell(pick(row, col))
    ensures Times(t.tileH, sr) + t.tileH <= sheet.height && Times(t.tileBytes, sc) + t.tileBytes <= sheet.rowSize
  {
    StepIsPixels(t);
    BlockIn(sr, t.sheetRows, t.tileH, 0);
    BlockIn(sc, t.sheetCols, t.tileBytes, 0);
  }

  /** One byte of `CellWant`: byte `j` of line `h` of the cell. */
  lemma {:induction false} CellWantAt(t: TurnsTile, sheet: Plane, pick: (nat, nat) -> nat, row: nat, col: nat, sr: nat, sc: nat,
                   h: nat, j: nat)
    requires t.Valid() && SheetFrame(t, sheet)
    requires pick(row, col) < t.sheetTiles && (sr, sc) == t.SheetCell(pick(row, col))
    requires h < t.tileH && j < t.tileBytes
    ensures Shifted(TileWant(t, sheet, pick), Times(t.tileH, row), Times(t.tileBytes, col), h, j) ==
            sheet.Get(Times(t.tileH, sr) + h, Times(t.tileBytes, sc) + j)
  {
    CellFits(t, sheet, pick, row, col, sr, sc);
    StepIsPixels(t);
    ShiftedCell(t, sheet, pick, row, col, h, j);
    CellGet(t, sheet, pick(row, col), h, j, sr, sc);
  }
  /** The wanted byte at offset (`h`, `j`) of output tile (`row`, `col`) is byte (`h`, `j`) of its picked cell. */
  lemma {:induction false} ShiftedCell(t: TurnsTile, sheet: Plane, pick: (nat, nat) -> nat, row: nat, col: nat, h: nat, j: nat)
    requires t.tileH >= 1 && t.tileBytes >= 1 && h < t.tileH && j < t.tileBytes
    ensures Shifted(TileWant(t, sheet, pick), Times(t.tileH, row), Times(t.tileBytes, col), h, j) ==
            CellByte(t, sheet, pick(row, col), h, j)
  {
    WantCell(t, sheet, pick, row, col, h, j, Times(t.tileH, row) + h, Times(t.tileBytes, col) + j);
    ShiftedTo(TileWant(t, sheet, pick), Times(t.tileH, row), Times(t.tileBytes, col), h, j,
              CellByte(t, sheet, pick(row, col), h, j));
  }
  /** Byte (`h`, `j`) of sheet cell `idx` is the sheet byte at that cell's corner plus (`h`, `j`). */
  lemma {:induction false} CellGet(t: TurnsTile, sheet: Plane, idx: nat, h: nat, j: nat, sr: nat, sc: nat)
    requires t.sheetCols >= 1 && idx < Times(t.sheetCols, t.sheetRows) && (sr, sc) == t.SheetCell(idx)
    requires sheet.Valid() && Times(t.tileH, sr) + h < sheet.height && Times(t.tileBytes, sc) + j < sheet.rowSize
    ensures CellByte(t, sheet, idx, h, j) == sheet.Get(Times(t.tileH, sr) + h, Times(t.tileBytes, sc) + j)
  {
    CellByteAt(t, sheet, idx, h, j, sr, sc);
    GetAt(sheet, Times(t.tileH, sr) + h, Times(t.tileBytes, sc) + j);
  }

  /** One byte of `Matches`, read at its offset `ofs` in the sheet. */
  lemma {:induction false} MatchesByte(want: (nat, nat) -> Byte, y0: nat, x0: nat, sheet: Plane, top: nat, left: nat,
                                       rows: nat, cols: nat, h: nat, j: nat, ofs: nat)
    requires Matches(want, y0, x0, sheet, top, left, rows, cols) && h < rows && j < cols
    requires sheet.Valid() && top + rows <= sheet.height && left + cols <= sheet.rowSize
    requires ofs == Idx(sheet.pitch, top + h, 0) + left + j
    ensures ofs < |sheet.data| && want(y0 + h, x0 + j) == sheet.data[ofs]
  {
    assert Shifted(want, y0, x0, h, j) == sheet.Get(top + h, left + j);
    IdxRow(sheet.pitch, top + h, left + j);
    PlaneAt(sheet, top + h, left + j, ofs);
  }

  /** A value of `want` at the block's corner plus the offset is the block's value there. */
  lemma ShiftedTo(want: (nat, nat) -> Byte, y0: nat, x0: nat, h: nat, j: nat, v: Byte)
    requires want(y0 + h, x0 + j) == v
    ensures Shifted(want, y0, x0, h, j) == v
  {
  }
  /** `Shifted` as a read of `want` at the block's corner plus the offset. */
  lemma ShiftedIs(want: (nat, nat) -> Byte, y0: nat, x0: nat, h: nat, j: nat)
    ensures Shifted(want, y0, x0, h, j) == want(y0 + h, x0 + j)
  {
  }

  /** Inside the plane, `Get` is `At`. */
  lemma GetAt(p: Plane, r: nat, c: nat)
    requires p.Valid() && r < p.height && c < p.rowSize
    ensures p.Get(r, c) == p.At(r, c)
  {
  }

  /** The wanted byte at (`y`, `x`) is byte `j` of line `h` of the tile picked
      for cell (`row`, `col`). */
  lemma {:induction false} WantCell(t: TurnsTile, sheet: Plane, pick: (nat, nat) -> nat, row: nat, col: nat, h: nat, j: nat,
                 y: nat, x: nat)
    requires t.tileH >= 1 && t.tileBytes >= 1
    requires h < t.tileH && j < t.tileBytes
    requires y == Times(t.tileH, row) + h && x == Times(t.tileBytes, col) + j
    ensures TileWant(t, sheet, pick)(y, x) == CellByte(t, sheet, pick(row, col), h, j)
  {
    TileByteAt(t, sheet, pick, row, col, h, j, y, x);
    WantIs(t, sheet, pick, y, x);
  }

  /** A copy step of `wStep` pixels starts where the last one ended and stays
      inside the tile. */
  lemma NextStep(w: nat, wStep: nat, bpp: nat, tileW: nat)
    requires (wStep == 1 || wStep == 2) && w < tileW && w % wStep == 0 && tileW % wStep == 0
    ensures Times(bpp, w + wStep) == Times(bpp, w) + Times(bpp, wStep)
    ensures w + wStep <= tileW && (w + wStep) % wStep == 0
    ensures Times(bpp, w) + Times(bpp, wStep) <= Times(bpp, tileW)
  {
    TimesAdd(bpp, w, wStep);
    TimesAdd(bpp, w + wStep, tileW - (w + wStep));
  }

  /** Each copy step moves `wStep * bytesPerPixel` bytes: 4 for RGB32 and YUY2,
      3 for RGB24; a tile line is `tileW * bytesPerPixel` bytes. */
  lemma StepIsPixels(t: TurnsTile)
    requires t.Valid()
    ensures StepBytes(t.csp) == Times(t.bytesPerPixel, t.wStep) && (t.wStep == 1 || t.wStep == 2)
    ensures t.tileBytes == Times(t.bytesPerPixel, t.tileW) && t.tileBytes >= 1 && t.tileW % t.wStep == 0
  {
    TimesAdd(t.bytesPerPixel, 1, t.tileW - 1);
  }

  /** Line `r + k` starts `pitch * k` bytes after line `r`. */
  lemma LinesDown(pitch: nat, r: nat, k: nat)
    ensures Idx(pitch, r + k, 0) == Idx(pitch, r, 0) + pitch * k
  {
    IdxIs(pitch, r + k, 0);
    IdxIs(pitch, r, 0);
  }

  /** Drawing byte `j` of line `h` of a tile extends the drawn region by exactly that byte. */
  lemma DrawnNext(width: nat, tileH: nat, tileBytes: nat, y0: nat, x0: nat, h: nat, j: nat, y: nat)
    requires y == y0 + h && h < tileH && j < tileBytes && x0 + tileBytes <= width
    ensures forall r: nat, c: nat :: Drawn(width, tileH, tileBytes, y0, x0, h, j + 1)(r, c) ==
                                     (Drawn(width, tileH, tileBytes, y0, x0, h, j)(r, c) || (r == y && c == x0 + j))
  {
  }

  /** One copy step of `GetFrame`: the `n` bytes at `wBytes` in line `y` of the
      frame, cell column `x0` (the 4-byte word of RGB32 and YUY2, the three
      bytes of RGB24), stored byte by byte from line `top`, byte `left` of the
      sheet, where `srcp` points. */
  method CopyStep(dst: array<Byte>, ghost orig: seq<Byte>, pitch: nat, ghost width: nat, ghost height: nat,
                  ghost tileH: nat, ghost tileBytes: nat, ghost y0: nat, ghost x0: nat, ghost h: nat, ghost y: nat,
                  dstp: nat, sheet: Plane, ghost cropTop: nat, ghost cropLeft: nat, srcp: nat, wBytes: nat, n: nat,
                  ghost want: (nat, nat) -> Byte)
    requires width <= pitch && 1 <= height && Idx(pitch, height - 1, width) <= dst.Length
    requires y == y0 + h && h < tileH && y < height && x0 + tileBytes <= width && wBytes + n <= tileBytes
    requires dstp == Idx(pitch, y, x0)
    requires sheet.Valid() && cropTop + tileH <= sheet.height && cropLeft + tileBytes <= sheet.rowSize
    requires srcp == Idx(sheet.pitch, cropTop + h, 0) + cropLeft
    requires Matches(want, y0, x0, sheet, cropTop, cropLeft, tileH, tileBytes)
    requires Filled(dst[..], orig, pitch, Drawn(width, tileH, tileBytes, y0, x0, h, wBytes), want)
    modifies dst
    ensures Filled(dst[..], orig, pitch, Drawn(width, tileH, tileBytes, y0, x0, h, wBytes + n), want)
  {
    for j := wBytes to wBytes + n
      invariant Filled(dst[..], orig, pitch, Drawn(width, tileH, tileBytes, y0, x0, h, j), want)
    {
      MatchesByte(want, y0, x0, sheet, cropTop, cropLeft, tileH, tileBytes, h, j, srcp + j);
      DrawnNext(width, tileH, tileBytes, y0, x0, h, j, y);
      ghost var before := dst[..];
      FillAtRun(before, orig, pitch, height, width, Drawn(width, tileH, tileBytes, y0, x0, h, j),
                Drawn(width, tileH, tileBytes, y0, x0, h, j + 1), want, y, x0, j,
                dstp + j, sheet.data[srcp + j]);
      dst[dstp + j] := sheet.data[srcp + j];
      FilledCopy(before[dstp + j := sheet.data[srcp + j]], dst[..], orig, pitch,
                 Drawn(width, tileH, tileBytes, y0, x0, h, j + 1), want);
    }
  }

  /** The pixel loop of `GetFrame`: line `h` of a cell, `wStep` pixels at a
      time. */
  method CopyLine(dst: array<Byte>, ghost orig: seq<Byte>, pitch: nat, ghost width: nat, ghost height: nat,
                  tileH: nat, tileW: nat, wStep: nat, bpp: nat, n: nat, tileBytes: nat,
                  ghost y0: nat, ghost x0: nat, ghost h: nat, ghost y: nat, dstp: nat,
                  sheet: Plane, ghost cropTop: nat, ghost cropLeft: nat, srcp: nat, ghost want: (nat, nat) -> Byte)
    requires (wStep == 1 || wStep == 2) && tileW % wStep == 0 && n == Times(bpp, wStep) && tileBytes == Times(bpp, tileW)
    requires width <= pitch && 1 <= height && Idx(pitch, height - 1, width) <= dst.Length
    requires y == y0 + h && h < tileH && y < height && x0 + tileBytes <= width
    requires dstp == Idx(pitch, y, x0)
    requires sheet.Valid() && cropTop + tileH <= sheet.height && cropLeft + tileBytes <= sheet.rowSize
    requires srcp == Idx(sheet.pitch, cropTop + h, 0) + cropLeft
    requires Matches(want, y0, x0, sheet, cropTop, cropLeft, tileH, tileBytes)
    requires Filled(dst[..], orig, pitch, Drawn(width, tileH, tileBytes, y0, x0, h, 0), want)
    modifies dst
    ensures Filled(dst[..], orig, pitch, Drawn(width, tileH, tileBytes, y0, x0, h + 1, 0), want)
  {
    var w := 0;
    while w < tileW
      invariant w <= tileW && w % wStep == 0
      invariant Filled(dst[..], orig, pitch, Drawn(width, tileH, tileBytes, y0, x0, h, Times(bpp, w)), want)
    {
      var wBytes := w * bpp;
      TimesIs(bpp, w);
      NextStep(w, wStep, bpp, tileW);
      CopyStep(dst, orig, pitch, width, height, tileH, tileBytes, y0, x0, h, y, dstp, sheet, cropTop, cropLeft, srcp, wBytes, n, want);
      w := w + wStep;
    }
    FillSame(dst[..], orig, pitch, Drawn(width, tileH, tileBytes, y0, x0, h, tileBytes),
             Drawn(width, tileH, tileBytes, y0, x0, h + 1, 0), want);
  }

  /** The line loop of `GetFrame` for one cell: the picked tile starts at line
      `cropTop`, byte `cropLeft` of the sheet; each of its `tileH` lines is
      copied, both frames advancing by their pitch. */
  method CopyTile(dst: array<Byte>, ghost orig: seq<Byte>, pitch: nat, ghost width: nat, ghost height: nat,
                  tileH: nat, tileW: nat, wStep: nat, bpp: nat, n: nat, tileBytes: nat,
                  ghost y0: nat, ghost x0: nat, dstp: nat, sheet: Plane, cropTop: nat, cropLeft: nat,
                  ghost want: (nat, nat) -> Byte)
    requires (wStep == 1 || wStep == 2) && tileW % wStep == 0 && n == Times(bpp, wStep) && tileBytes == Times(bpp, tileW)
    requires width <= pitch && 1 <= height && Idx(pitch, height - 1, width) <= dst.Length
    requires y0 + tileH <= height && x0 + tileBytes <= width
    requires dstp == Idx(pitch, y0, x0)
    requires sheet.Valid() && cropTop + tileH <= sheet.height && cropLeft + tileBytes <= sheet.rowSize
    requires Matches(want, y0, x0, sheet, cropTop, cropLeft, tileH, tileBytes)
    requires Filled(dst[..], orig, pitch, Drawn(width, tileH, tileBytes, y0, x0, 0, 0), want)
    modifies dst
    ensures Filled(dst[..], orig, pitch, Drawn(width, tileH, tileBytes, y0, x0 + tileBytes, 0, 0), want)
  {
    var dstp := dstp;
    LinesDown(sheet.pitch, 0, cropTop);
    var sheetp := sheet.pitch * cropTop;
    for h := 0 to tileH
      invariant dstp == Idx(pitch, y0 + h, x0)
      invariant sheetp == Idx(sheet.pitch, cropTop + h, 0)
      invariant Filled(dst[..], orig, pitch, Drawn(width, tileH, tileBytes, y0, x0, h, 0), want)
    {
      CopyLine(dst, orig, pitch, width, height, tileH, tileW, wStep, bpp, n, tileBytes, y0, x0, h, y0 + h, dstp,
               sheet, cropTop, cropLeft, sheetp + cropLeft, want);
      LinesDown(sheet.pitch, cropTop + h, 1);
      LinesDown(pitch, y0 + h, 1);
      sheetp := sheetp + sheet.pitch;
      dstp := dstp + pitch;
    }
    FillSame(dst[..], orig, pitch, Drawn(width, tileH, tileBytes, y0, x0, tileH, 0),
             Drawn(width, tileH, tileBytes, y0, x0 + tileBytes, 0, 0), want);
  }

  /** The crop `GetFrame` computes for tile `idx` is the corner of the tile's
      cell in the sheet. */
  lemma {:induction false} CropIs(t: TurnsTile, idx: nat, idxY: int, cropTop: int, cropLeft: int)
    requires t.Valid() && idx < t.sheetTiles
    requires idxY == (if IsRGB(t.csp) then t.sheetRows - 1 - idx / t.sheetCols else idx / t.sheetCols)
    requires cropTop == idxY * t.tileH && cropLeft == (idx % t.sheetCols) * t.tileBytes
    ensures cropTop == Times(t.tileH, t.SheetCell(idx).0) && cropLeft == Times(t.tileBytes, t.SheetCell(idx).1)
  {
    t.SheetCellIs(idx);
    TimesIs(t.tileH, t.SheetCell(idx).0);
    TimesIs(t.tileBytes, t.SheetCell(idx).1);
  }

  /** The body of `GetFrame`'s loops for cell (`row`, `col`), whose first
      byte is `dstp`: the picked tile's line and byte offsets in the sheet are
      computed and the tile is copied. */
  method CopyCell(t: TurnsTile, sheet: Plane, pick: (nat, nat) -> nat, dst: array<Byte>, DST_PITCH: nat,
                  ghost orig: seq<Byte>, n: nat, row: nat, col: nat, dstp: nat)
    requires t.Valid() && SheetFrame(t, sheet) && n == StepBytes(t.csp)
    requires row < t.srcRows && col < t.srcCols && pick(row, col) < t.sheetTiles
    requires Times(t.tileBytes, t.srcCols) <= DST_PITCH
    requires Idx(DST_PITCH, Times(t.tileH, t.srcRows) - 1, Times(t.tileBytes, t.srcCols)) <= dst.Length
    requires dstp == Idx(DST_PITCH, Times(t.tileH, row), Times(t.tileBytes, col))
    requires Filled(dst[..], orig, DST_PITCH, Drawn(Times(t.tileBytes, t.srcCols), t.tileH, t.tileBytes,
                                                    Times(t.tileH, row), Times(t.tileBytes, col), 0, 0), TileWant(t, sheet, pick))
    modifies dst
    ensures Filled(dst[..], orig, DST_PITCH, Drawn(Times(t.tileBytes, t.srcCols), t.tileH, t.tileBytes,
                                                   Times(t.tileH, row), Times(t.tileBytes, col + 1), 0, 0), TileWant(t, sheet, pick))
  {
    ghost var y0, x0 := Times(t.tileH, row), Times(t.tileBytes, col);
    StepIsPixels(t);
    BlockIn(row, t.srcRows, t.tileH, 0);
    BlockIn(col, t.srcCols, t.tileBytes, 0);
    var tileIdx := pick(row, col);
    var tileIdxY := tileIdx / t.sheetCols;
    if IsRGB(t.csp) {
      tileIdxY := t.sheetRows - 1 - tileIdxY;
    }
    var cropLeft := (tileIdx % t.sheetCols) * t.tileBytes;
    var cropTop := tileIdxY * t.tileH;
    ghost var cell := t.SheetCell(tileIdx);
    CropIs(t, tileIdx, tileIdxY, cropTop, cropLeft);
    CellWant(t, sheet, pick, row, col, cell.0, cell.1);
    CopyTile(dst, orig, DST_PITCH, Times(t.tileBytes, t.srcCols), Times(t.tileH, t.srcRows), t.tileH, t.tileW, t.wStep,
             t.bytesPerPixel, n, t.tileBytes, y0, x0, dstp, sheet, cropTop, cropLeft, TileWant(t, sheet, pick));
    assert Times(t.tileBytes, col + 1) == x0 + t.tileBytes;
  }

  /** The column loop of `GetFrame` for the cells of grid row `row`, whose
      first line starts at `rowStart`. */
  method CopyRow(t: TurnsTile, sheet: Plane, pick: (nat, nat) -> nat, dst: array<Byte>, DST_PITCH: nat,
                 ghost orig: seq<Byte>, n: nat, row: nat, rowStart: nat)
    requires t.Valid() && SheetFrame(t, sheet) && n == StepBytes(t.csp) && row < t.srcRows
    requires forall col: nat :: col < t.srcCols ==> pick(row, col) < t.sheetTiles
    requires Times(t.tileBytes, t.srcCols) <= DST_PITCH
    requires Idx(DST_PITCH, Times(t.tileH, t.srcRows) - 1, Times(t.tileBytes, t.srcCols)) <= dst.Length
    requires rowStart == Idx(DST_PITCH, Times(t.tileH, row), 0)
    requires Filled(dst[..], orig, DST_PITCH, Drawn(Times(t.tileBytes, t.srcCols), t.tileH, t.tileBytes,
                                                    Times(t.tileH, row), 0, 0, 0), TileWant(t, sheet, pick))
    modifies dst
    ensures Filled(dst[..], orig, DST_PITCH, Drawn(Times(t.tileBytes, t.srcCols), t.tileH, t.tileBytes,
                                                   Times(t.tileH, row + 1), 0, 0, 0), TileWant(t, sheet, pick))
  {
    ghost var y0, width := Times(t.tileH, row), Times(t.tileBytes, t.srcCols);
    ghost var want := TileWant(t, sheet, pick);
    for col := 0 to t.srcCols
      invariant Filled(dst[..], orig, DST_PITCH, Drawn(width, t.tileH, t.tileBytes, y0, Times(t.tileBytes, col), 0, 0), want)
    {
      TimesIs(t.tileBytes, col);
      IdxRow(DST_PITCH, y0, Times(t.tileBytes, col));
      var dstp := rowStart + col * t.tileBytes;
      CopyCell(t, sheet, pick, dst, DST_PITCH, orig, n, row, col, dstp);
    }
    FillSame(dst[..], orig, DST_PITCH, Drawn(width, t.tileH, t.tileBytes, y0, width, 0, 0),
             Drawn(width, t.tileH, t.tileBytes, Times(t.tileH, row + 1), 0, 0, 0), want);
  }

  /** `GetFrame`: for every cell of the frame's grid, row by row and left to
      right, the tile `pick` chooses is copied line by line from the sheet.
      The sheet is only read. */
  method GetFrame(t: TurnsTile, sheet: Plane, pick: (nat, nat) -> nat, dst: array<Byte>, DST_PITCH: nat)
    requires t.Valid() && SheetFrame(t, sheet)
    requires forall row: nat, col: nat :: row < t.srcRows && col < t.srcCols ==> pick(row, col) < t.sheetTiles
    requires Plane(dst[..], DST_PITCH, Times(t.tileBytes, t.srcCols), Times(t.tileH, t.srcRows)).Valid()
    modifies dst
    ensures Filled(dst[..], old(dst[..]), DST_PITCH, InGrid(Times(t.tileH, t.srcRows), Times(t.tileBytes, t.srcCols)),
                   TileWant(t, sheet, pick))
  {
    ghost var width, height := Times(t.tileBytes, t.srcCols), Times(t.tileH, t.srcRows);
    ghost var orig := dst[..];
    ghost var want := TileWant(t, sheet, pick);
    assert width <= DST_PITCH && 1 <= height && Idx(DST_PITCH, height - 1, width) <= dst.Length;
    StepIsPixels(t);
    BlockIn(0, t.srcRows, t.tileH, 0);
    var n := if t.csp == RGB24 then 3 else 4;
    assert n == StepBytes(t.csp);
    FillStart(dst[..], DST_PITCH, Drawn(width, t.tileH, t.tileBytes, 0, 0, 0, 0), want);
    var rowStart := 0;
    for row := 0 to t.srcRows
      invariant rowStart == Idx(DST_PITCH, Times(t.tileH, row), 0)
      invariant Filled(dst[..], orig, DST_PITCH, Drawn(width, t.tileH, t.tileBytes, Times(t.tileH, row), 0, 0, 0), want)
    {
      CopyRow(t, sheet, pick, dst, DST_PITCH, orig, n, row, rowStart);
      LinesDown(DST_PITCH, Times(t.tileH, row), t.tileH);
      rowStart := rowStart + DST_PITCH * t.tileH;
    }
    FillSame(dst[..], orig, DST_PITCH, Drawn(width, t.tileH, t.tileBytes, height, 0, 0, 0),
             InGrid(height, width), want);
  }

  /** What `GetFrame` leaves, byte by byte: byte `j` of line `h` of cell
      (`row`, `col`) is byte `j` of line `h` of the picked tile, which sits in
      cell (`sr`, `sc`) of the sheet. */
  lemma {:induction false} GetFrameBytes(t: TurnsTile, sheet: Plane, pick: (nat, nat) -> nat, s: seq<Byte>, orig: seq<Byte>,
                                         pitch: nat, row: nat, col: nat, h: nat, j: nat, sr: nat, sc: nat)
    requires t.Valid() && SheetFrame(t, sheet)
    requires Plane(s, pitch, Times(t.tileBytes, t.srcCols), Times(t.tileH, t.srcRows)).Valid()
    requires Filled(s, orig, pitch, InGrid(Times(t.tileH, t.srcRows), Times(t.tileBytes, t.srcCols)), TileWant(t, sheet, pick))
    requires row < t.srcRows && col < t.srcCols && h < t.tileH && j < t.tileBytes
    requires pick(row, col) < t.sheetTiles && (sr, sc) == t.SheetCell(pick(row, col))
    ensures Idx(pitch, Times(t.tileH, row) + h, Times(t.tileBytes, col) + j) < |s|
    ensures Idx(sheet.pitch, Times(t.tileH, sr) + h, Times(t.tileBytes, sc) + j) < |sheet.data|
    ensures s[Idx(pitch, Times(t.tileH, row) + h, Times(t.tileBytes, col) + j)] ==
            sheet.data[Idx(sheet.pitch, Times(t.tileH, sr) + h, Times(t.tileBytes, sc) + j)]
  {
    var y, x := Times(t.tileH, row) + h, Times(t.tileBytes, col) + j;
    var height, width := Times(t.tileH, t.srcRows), Times(t.tileBytes, t.srcCols);
    StepIsPixels(t);
    InGridAt(t, row, col, h, j);
    RowFits(pitch, y, height, width, x, |s|);
    FilledAt(s, orig, pitch, InGrid(height, width), TileWant(t, sheet, pick), y, x);
    WantedByte(t, sheet, pick, row, col, h, j, sr, sc);
  }

  /** Byte `j` of line `h` of cell (`row`, `col`) is inside the grid. */
  lemma {:induction false} InGridAt(t: TurnsTile, row: nat, col: nat, h: nat, j: nat)
    requires t.tileH >= 1 && t.tileBytes >= 1
    requires row < t.srcRows && col < t.srcCols && h < t.tileH && j < t.tileBytes
    ensures InGrid(Times(t.tileH, t.srcRows), Times(t.tileBytes, t.srcCols))(Times(t.tileH, row) + h, Times(t.tileBytes, col) + j)
  {
    BlockIn(row, t.srcRows, t.tileH, h);
    BlockIn(col, t.srcCols, t.tileBytes, j);
  }

  /** The wanted byte of byte `j` of line `h` of cell (`row`, `col`) is read
      from the sheet at the matching byte of cell (`sr`, `sc`). */
  lemma {:induction false} WantedByte(t: TurnsTile, sheet: Plane, pick: (nat, nat) -> nat,
                                      row: nat, col: nat, h: nat, j: nat, sr: nat, sc: nat)
    requires t.Valid() && SheetFrame(t, sheet)
    requires h < t.tileH && j < t.tileBytes
    requires pick(row, col) < t.sheetTiles && (sr, sc) == t.SheetCell(pick(row, col))
    ensures Idx(sheet.pitch, Times(t.tileH, sr) + h, Times(t.tileBytes, sc) + j) < |sheet.data|
    ensures TileWant(t, sheet, pick)(Times(t.tileH, row) + h, Times(t.tileBytes, col) + j) ==
            sheet.data[Idx(sheet.pitch, Times(t.tileH, sr) + h, Times(t.tileBytes, sc) + j)]
  {
    var top, left := Times(t.tileH, sr) + h, Times(t.tileBytes, sc) + j;
    CellFits(t, sheet, pick, row, col, sr, sc);
    CellWantAt(t, sheet, pick, row, col, sr, sc, h, j);
    ShiftedIs(TileWant(t, sheet, pick), Times(t.tileH, row), Times(t.tileBytes, col), h, j);
    PlaneAt(sheet, top, left, Idx(sheet.pitch, top, left));
    GetAt(sheet, top, left);
  }
}
