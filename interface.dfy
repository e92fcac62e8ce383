/** The script-facing entry points: argument checks, the default tile size
    search and the lotile/hitile clamps of `TurnsTile(...)`, and the checks of
    `CLUTer(...)`.  A thrown script error is an `Err` carrying which check
    failed; the first failing check wins, as in the source. */
module Interface {
  import opened Raster

  // ---------------------------------------------------------------------------
  // Clips

  /** The colourspaces the plugin tells apart; anything else is `Unsupported`. */
  datatype ColorSpace = RGB32 | RGB24 | YUY2 | YV12 | Unsupported

  predicate IsRGB(csp: ColorSpace) { csp == RGB32 || csp == RGB24 }

  predicate Supported(csp: ColorSpace) { csp != Unsupported }

  /** What the entry points read of a clip's video info. */
  datatype ClipInfo = ClipInfo(csp: ColorSpace, width: nat, height: nat)

  /** What the host guarantees of every clip: YUY2 and YV12 frames are an even
      number of pixels wide, and YV12 frames an even number of rows high. */
  predicate HostValid(c: ClipInfo)
  {
    (c.csp == YUY2 || c.csp == YV12 ==> c.width % 2 == 0) && (c.csp == YV12 ==> c.height % 2 == 0)
  }

  /** The script arguments of `TurnsTile`; `None` stands for an argument left out. */
  datatype Args = Args(tileW: Option<int>, tileH: Option<int>, res: Option<int>, mode: Option<int>,
                       loTile: Option<int>, hiTile: Option<int>, interlaced: Option<bool>)

  function AsInt(a: Option<int>, default: int): int
  {
    if a.Some? then a.value else default
  }

  function AsBool(a: Option<bool>, default: bool): bool
  {
    if a.Some? then a.value else default
  }

  /** Why a call is refused, one variant per script error. */
  datatype CreateError =
    | UnsupportedColorSpace
    | ClipHeightNotMod4          // interlaced YV12 clip
    | SheetHeightNotMod4         // interlaced YV12 tilesheet
    | ClipHeightOdd              // interlaced clip
    | SheetHeightOdd             // interlaced tilesheet
    | ColorSpaceMismatch
    | ModeOutOfRange(maxMode: nat)
    | TileWBelowMin(minW: nat)
    | TileHBelowMin(minH: nat)
    | TileWTooLarge(limitW: nat)
    | TileHTooLarge(limitH: nat)
    | TileWNotMultiple(minW: nat)
    | TileHNotMultiple(minH: nat)
    | TileWNotFactor(limitW: nat)
    | TileHNotFactor(limitH: nat)
    | LoTileAboveHiTile

  /** What reaches the filter's constructor. `mode` is passed only with a tilesheet. */
  datatype TurnsTileParams = TurnsTileParams(tileW: int, tileH: int, res: int, mode: Option<int>,
                                             loTile: int, hiTile: int, interlaced: bool)

  const DEFAULT_TILESIZE: nat := 16

  // ---------------------------------------------------------------------------
  // Minimum tile sizes

  /** Two pixels for the chroma-shared YUY2 and YV12 layouts, one for RGB. */
  function MinTileW(csp: ColorSpace): (m: nat)
    ensures m == 1 || m == 2
    ensures m == 2 <==> csp == YUY2 || csp == YV12
  {
    if csp == YUY2 || csp == YV12 then 2 else 1
  }

  /** Four rows for interlaced YV12, two for YV12 or interlaced input, else one. */
  function MinTileH(csp: ColorSpace, interlaced: bool): (m: nat)
    ensures m == 1 || m == 2 || m == 4
    ensures m == 4 <==> csp == YV12 && interlaced
    ensures m == 1 <==> csp != YV12 && !interlaced
  {
    if csp == YV12 && interlaced then 4
    else if csp == YV12 || interlaced then 2
    else 1
  }

  // ---------------------------------------------------------------------------
  // Divisibility and the greatest common factor

  lemma DividesAdd(a: nat, b: nat, m: nat)
    requires m > 0 && a % m == 0 && b % m == 0
    ensures (a + b) % m == 0
  {
    Decompose(a, m);
    Decompose(b, m);
    assert a + b == m * (a / m + b / m);
    DivMod(m, a / m + b / m, 0);
  }

  lemma DividesSub(a: nat, b: nat, m: nat)
    requires m > 0 && a <= b && a % m == 0 && b % m == 0
    ensures (b - a) % m == 0
  {
    Decompose(a, m);
    Decompose(b, m);
    assert b - a == m * (b / m - a / m);
    DivMod(m, b / m - a / m, 0);
  }

  lemma DividesMul(q: nat, b: nat, m: nat)
    requires m > 0 && b % m == 0
    ensures (q * b) % m == 0
  {
    Decompose(b, m);
    var k := b / m;
    assert q * b == m * (q * k);
    DivMod(m, q * k, 0);
  }

  /** A positive multiple of `d` is at least `d`. */
  lemma DividesLe(d: nat, a: nat)
    requires d > 0 && a > 0 && a % d == 0
    ensures d <= a
  {
    if a < d {
      DivMod(d, 0, a);
      assert false;
    }
  }

  lemma DividesTrans(a: nat, b: nat, c: nat)
    requires a > 0 && b > 0 && b % a == 0 && c % b == 0
    ensures c % a == 0
  {
    Decompose(c, b);
    DividesMul(c / b, b, a);
    assert c == (c / b) * b;
  }

  /** Two multiples of `m` lie at least `m` apart. */
  lemma MultiplesApart(a: nat, b: nat, m: nat)
    requires m > 0 && a < b && a % m == 0 && b % m == 0
    ensures a + m <= b
  {
    DividesSub(a, b, m);
    DividesLe(m, b - a);
  }

  /** The greatest common factor, by Euclid's algorithm. */
  function Gcd(a: nat, b: nat): nat
    decreases b
  {
    if b == 0 then a else Gcd(b, a % b)
  }

  /** The greatest common factor of two numbers, not both zero, is positive and
      divides both. */
  lemma {:induction false} GcdDivides(a: nat, b: nat)
    requires a > 0 || b > 0
    ensures Gcd(a, b) > 0 && a % Gcd(a, b) == 0 && b % Gcd(a, b) == 0
    decreases b
  {
    if b == 0 {
      DivMod(a, 1, 0);
      DivMod(a, 0, 0);
    } else {
      var g := Gcd(b, a % b);
      GcdDivides(b, a % b);
      Decompose(a, b);
      DividesMul(a / b, b, g);
      DividesAdd((a / b) * b, a % b, g);
      assert a == (a / b) * b + a % b;
    }
  }

  /** Every common divisor divides the greatest common factor. */
  lemma {:induction false} GcdGreatest(a: nat, b: nat, d: nat)
    requires d > 0 && a % d == 0 && b % d == 0
    ensures Gcd(a, b) % d == 0
    decreases b
  {
    if b > 0 {
      Decompose(a, b);
      DividesMul(a / b, b, d);
      DividesSub((a / b) * b, a, d);
      assert a - (a / b) * b == a % b;
      GcdGreatest(b, a % b, d);
    }
  }

  // ---------------------------------------------------------------------------
  // The default tile size

  /** `t` divides the clip's dimension and, when there is a tilesheet, the
      sheet's as well. */
  predicate TileFits(t: nat, clip: nat, sheet: Option<nat>)
  {
    t > 0 && clip % t == 0 && (sheet.Some? ==> sheet.value % t == 0)
  }

  /** Where the search starts: the largest multiple of the minimum that is at
      most 16. */
  function StartTile(min: nat): (t: nat)
    requires min == 1 || min == 2 || min == 4
    ensures min <= t <= DEFAULT_TILESIZE && t % min == 0
  {
    (DEFAULT_TILESIZE / min) * min
  }

  /** The search as a function: from `t` down in steps of `min`, the first size
      that fits.  The minimum itself always fits, so the search stops there at
      the latest. */
  function LargestFit(t: nat, min: nat, clip: nat, sheet: Option<nat>): (r: nat)
    requires min > 0 && min <= t && t % min == 0 && TileFits(min, clip, sheet)
    ensures min <= r <= t && r % min == 0 && TileFits(r, clip, sheet)
    decreases t
  {
    if TileFits(t, clip, sheet) then t
    else
      NextMultiple(t, min);
      LargestFit(t - min, min, clip, sheet)
  }

  /** One step down from a multiple of `min` above `min` is still a multiple of
      `min`, and not below it. */
  lemma NextMultiple(t: nat, min: nat)
    requires min > 0 && min < t && t % min == 0
    ensures min <= t - min && (t - min) % min == 0
  {
    DivMod(min, 1, 0);
    MultiplesApart(min, t, min);
    DividesSub(min, t, min);
  }

  /** No multiple of `min` above the search's result, up to where it started,
      fits: the result is the largest that does. */
  lemma {:induction false} LargestFitIsLargest(t: nat, min: nat, clip: nat, sheet: Option<nat>)
    requires min > 0 && min <= t && t % min == 0 && TileFits(min, clip, sheet)
    ensures forall t' :: LargestFit(t, min, clip, sheet) < t' <= t && t' % min == 0 ==> !TileFits(t', clip, sheet)
    decreases t
  {
    if !TileFits(t, clip, sheet) {
      NextMultiple(t, min);
      LargestFitIsLargest(t - min, min, clip, sheet);
      forall t' | LargestFit(t, min, clip, sheet) < t' <= t && t' % min == 0
        ensures !TileFits(t', clip, sheet)
      {
        if t' < t {
          MultiplesApart(t', t, min);
        }
      }
    }
  }

  /** The default-size loop: start at `StartTile(min)` and step down by `min`
      while the size leaves a remainder in the clip's (or the sheet's)
      dimension. */
  method DefaultTile(min: nat, clip: nat, sheet: Option<nat>) returns (t: nat)
    requires min == 1 || min == 2 || min == 4
    requires TileFits(min, clip, sheet)
    ensures t == LargestFit(StartTile(min), min, clip, sheet)
  {
    t := (DEFAULT_TILESIZE / min) * min;
    while clip % t > 0 || (sheet.Some? && sheet.value % t > 0)
      invariant min <= t && t % min == 0
      invariant LargestFit(t, min, clip, sheet) == LargestFit(StartTile(min), min, clip, sheet)
      decreases t
    {
      NextMultiple(t, min);
      t := t - min;
    }
  }

  /** The square-tile preference: take the height for the width when it fits
      the width's dimension and is a multiple of the width's minimum, then the
      width for the height likewise. */
  function Square(w: nat, h: nat, minW: nat, minH: nat,
                  clipW: nat, clipH: nat, sheetW: Option<nat>, sheetH: Option<nat>): (wh: (nat, nat))
    requires minW > 0 && minH > 0
    ensures wh.0 == w || (wh.0 == h && TileFits(h, clipW, sheetW) && h % minW == 0)
    ensures wh.1 == h || (wh.1 == wh.0 && TileFits(wh.0, clipH, sheetH) && wh.0 % minH == 0)
  {
    var w' := if w != h && TileFits(h, clipW, sheetW) && h % minW == 0 then h else w;
    var h' := if h != w' && TileFits(w', clipH, sheetH) && w' % minH == 0 then w' else h;
    (w', h')
  }

  /** The square-tile preference of the tilesheet overload as written: it does
      not ask that the height be a multiple of the width's minimum (nor the
      width of the height's). */
  function SquareAsWritten(w: nat, h: nat, clipW: nat, clipH: nat, sheetW: nat, sheetH: nat): (wh: (nat, nat))
    ensures wh.0 == w || (wh.0 == h && TileFits(h, clipW, Some(sheetW)))
    ensures wh.1 == h || (wh.1 == wh.0 && TileFits(wh.0, clipH, Some(sheetH)))
  {
    var w' := if w != h && TileFits(h, clipW, Some(sheetW)) then h else w;
    var h' := if h != w' && TileFits(w', clipH, Some(sheetH)) then w' else h;
    (w', h')
  }

  /** The tile size an argument left out defaults to: the searched size, or
      the minimum when the search ended at or below it. */
  function DefaultOr(arg: Option<int>, searched: nat, min: nat): int
  {
    AsInt(arg, if searched <= min then min else searched)
  }

  /** The tile sizes before validation: the arguments, or the searched and
      squared defaults. */
  function ChooseTiles(args: Args, minW: nat, minH: nat, clipW: nat, clipH: nat,
                       sheetW: Option<nat>, sheetH: Option<nat>): (int, int)
    requires (minW == 1 || minW == 2) && (minH == 1 || minH == 2 || minH == 4)
    requires TileFits(minW, clipW, sheetW) && TileFits(minH, clipH, sheetH)
  {
    var wh := Square(LargestFit(StartTile(minW), minW, clipW, sheetW),
                     LargestFit(StartTile(minH), minH, clipH, sheetH), minW, minH, clipW, clipH, sheetW, sheetH);
    (DefaultOr(args.tileW, wh.0, minW), DefaultOr(args.tileH, wh.1, minH))
  }

  /** `ChooseTiles` of the tilesheet overload as written, with `SquareAsWritten`. */
  function ChooseTilesAsWritten(args: Args, minW: nat, minH: nat, clipW: nat, clipH: nat,
                                sheetW: nat, sheetH: nat): (int, int)
    requires (minW == 1 || minW == 2) && (minH == 1 || minH == 2 || minH == 4)
    requires TileFits(minW, clipW, Some(sheetW)) && TileFits(minH, clipH, Some(sheetH))
  {
    var wh := SquareAsWritten(LargestFit(StartTile(minW), minW, clipW, Some(sheetW)),
                              LargestFit(StartTile(minH), minH, clipH, Some(sheetH)), clipW, clipH, sheetW, sheetH);
    (DefaultOr(args.tileW, wh.0, minW), DefaultOr(args.tileH, wh.1, minH))
  }

  // ---------------------------------------------------------------------------
  // Validating the tile size

  /** A tile dimension the filter accepts: at least the minimum, at most the
      limit (the greatest common factor of clip and sheet, or the clip's own
      dimension), a multiple of the minimum and a factor of the limit. */
  predicate TileAccepted(t: int, min: nat, limit: nat)
  {
    min <= t <= limit && min > 0 && t % min == 0 && limit % t == 0
  }

  /** The eight tile checks in the source's order, the width's and the
      height's interleaved; `None` when all pass. */
  function TileCheck(w: int, h: int, minW: nat, minH: nat, limW: nat, limH: nat): (e: Option<CreateError>)
    requires minW > 0 && minH > 0
    ensures e.None? <==> TileAccepted(w, minW, limW) && TileAccepted(h, minH, limH)
    ensures e == Some(TileWBelowMin(minW)) <==> w < minW
    ensures e == Some(TileHBelowMin(minH)) <==> minW <= w && h < minH
    ensures e == Some(TileWTooLarge(limW)) <==> minW <= w && minH <= h && w > limW
    ensures e == Some(TileHTooLarge(limH)) <==> minW <= w <= limW && minH <= h && h > limH
    ensures e == Some(TileWNotMultiple(minW)) <==> minW <= w <= limW && minH <= h <= limH && w % minW != 0
    ensures e == Some(TileHNotMultiple(minH)) <==>
              minW <= w <= limW && minH <= h <= limH && w % minW == 0 && h % minH != 0
    ensures e == Some(TileWNotFactor(limW)) <==>
              minW <= w <= limW && minH <= h <= limH && w % minW == 0 && h % minH == 0 && limW % w != 0
  {
    if w < minW then Some(TileWBelowMin(minW))
    else if h < minH then Some(TileHBelowMin(minH))
    else if w > limW then Some(TileWTooLarge(limW))
    else if h > limH then Some(TileHTooLarge(limH))
    else if w % minW > 0 then Some(TileWNotMultiple(minW))
    else if h % minH > 0 then Some(TileHNotMultiple(minH))
    else if limW % w > 0 then Some(TileWNotFactor(limW))
    else if limH % h > 0 then Some(TileHNotFactor(limH))
    else None
  }

  /** The limit a tile dimension is checked against: the greatest common factor
      of the clip's and the sheet's dimension, or the clip's alone. */
  function Limit(clip: nat, sheet: Option<nat>): nat
  {
    if sheet.Some? then Gcd(clip, sheet.value) else clip
  }

  /** An accepted tile dimension divides the clip's dimension and the sheet's:
      the frame and the sheet are whole numbers of tiles. */
  lemma AcceptedFits(t: int, min: nat, clip: nat, sheet: Option<nat>)
    requires TileAccepted(t, min, Limit(clip, sheet))
    ensures TileFits(t, clip, sheet)
  {
    if sheet.Some? {
      GcdDivides(clip, sheet.value);
      DividesTrans(t, Gcd(clip, sheet.value), clip);
      DividesTrans(t, Gcd(clip, sheet.value), sheet.value);
    }
  }

  /** With no tile arguments, and dimensions that are not zero, the defaults
      pass every tile check. */
  lemma DefaultsAccepted(args: Args, minW: nat, minH: nat, clipW: nat, clipH: nat,
                         sheetW: Option<nat>, sheetH: Option<nat>)
    requires (minW == 1 || minW == 2) && (minH == 1 || minH == 2 || minH == 4)
    requires TileFits(minW, clipW, sheetW) && TileFits(minH, clipH, sheetH)
    requires clipW > 0 && clipH > 0
    requires args.tileW.None? && args.tileH.None?
    ensures var wh := ChooseTiles(args, minW, minH, clipW, clipH, sheetW, sheetH);
            TileCheck(wh.0, wh.1, minW, minH, Limit(clipW, sheetW), Limit(clipH, sheetH)).None?
  {
    var w0 := LargestFit(StartTile(minW), minW, clipW, sheetW);
    var h0 := LargestFit(StartTile(minH), minH, clipH, sheetH);
    var wh := Square(w0, h0, minW, minH, clipW, clipH, sheetW, sheetH);
    DividesLe(minW, wh.0);
    DividesLe(minH, wh.1);
    FitAccepted(wh.0, minW, clipW, sheetW);
    FitAccepted(wh.1, minH, clipH, sheetH);
  }

  /** A multiple of the minimum that fits both dimensions is accepted. */
  lemma FitAccepted(t: nat, min: nat, clip: nat, sheet: Option<nat>)
    requires min > 0 && min <= t && t % min == 0 && TileFits(t, clip, sheet) && clip > 0
    ensures TileAccepted(t, min, Limit(clip, sheet))
  {
    if sheet.Some? {
      GcdGreatest(clip, sheet.value, t);
      GcdDivides(clip, sheet.value);
      DividesLe(t, Gcd(clip, sheet.value));
    } else {
      DividesLe(t, clip);
    }
  }

  /** As written, a YUY2 clip and tilesheet of 30x15 pixels with no tile
      arguments get a default width of 15, which the multiple-of-two check then
      refuses; the corrected preference keeps the width at 10 and succeeds. */
  lemma DefaultsRefusedAsWritten()
    ensures var args := Args(None, None, None, None, None, None, None);
            var wh := ChooseTilesAsWritten(args, 2, 1, 30, 15, 30, 15);
            var clip := ClipInfo(YUY2, 30, 15);
            wh == (15, 15) &&
            TileCheck(wh.0, wh.1, 2, 1, Limit(30, Some(30)), Limit(15, Some(15))) == Some(TileWNotMultiple(2)) &&
            CreateWithSheet(clip, clip, args) == Err(TileWNotMultiple(2)) &&
            CreateWithSheetCorrected(clip, clip, args).Ok? &&
            CreateWithSheetCorrected(clip, clip, args).value.tileW == 10 &&
            CreateWithSheetCorrected(clip, clip, args).value.tileH == 15
  {
    var args := Args(None, None, None, None, None, None, None);
    var clip := ClipInfo(YUY2, 30, 15);
    assert LargestFit(16, 2, 30, Some(30)) == 10 by {
      assert !TileFits(16, 30, Some(30)) && !TileFits(14, 30, Some(30)) && !TileFits(12, 30, Some(30));
      assert LargestFit(16, 2, 30, Some(30)) == LargestFit(14, 2, 30, Some(30)) == LargestFit(12, 2, 30, Some(30));
    }
    assert LargestFit(16, 1, 15, Some(15)) == 15;
    assert Gcd(30, 30) == 30 && Gcd(15, 15) == 15;
  }

  // ---------------------------------------------------------------------------
  // The lotile and hitile clamps

  /** `lotile`, default 0, clamped into `[0, max]` with the lower bound checked first. */
  function ClampLo(arg: Option<int>, max: int): (lo: int)
    ensures max >= 0 ==> 0 <= lo <= max
    ensures max >= 0 && arg.Some? && 0 <= arg.value <= max ==> lo == arg.value
    ensures arg.None? ==> lo == 0
  {
    var v := AsInt(arg, 0);
    if v <= 0 then 0 else if v >= max then max else v
  }

  /** `hitile`, default `max`, clamped into `[0, max]` with the upper bound checked first. */
  function ClampHi(arg: Option<int>, max: int): (hi: int)
    ensures max >= 0 ==> 0 <= hi <= max
    ensures arg.Some? && 0 <= arg.value <= max ==> hi == arg.value
    ensures arg.None? ==> hi == max
  {
    var v := AsInt(arg, max);
    if v >= max then max else if v <= 0 then 0 else v
  }

  // ---------------------------------------------------------------------------
  // TurnsTile(c, tilesheet, ...)

  /** The highest mode each colourspace allows with a tilesheet. */
  function MaxMode(csp: ColorSpace): nat
  {
    match csp
    case RGB32 => 4
    case RGB24 => 3
    case YUY2 => 4
    case YV12 => 6
    case Unsupported => 0
  }

  /** The interlacing and colourspace checks of the tilesheet overload, in order. */
  function SheetPrechecks(clip: ClipInfo, sheet: ClipInfo, interlaced: bool, mode: int): (e: Option<CreateError>)
    ensures e.None? ==> clip.csp == sheet.csp && 0 <= mode <= MaxMode(clip.csp)
    ensures e.None? && interlaced ==> clip.height % 2 == 0 && sheet.height % 2 == 0
    ensures e.None? && interlaced && clip.csp == YV12 ==> clip.height % 4 == 0 && sheet.height % 4 == 0
    ensures interlaced && clip.csp == YV12 && clip.height % 4 != 0 ==> e == Some(ClipHeightNotMod4)
    ensures e == Some(ColorSpaceMismatch) ==> clip.csp != sheet.csp
  {
    if interlaced && clip.csp == YV12 && clip.height % 4 != 0 then Some(ClipHeightNotMod4)
    else if interlaced && sheet.csp == YV12 && sheet.height % 4 != 0 then Some(SheetHeightNotMod4)
    else if interlaced && clip.height % 2 != 0 then Some(ClipHeightOdd)
    else if interlaced && sheet.height % 2 != 0 then Some(SheetHeightOdd)
    else if clip.csp != sheet.csp then Some(ColorSpaceMismatch)
    else if mode < 0 || mode > MaxMode(clip.csp) then Some(ModeOutOfRange(MaxMode(clip.csp)))
    else None
  }

  /** The tile height the filter sees is half the validated one when interlaced:
      it works on fields. */
  function FieldTileH(tileH: int, interlaced: bool): int
  {
    if interlaced then tileH / 2 else tileH
  }

  /** How many tiles the sheet holds. */
  function SheetTiles(sheet: ClipInfo, tileW: int, tileH: int): int
    requires tileW > 0 && tileH > 0
  {
    (sheet.width / tileW) * (sheet.height / tileH)
  }

  /** `TurnsTile` with a tilesheet, as written: interlacing and colourspace
      checks, the mode range, the tile size (argument, or the searched default
      squared by `SquareAsWritten`) against the greatest common factors of clip
      and sheet, then the clamped tile range. */
  function CreateWithSheet(clip: ClipInfo, sheet: ClipInfo, args: Args): (r: Result<TurnsTileParams, CreateError>)
    requires Supported(clip.csp) && HostValid(clip) && HostValid(sheet)
    ensures r.Ok? ==>
              var p := r.value;
              var fullH := if p.interlaced then 2 * p.tileH else p.tileH;
              clip.csp == sheet.csp && p.mode.Some? && 0 <= p.mode.value <= MaxMode(clip.csp) &&
              TileAccepted(p.tileW, MinTileW(clip.csp), Gcd(clip.width, sheet.width)) &&
              TileAccepted(fullH, MinTileH(clip.csp, p.interlaced), Gcd(clip.height, sheet.height)) &&
              TileFits(p.tileW, clip.width, Some(sheet.width)) &&
              TileFits(fullH, clip.height, Some(sheet.height)) && p.tileH >= 1 && p.loTile <= p.hiTile &&
              (sheet.width > 0 && sheet.height > 0 ==> 0 <= p.loTile && p.hiTile < SheetTiles(sheet, p.tileW, fullH))
    ensures SheetPrechecks(clip, sheet, AsBool(args.interlaced, false), AsInt(args.mode, 0)).Some? ==>
              r == Err(SheetPrechecks(clip, sheet, AsBool(args.interlaced, false), AsInt(args.mode, 0)).value)
  {
    var interlaced := AsBool(args.interlaced, false);
    var mode := AsInt(args.mode, 0);
    var pre := SheetPrechecks(clip, sheet, interlaced, mode);
    if pre.Some? then Err(pre.value)
    else
      var minW, minH := MinTileW(clip.csp), MinTileH(clip.csp, interlaced);
      var wh := ChooseTilesAsWritten(args, minW, minH, clip.width, clip.height, sheet.width, sheet.height);
      SheetTileParams(clip, sheet, args, interlaced, mode, wh)
  }

  /** `CreateWithSheet` with the square-tile preference of the overload
      without a tilesheet, which keeps the defaults multiples of the minimum. */
  function CreateWithSheetCorrected(clip: ClipInfo, sheet: ClipInfo, args: Args): (r: Result<TurnsTileParams, CreateError>)
    requires Supported(clip.csp) && HostValid(clip) && HostValid(sheet)
    ensures r.Ok? ==>
              var p := r.value;
              var fullH := if p.interlaced then 2 * p.tileH else p.tileH;
              clip.csp == sheet.csp && p.mode.Some? && 0 <= p.mode.value <= MaxMode(clip.csp) &&
              TileAccepted(p.tileW, MinTileW(clip.csp), Gcd(clip.width, sheet.width)) &&
              TileAccepted(fullH, MinTileH(clip.csp, p.interlaced), Gcd(clip.height, sheet.height)) &&
              TileFits(p.tileW, clip.width, Some(sheet.width)) &&
              TileFits(fullH, clip.height, Some(sheet.height)) && p.tileH >= 1 && p.loTile <= p.hiTile &&
              (sheet.width > 0 && sheet.height > 0 ==> 0 <= p.loTile && p.hiTile < SheetTiles(sheet, p.tileW, fullH))
    ensures SheetPrechecks(clip, sheet, AsBool(args.interlaced, false), AsInt(args.mode, 0)).Some? ==>
              r == Err(SheetPrechecks(clip, sheet, AsBool(args.interlaced, false), AsInt(args.mode, 0)).value)
  {
    var interlaced := AsBool(args.interlaced, false);
    var mode := AsInt(args.mode, 0);
    var pre := SheetPrechecks(clip, sheet, interlaced, mode);
    if pre.Some? then Err(pre.value)
    else
      var minW, minH := MinTileW(clip.csp), MinTileH(clip.csp, interlaced);
      var wh := ChooseTiles(args, minW, minH, clip.width, clip.height, Some(sheet.width), Some(sheet.height));
      SheetTileParams(clip, sheet, args, interlaced, mode, wh)
  }

  /** Given both tile sizes, the two readings of the tilesheet overload agree:
      the square-tile preference only shapes the defaults. */
  lemma SheetExplicitTilesAgree(clip: ClipInfo, sheet: ClipInfo, args: Args)
    requires Supported(clip.csp) && HostValid(clip) && HostValid(sheet)
    requires args.tileW.Some? && args.tileH.Some?
    ensures CreateWithSheet(clip, sheet, args) == CreateWithSheetCorrected(clip, sheet, args)
  {
  }

  /** The part of the tilesheet overload after the interlacing, colourspace and
      mode checks have passed, for the tile sizes `wh` chosen before validation. */
  function SheetTileParams(clip: ClipInfo, sheet: ClipInfo, args: Args, interlaced: bool, mode: int, wh: (int, int))
    : (r: Result<TurnsTileParams, CreateError>)
    requires Supported(clip.csp) && HostValid(clip) && HostValid(sheet)
    requires SheetPrechecks(clip, sheet, interlaced, mode).None?
    ensures r.Ok? ==>
              var p := r.value;
              var fullH := if p.interlaced then 2 * p.tileH else p.tileH;
              p.interlaced == interlaced && p.mode == Some(mode) && p.tileW == wh.0 && fullH == wh.1 &&
              TileAccepted(p.tileW, MinTileW(clip.csp), Gcd(clip.width, sheet.width)) &&
              TileAccepted(fullH, MinTileH(clip.csp, p.interlaced), Gcd(clip.height, sheet.height)) &&
              TileFits(p.tileW, clip.width, Some(sheet.width)) &&
              TileFits(fullH, clip.height, Some(sheet.height)) && p.tileH >= 1 && p.loTile <= p.hiTile &&
              (sheet.width > 0 && sheet.height > 0 ==> 0 <= p.loTile && p.hiTile < SheetTiles(sheet, p.tileW, fullH))
    ensures TileCheck(wh.0, wh.1, MinTileW(clip.csp), MinTileH(clip.csp, interlaced),
                      Gcd(clip.width, sheet.width), Gcd(clip.height, sheet.height)).Some? ==>
              r == Err(TileCheck(wh.0, wh.1, MinTileW(clip.csp), MinTileH(clip.csp, interlaced),
                               Gcd(clip.width, sheet.width), Gcd(clip.height, sheet.height)).value)
  {
    var minW, minH := MinTileW(clip.csp), MinTileH(clip.csp, interlaced);
    var bad := TileCheck(wh.0, wh.1, minW, minH, Gcd(clip.width, sheet.width), Gcd(clip.height, sheet.height));
    if bad.Some? then Err(bad.value)
    else
      AcceptedFits(wh.0, minW, clip.width, Some(sheet.width));
      AcceptedFits(wh.1, minH, clip.height, Some(sheet.height));
      SheetHoldsATile(clip, sheet, wh.0, wh.1, minW, minH);
      var max := SheetTiles(sheet, wh.0, wh.1) - 1;
      var lo, hi := ClampLo(args.loTile, max), ClampHi(args.hiTile, max);
      if lo > hi then Err(LoTileAboveHiTile)
      else
        HalfTile(wh.1, minH, interlaced);
        Ok(TurnsTileParams(wh.0, FieldTileH(wh.1, interlaced), AsInt(args.res, 8), Some(mode), lo, hi, interlaced))
  }

  /** A sheet that is not empty holds at least one accepted tile. */
  lemma SheetHoldsATile(clip: ClipInfo, sheet: ClipInfo, w: int, h: int, minW: nat, minH: nat)
    requires TileAccepted(w, minW, Gcd(clip.width, sheet.width)) && TileAccepted(h, minH, Gcd(clip.height, sheet.height))
    ensures sheet.width > 0 && sheet.height > 0 ==> SheetTiles(sheet, w, h) >= 1
  {
    if sheet.width > 0 && sheet.height > 0 {
      GcdDivides(clip.width, sheet.width);
      GcdDivides(clip.height, sheet.height);
      DividesLe(Gcd(clip.width, sheet.width), sheet.width);
      DividesLe(Gcd(clip.height, sheet.height), sheet.height);
      DivPos(sheet.width, w);
      DivPos(sheet.height, h);
      MulMono(sheet.width / w, 1, sheet.height / h);
    }
  }

  /** An accepted interlaced tile height is even, so halving it loses nothing. */
  lemma HalfTile(h: int, minH: nat, interlaced: bool)
    requires 0 < minH <= h && h % minH == 0 && (interlaced ==> minH % 2 == 0)
    ensures FieldTileH(h, interlaced) >= 1
    ensures (if interlaced then 2 * FieldTileH(h, interlaced) else FieldTileH(h, interlaced)) == h
  {
    if interlaced {
      DividesTrans(2, minH, h);
    }
  }

  // ---------------------------------------------------------------------------
  // TurnsTile(c, ...) without a tilesheet

  /** The interlacing checks of the overload without a tilesheet, in order. */
  function ClipPrechecks(clip: ClipInfo, interlaced: bool): (e: Option<CreateError>)
    ensures e.None? <==> !interlaced || (clip.height % 2 == 0 && (clip.csp == YV12 ==> clip.height % 4 == 0))
    ensures e == Some(ClipHeightNotMod4) <==> interlaced && clip.csp == YV12 && clip.height % 4 != 0
  {
    if clip.csp == YV12 && interlaced && clip.height % 4 != 0 then Some(ClipHeightNotMod4)
    else if interlaced && clip.height % 2 != 0 then Some(ClipHeightOdd)
    else None
  }

  /** `TurnsTile` without a tilesheet: the tiles come from the clip itself; the
      tile size is checked against the clip's dimensions, and the tile range is
      clamped into `[0, 255]` with no ordering check. */
  function CreateWithoutSheet(clip: ClipInfo, args: Args): (r: Result<TurnsTileParams, CreateError>)
    requires Supported(clip.csp) && HostValid(clip)
    ensures r.Ok? ==>
              var p := r.value;
              var minW, minH := MinTileW(clip.csp), MinTileH(clip.csp, p.interlaced);
              var fullH := if p.interlaced then 2 * p.tileH else p.tileH;
              p.mode.None? &&
              TileAccepted(p.tileW, minW, clip.width) && TileAccepted(fullH, minH, clip.height) && p.tileH >= 1 &&
              0 <= p.loTile <= 255 && 0 <= p.hiTile <= 255
    ensures r.Err? <==>
              ClipPrechecks(clip, AsBool(args.interlaced, false)).Some? ||
              var minW, minH := MinTileW(clip.csp), MinTileH(clip.csp, AsBool(args.interlaced, false));
              var wh := ChooseTiles(args, minW, minH, clip.width, clip.height, None, None);
              !(TileAccepted(wh.0, minW, clip.width) && TileAccepted(wh.1, minH, clip.height))
  {
    var interlaced := AsBool(args.interlaced, false);
    var pre := ClipPrechecks(clip, interlaced);
    if pre.Some? then Err(pre.value)
    else
      var minW, minH := MinTileW(clip.csp), MinTileH(clip.csp, interlaced);
      var wh := ChooseTiles(args, minW, minH, clip.width, clip.height, None, None);
      var bad := TileCheck(wh.0, wh.1, minW, minH, clip.width, clip.height);
      if bad.Some? then Err(bad.value)
      else
        HalfTile(wh.1, minH, interlaced);
        Ok(TurnsTileParams(wh.0, FieldTileH(wh.1, interlaced), AsInt(args.res, 8), None,
                           ClampLo(args.loTile, 255), ClampHi(args.hiTile, 255), interlaced))
  }

  /** `Create_TurnsTile`: colourspace first, then the overload's own checks. */
  function CreateTurnsTile(clip: ClipInfo, sheet: Option<ClipInfo>, args: Args): (r: Result<TurnsTileParams, CreateError>)
    requires HostValid(clip) && (sheet.Some? ==> HostValid(sheet.value))
    ensures !Supported(clip.csp) <==> r == Err(UnsupportedColorSpace)
    ensures r.Ok? ==> (r.value.mode.Some? <==> sheet.Some?)
  {
    if !Supported(clip.csp) then Err(UnsupportedColorSpace)
    else if sheet.Some? then CreateWithSheet(clip, sheet.value, args)
    else CreateWithoutSheet(clip, args)
  }

  /** With the corrected square-tile preference, a tilesheet call with no tile
      size or tile range that passes the interlacing, colourspace and mode
      checks always succeeds: the defaults are never refused. */
  lemma SheetDefaultsSucceed(clip: ClipInfo, sheet: ClipInfo, args: Args)
    requires Supported(clip.csp) && HostValid(clip) && HostValid(sheet)
    requires clip.width > 0 && clip.height > 0 && sheet.width > 0 && sheet.height > 0
    requires args.tileW.None? && args.tileH.None? && args.loTile.None? && args.hiTile.None?
    requires SheetPrechecks(clip, sheet, AsBool(args.interlaced, false), AsInt(args.mode, 0)).None?
    ensures CreateWithSheetCorrected(clip, sheet, args).Ok?
  {
    var interlaced := AsBool(args.interlaced, false);
    var minW, minH := MinTileW(clip.csp), MinTileH(clip.csp, interlaced);
    DefaultsAccepted(args, minW, minH, clip.width, clip.height, Some(sheet.width), Some(sheet.height));
    var wh := ChooseTiles(args, minW, minH, clip.width, clip.height, Some(sheet.width), Some(sheet.height));
    SheetHoldsATile(clip, sheet, wh.0, wh.1, minW, minH);
  }

  /** Without a tilesheet, and no tile size given, a call that passes the
      interlacing checks always succeeds. */
  lemma ClipDefaultsSucceed(clip: ClipInfo, args: Args)
    requires Supported(clip.csp) && HostValid(clip) && clip.width > 0 && clip.height > 0
    requires args.tileW.None? && args.tileH.None?
    requires ClipPrechecks(clip, AsBool(args.interlaced, false)).None?
    ensures CreateWithoutSheet(clip, args).Ok?
  {
    var interlaced := AsBool(args.interlaced, false);
    var minW, minH := MinTileW(clip.csp), MinTileH(clip.csp, interlaced);
    DefaultsAccepted(args, minW, minH, clip.width, clip.height, None, None);
  }

  // ---------------------------------------------------------------------------
  // CLUTer(c, palette, ...)

  datatype CluterParams = CluterParams(paletteFrame: int, interlaced: bool)

  /** `Create_CLUTer`: colourspace supported and shared with the palette clip,
      then the interlaced height checks. */
  function CreateCluter(clip: ClipInfo, palette: ClipInfo, paletteFrame: Option<int>, interlaced: Option<bool>)
    : (r: Result<CluterParams, CreateError>)
    ensures r.Ok? <==>
              Supported(clip.csp) && clip.csp == palette.csp &&
              (AsBool(interlaced, false) ==> clip.height % 2 == 0 && (clip.csp == YV12 ==> clip.height % 4 == 0))
    ensures r == Err(UnsupportedColorSpace) <==> !Supported(clip.csp)
    ensures r == Err(ColorSpaceMismatch) <==> Supported(clip.csp) && clip.csp != palette.csp
    ensures r.Ok? ==> r.value == CluterParams(AsInt(paletteFrame, 0), AsBool(interlaced, false))
  {
    var il := AsBool(interlaced, false);
    if !Supported(clip.csp) then Err(UnsupportedColorSpace)
    else if clip.csp != palette.csp then Err(ColorSpaceMismatch)
    else if clip.csp == YV12 && il && clip.height % 4 != 0 then Err(ClipHeightNotMod4)
    else if il && clip.height % 2 != 0 then Err(ClipHeightOdd)
    else Ok(CluterParams(AsInt(paletteFrame, 0), il))
  }
}
