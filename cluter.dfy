/** CLUTer: maps every pixel of a clip to the nearest colour of a palette frame,
    through three lookup tables built once when the filter is created. */
module Cluter {
  import opened Raster
  import opened Palette

  /** The colourspaces CLUTer is handed. `Planar(subW, subH)` is a planar YUV
      format whose chroma planes are subsampled `subW` times horizontally and
      `subH` times vertically (YV12 is `Planar(2, 2)`); `Y8` is planar luma only. */
  datatype ColorSpace = RGB32 | RGB24 | YUY2 | Planar(subW: nat, subH: nat) | Y8

  predicate IsPlanar(csp: ColorSpace) { csp.Planar? || csp.Y8? }

  /** The packed (interleaved) colourspaces. */
  predicate IsPacked(csp: ColorSpace) { csp.RGB32? || csp.RGB24? || csp.YUY2? }

  /** `vi.BytesFromPixels(1)`: bytes per pixel of the first plane. */
  function BytesPerPixel(csp: ColorSpace): nat
  {
    match csp
    case RGB32 => 4
    case RGB24 => 3
    case YUY2 => 2
    case _ => 1
  }

  /** Luma samples per chroma sample across a row (`lumaW`). */
  function LumaW(csp: ColorSpace): nat
  {
    match csp
    case Planar(w, _) => w
    case YUY2 => 2
    case _ => 1
  }

  /** Luma rows per chroma row (`lumaH`). */
  function LumaH(csp: ColorSpace): nat
  {
    match csp
    case Planar(_, h) => h
    case _ => 1
  }

  /** A chroma factor of zero is not a colourspace. */
  predicate Supported(csp: ColorSpace) { csp.Planar? ==> csp.subW >= 1 && csp.subH >= 1 }

  /** The blocks the constructor works with: a 2x2 block for YV12, a 2x1
      macropixel for YUY2, single samples for RGB and for luma-only input. */
  lemma LumaBlocks()
    ensures LumaW(Planar(2, 2)) == 2 && LumaH(Planar(2, 2)) == 2
    ensures LumaW(YUY2) == 2 && LumaH(YUY2) == 1
    ensures forall csp :: csp in {RGB32, RGB24, Y8} ==> LumaW(csp) == 1 && LumaH(csp) == 1
  {
  }

  /** A frame as the host hands it over: the first plane (all of a packed frame,
      or the luma plane) and the chroma planes, absent for packed and luma-only
      frames. */
  datatype Frame = Frame(width: nat, height: nat, y: Plane, u: Option<Plane>, v: Option<Plane>)

  /** A packed frame of `csp`: rows of `width * BytesPerPixel(csp)` bytes. */
  predicate PackedFrame(csp: ColorSpace, f: Frame)
  {
    && IsPacked(csp)
    && f.y.Valid() && f.y.rowSize == Times(BytesPerPixel(csp), f.width) && f.y.height == f.height
    && (csp.YUY2? ==> f.width % 2 == 0)
  }

  predicate ChromaFits(p: Option<Plane>, width: nat, height: nat)
  {
    p.Some? ==> p.value.Valid() && p.value.rowSize == width && p.value.height == height
  }

  /** `width / lumaW`: chroma samples per row (`SRC_WIDTH_U`). */
  function ChromaWidth(csp: ColorSpace, f: Frame): nat
    requires Supported(csp)
  {
    Quot(f.width, LumaW(csp))
  }

  /** `height / lumaH`: chroma rows (`SRC_HEIGHT_U`). */
  function ChromaHeight(csp: ColorSpace, f: Frame): nat
    requires Supported(csp)
  {
    Quot(f.height, LumaH(csp))
  }

  /** The chroma size is the luma size divided by the subsampling factors. */
  lemma ChromaSize(csp: ColorSpace, f: Frame)
    requires Supported(csp)
    ensures ChromaWidth(csp, f) == f.width / LumaW(csp) && ChromaHeight(csp, f) == f.height / LumaH(csp)
  {
    QuotIs(f.width, LumaW(csp));
    QuotIs(f.height, LumaH(csp));
  }

  /** A planar frame of `csp`: a full luma plane made of whole `lumaW` by `lumaH`
      blocks and, unless luma-only, two chroma planes of one sample per block
      sharing one pitch. */
  predicate PlanarFrame(csp: ColorSpace, f: Frame)
  {
    && IsPlanar(csp) && Supported(csp)
    && f.y.Valid() && f.y.rowSize == f.width && f.y.height == f.height
    && Times(LumaW(csp), ChromaWidth(csp, f)) == f.width && Times(LumaH(csp), ChromaHeight(csp, f)) == f.height
    && (csp.Y8? ==> f.u.None? && f.v.None?)
    && (csp.Planar? ==> f.u.Some? && f.v.Some?)
    && ChromaFits(f.u, ChromaWidth(csp, f), ChromaHeight(csp, f))
    && ChromaFits(f.v, ChromaWidth(csp, f), ChromaHeight(csp, f))
    && (f.u.Some? && f.v.Some? ==> f.u.value.pitch == f.v.value.pitch)
  }

  // ---------------------------------------------------------------------------
  // Palette extraction from packed frames

  /** Keys of the RGB pixel or YUY2 macropixel at offset `ofs` of the buffer: RGB
      gives `r<<16|g<<8|b` from bytes B,G,R (a fourth byte is not read); YUY2 gives
      `y1<<16|u<<8|v` and `y2<<16|u<<8|v` from bytes Y1,U,Y2,V. */
  function PixelKeys(data: seq<Byte>, yuyv: bool, ofs: nat): (keys: seq<int>)
    requires ofs + (if yuyv then 3 else 2) < |data|
    ensures |keys| == if yuyv then 2 else 1
  {
    if yuyv then
      [Pack(data[ofs], data[ofs + 1], data[ofs + 3]),
       Pack(data[ofs + 2], data[ofs + 1], data[ofs + 3])]
    else
      [Pack(data[ofs + 2], data[ofs + 1], data[ofs])]
  }

  /** `n` bytes from byte `sample` of row `h` lie in the buffer when they lie in the row. */
  lemma SampleFits(p: Plane, h: nat, sample: nat, n: nat)
    requires p.Valid() && h < p.height && 1 <= n && sample + n <= p.rowSize
    ensures Idx(p.pitch, h, sample) + n <= |p.data|
  {
    RunFits(p.pitch, p.height, p.rowSize, |p.data|, h, sample, n);
  }

  /** A step of `lumaW` pixels starting at pixel `w` lies inside a row of `width` pixels. */
  lemma StepFits(csp: ColorSpace, w: nat, width: nat)
    requires IsPacked(csp) && w < width && (csp.YUY2? ==> w % 2 == 0 && width % 2 == 0)
    ensures w + LumaW(csp) <= width
    ensures Times(BytesPerPixel(csp), w) + (if csp.YUY2? then 4 else 3) <= Times(BytesPerPixel(csp), width)
  {
    BlockIn(w + LumaW(csp) - 1, width, BytesPerPixel(csp), 0);
    if csp.YUY2? {
      assert Times(2, w + 1) == Times(2, w) + 2;
    }
  }

  /** A YUY2 scan moves from macropixel to macropixel. */
  lemma EvenStep(w: nat)
    requires w % 2 == 0
    ensures (w + 2) % 2 == 0
  {
  }

  /** Keys of the pixels at columns 0, lumaW, 2*lumaW, ... below `w` of row `h`. */
  function RowKeys(csp: ColorSpace, f: Frame, h: nat, w: nat): (keys: seq<int>)
    requires PackedFrame(csp, f) && h < f.height && w <= f.width && (csp.YUY2? ==> w % 2 == 0)
    decreases w
  {
    if w == 0 then []
    else
      StepFits(csp, w - LumaW(csp), f.width);
      var sample := Times(BytesPerPixel(csp), w - LumaW(csp));
      SampleFits(f.y, h, sample, if csp == YUY2 then 4 else 3);
      RowKeys(csp, f, h, w - LumaW(csp)) + PixelKeys(f.y.data, csp == YUY2, Idx(f.y.pitch, h, sample))
  }

  /** One step of the row scan: the pixel at `w` lies in the buffer, the next
      step of `step` (= `lumaW`) pixels keeps a YUY2 scan on macropixel
      boundaries, and the keys built from the bytes at offset `ofs` extend the
      row's keys. */
  lemma PixelStep(csp: ColorSpace, f: Frame, h: nat, w: nat, ofs: nat, step: nat, yuyv: bool)
    requires PackedFrame(csp, f) && h < f.height && w < f.width && (csp.YUY2? ==> w % 2 == 0)
    requires ofs == Idx(f.y.pitch, h, Times(BytesPerPixel(csp), w))
    requires step == LumaW(csp) && yuyv == csp.YUY2?
    ensures w + step <= f.width && (yuyv ==> (w + step) % 2 == 0)
    ensures ofs + (if yuyv then 3 else 2) < |f.y.data|
    ensures RowKeys(csp, f, h, w + step) == RowKeys(csp, f, h, w) + PixelKeys(f.y.data, yuyv, ofs)
  {
    StepFits(csp, w, f.width);
    if yuyv {
      EvenStep(w);
    }
    var sample := Times(BytesPerPixel(csp), w);
    SampleFits(f.y, h, sample, if yuyv then 4 else 3);
  }

  /** Keys `buildPalettePacked` reads from the first `h` rows, in reading order. */
  function PackedKeys(csp: ColorSpace, f: Frame, h: nat): (keys: seq<int>)
    requires PackedFrame(csp, f) && h <= f.height
  {
    if h == 0 then [] else PackedKeys(csp, f, h - 1) + RowKeys(csp, f, h - 1, f.width)
  }

  /** Every extracted key is a 24-bit packed colour. */
  lemma {:induction false} PackedKeysAreKeys(csp: ColorSpace, f: Frame, h: nat)
    requires PackedFrame(csp, f) && h <= f.height
    ensures AllKeys(PackedKeys(csp, f, h))
  {
    if h > 0 {
      PackedKeysAreKeys(csp, f, h - 1);
      RowKeysAreKeys(csp, f, h - 1, f.width);
    }
  }

  lemma {:induction false} RowKeysAreKeys(csp: ColorSpace, f: Frame, h: nat, w: nat)
    requires PackedFrame(csp, f) && h < f.height && w <= f.width && (csp.YUY2? ==> w % 2 == 0)
    ensures AllKeys(RowKeys(csp, f, h, w))
    decreases w
  {
    if w > 0 {
      RowKeysAreKeys(csp, f, h, w - LumaW(csp));
    }
  }

  /** Row `h` contributes two keys per YUY2 macropixel and one per RGB pixel. */
  lemma {:induction false} RowKeysCount(csp: ColorSpace, f: Frame, h: nat, w: nat)
    requires PackedFrame(csp, f) && h < f.height && w <= f.width && (csp.YUY2? ==> w % 2 == 0)
    ensures |RowKeys(csp, f, h, w)| == w
    decreases w
  {
    if w > 0 {
      RowKeysCount(csp, f, h, w - LumaW(csp));
    }
  }

  /** A packed frame yields one key per pixel: `width * h` keys from `h` rows. */
  lemma {:induction false} PackedKeysCount(csp: ColorSpace, f: Frame, h: nat)
    requires PackedFrame(csp, f) && h <= f.height
    ensures |PackedKeys(csp, f, h)| == f.width * h
  {
    if h > 0 {
      PackedKeysCount(csp, f, h - 1);
      RowKeysCount(csp, f, h - 1, f.width);
      assert f.width * h == f.width * (h - 1) + f.width;
    }
  }

  /** A non-empty packed palette frame yields a non-empty list of 24-bit keys,
      which is what the table build needs. */
  lemma PackedKeysUsable(csp: ColorSpace, f: Frame)
    requires PackedFrame(csp, f) && f.width > 0 && f.height > 0
    ensures 0 < |PackedKeys(csp, f, f.height)| && AllKeys(PackedKeys(csp, f, f.height))
  {
    PackedKeysAreKeys(csp, f, f.height);
    PackedKeysCount(csp, f, f.height);
    MulMono(f.width, 1, f.height);
  }

  /** A YUY2 macropixel Y1=50, U=60, Y2=70, V=80 registers (50,60,80) and (70,60,80). */
  lemma Yuy2MacropixelKeys()
    ensures var f := Frame(2, 1, Plane([50, 60, 70, 80], 4, 4, 1), None, None);
            PackedFrame(YUY2, f) && PackedKeys(YUY2, f, 1) == [Pack(50, 60, 80), Pack(70, 60, 80)]
  {
    var f := Frame(2, 1, Plane([50, 60, 70, 80], 4, 4, 1), None, None);
    assert PackedKeys(YUY2, f, 0) == [];
    assert RowKeys(YUY2, f, 0, 0) == [];
    assert RowKeys(YUY2, f, 0, 2) == PixelKeys(f.y.data, true, 0);
  }

  // ---------------------------------------------------------------------------
  // The byte processFramePacked writes

  /** Byte `c` of a packed row is written by the packed mapper: all but the fourth
      byte of an RGB32 pixel. */
  predicate PackedWritten(csp: ColorSpace, c: nat) { csp != RGB32 || c % 4 != 3 }

  /** Bytes per unit of a packed row: an RGB pixel, or a YUY2 macropixel of two pixels. */
  function Unit(csp: ColorSpace): nat { if csp == RGB24 then 3 else 4 }

  /** The first byte of the unit holding byte column `c`. */
  function UnitStart(csp: ColorSpace, c: nat): nat { if csp == RGB24 then c / 3 * 3 else c / 4 * 4 }

  /** Byte `k` of the unit starting at byte `s` of row `r`, as processFramePacked
      writes it: the unit is keyed by its B,G,R (RGB) or by its Y1,U,V (YUY2), and
      the table entry for that key supplies B,G,R or Y,U,Y,V. */
  function PackedOut(csp: ColorSpace, src: Plane, yr: seq<Byte>, ug: seq<Byte>, vb: seq<Byte>,
                     r: nat, s: nat, k: nat): Byte
    requires IsPacked(csp) && src.Valid() && r < src.height && s + Unit(csp) <= src.rowSize && k < Unit(csp)
    requires |yr| == TableSize && |ug| == TableSize && |vb| == TableSize
  {
    SampleFits(src, r, s, if csp == YUY2 then 4 else 3);
    var key := PixelKeys(src.data, csp == YUY2, Idx(src.pitch, r, s))[0];
    if csp == YUY2 then
      if k == 1 then ug[key] else if k == 3 then vb[key] else yr[key]
    else
      if k == 0 then vb[key] else if k == 1 then ug[key] else yr[key]
  }

  /** Column `c` of a row of whole units lies in the unit that starts at
      `UnitStart(csp, c)`, and that unit ends inside the row. */
  lemma UnitFits(csp: ColorSpace, c: nat, size: nat)
    requires size % Unit(csp) == 0 && c < size
    ensures UnitStart(csp, c) <= c < UnitStart(csp, c) + Unit(csp) <= size
  {
  }

  /** A byte of the unit the packed scan reaches at pixel `w` belongs to the
      unit starting at that pixel's first byte. */
  lemma UnitOf(csp: ColorSpace, w: nat, sample: nat, c: nat)
    requires IsPacked(csp) && sample == Times(BytesPerPixel(csp), w) && (csp.YUY2? ==> w % 2 == 0)
    requires sample <= c < sample + Unit(csp)
    ensures UnitStart(csp, c) == sample
  {
    TimesIs(BytesPerPixel(csp), w);
    if csp == YUY2 {
      DivMod(4, w / 2, c - sample);
    } else if csp == RGB24 {
      DivMod(3, w, c - sample);
    } else {
      DivMod(4, w, c - sample);
    }
  }

  /** The bytes processFramePacked writes for frame `f`: `PackedOut` of the unit
      holding each position, 0 outside the frame. */
  function PackedWant(csp: ColorSpace, f: Frame, yr: seq<Byte>, ug: seq<Byte>, vb: seq<Byte>): (nat, nat) -> Byte
    requires PackedFrame(csp, f)
    requires |yr| == TableSize && |ug| == TableSize && |vb| == TableSize
  {
    RowUnits(csp, f);
    (r: nat, c: nat) =>
      if r < f.y.height && c < f.y.rowSize then
        UnitFits(csp, c, f.y.rowSize);
        PackedOut(csp, f.y, yr, ug, vb, r, UnitStart(csp, c), c - UnitStart(csp, c))
      else 0
  }

  /** Bytes of row `h` the packed mapper has written once it reaches pixel `w`:
      whole rows above, the first `w` pixels of row `h`, never an RGB32 pixel's
      fourth byte. */
  function PackedDone(csp: ColorSpace, rowSize: nat, h: nat, w: nat): (nat, nat) -> bool
  {
    (r: nat, c: nat) => c < rowSize && PackedWritten(csp, c) && (r < h || (r == h && c < Times(BytesPerPixel(csp), w)))
  }

  /** A packed row holds a whole number of pixels (RGB) or macropixels (YUY2). */
  lemma RowUnits(csp: ColorSpace, f: Frame)
    requires PackedFrame(csp, f)
    ensures f.y.rowSize % Unit(csp) == 0
  {
    match csp
    case YUY2 =>
      TimesIs(2, f.width);
      assert f.y.rowSize == 4 * (f.width / 2);
      DivMod(4, f.width / 2, 0);
    case RGB24 =>
      TimesIs(3, f.width);
      DivMod(3, f.width, 0);
    case RGB32 =>
      TimesIs(4, f.width);
      DivMod(4, f.width, 0);
  }

  /** One pixel (or macropixel) of the packed mapper lies inside the source row
      and inside the destination buffer. */
  lemma PixelBounds(csp: ColorSpace, f: Frame, h: nat, w: nat, sample: nat, ofs: nat,
                    dstPitch: nat, dstOfs: nat, dstLen: nat)
    requires PackedFrame(csp, f) && h < f.height && w < f.width && (csp.YUY2? ==> w % 2 == 0)
    requires sample == Times(BytesPerPixel(csp), w) && ofs == Idx(f.y.pitch, h, sample)
    requires f.y.rowSize <= dstPitch && Idx(dstPitch, f.height - 1, f.y.rowSize) <= dstLen
    requires dstOfs == Idx(dstPitch, h, sample)
    ensures w + LumaW(csp) <= f.width && (csp.YUY2? ==> (w + LumaW(csp)) % 2 == 0)
    ensures Times(BytesPerPixel(csp), w + LumaW(csp)) == sample + (if csp.YUY2? then 4 else BytesPerPixel(csp))
    ensures sample + (if csp.YUY2? then 4 else 3) <= f.y.rowSize
    ensures ofs + (if csp.YUY2? then 3 else 2) < |f.y.data|
    ensures dstOfs + (if csp.YUY2? then 3 else 2) < dstLen
  {
    StepFits(csp, w, f.width);
    StepBytes(csp, w);
    var n := if csp.YUY2? then 4 else 3;
    RunFits(f.y.pitch, f.y.height, f.y.rowSize, |f.y.data|, h, sample, n);
    RunFits(dstPitch, f.height, f.y.rowSize, dstLen, h, sample, n);
  }

  /** A step of `lumaW` pixels advances the byte column by one unit's bytes (two
      pixels of two bytes for YUY2). */
  lemma StepBytes(csp: ColorSpace, w: nat)
    requires IsPacked(csp)
    ensures Times(BytesPerPixel(csp), w + LumaW(csp)) == Times(BytesPerPixel(csp), w) + (if csp.YUY2? then 4 else BytesPerPixel(csp))
  {
    TimesAdd(BytesPerPixel(csp), w, LumaW(csp));
    if csp.YUY2? {
      assert Times(2, 2) == 4;
    }
  }

  /** In an RGB32 row the pixel at byte `sample` is whole, and only its fourth
      byte has column 3 modulo 4. */
  lemma Rgb32Alpha(rowSize: nat, q: nat, sample: nat)
    requires rowSize % 4 == 0 && sample == 4 * q && sample + 3 <= rowSize
    ensures sample + 4 <= rowSize && (sample + 3) % 4 == 3
    ensures sample % 4 != 3 && (sample + 1) % 4 != 3 && (sample + 2) % 4 != 3
  {
    DivMod(4, q, 0); DivMod(4, q, 1); DivMod(4, q, 2); DivMod(4, q, 3);
    DivMod(4, rowSize / 4, 0);
  }

  // ---------------------------------------------------------------------------
  // Planar frames

  /** Chroma sample (`wu`, `hu`) of an optional plane; 0 when the plane is absent. */
  function Chroma(o: Option<Plane>, hu: nat, wu: nat): Byte
    requires o.Some? ==> o.value.Valid() && hu < o.value.height && wu < o.value.rowSize
  {
    if o.None? then 0 else o.value.At(hu, wu)
  }

  /** Luma sample (`j`, `i`) of the block under chroma sample (`wu`, `hu`) lies
      in the frame. */
  lemma InBlock(csp: ColorSpace, f: Frame, hu: nat, wu: nat, i: nat, j: nat)
    requires PlanarFrame(csp, f) && hu < ChromaHeight(csp, f) && wu < ChromaWidth(csp, f)
    requires i < LumaH(csp) && j < LumaW(csp)
    ensures Times(LumaH(csp), hu) + i < f.height && Times(LumaW(csp), wu) + j < f.width
  {
    BlockIn(hu, ChromaHeight(csp, f), LumaH(csp), i);
    BlockIn(wu, ChromaWidth(csp, f), LumaW(csp), j);
  }

  /** The key of the block under chroma sample (`wu`, `hu`): its top-left luma
      sample with the block's chroma (0 where there is no chroma plane). */
  function PlanarKey(csp: ColorSpace, f: Frame, hu: nat, wu: nat): nat
    requires PlanarFrame(csp, f) && hu < ChromaHeight(csp, f) && wu < ChromaWidth(csp, f)
  {
    InBlock(csp, f, hu, wu, 0, 0);
    Pack(f.y.At(Times(LumaH(csp), hu), Times(LumaW(csp), wu)), Chroma(f.u, hu, wu), Chroma(f.v, hu, wu))
  }

  /** Keys of the first `j` luma samples of row `i` of the block under chroma
      sample (`wu`, `hu`), each paired with the block's chroma. */
  function BlockRowKeys(csp: ColorSpace, f: Frame, hu: nat, wu: nat, i: nat, j: nat): seq<int>
    requires PlanarFrame(csp, f) && hu < ChromaHeight(csp, f) && wu < ChromaWidth(csp, f)
    requires i < LumaH(csp) && j <= LumaW(csp)
  {
    if j == 0 then []
    else
      InBlock(csp, f, hu, wu, i, j - 1);
      BlockRowKeys(csp, f, hu, wu, i, j - 1)
        + [Pack(f.y.At(Times(LumaH(csp), hu) + i, Times(LumaW(csp), wu) + j - 1), Chroma(f.u, hu, wu), Chroma(f.v, hu, wu))]
  }

  /** Keys of the first `i` rows of the block under chroma sample (`wu`, `hu`). */
  function BlockKeys(csp: ColorSpace, f: Frame, hu: nat, wu: nat, i: nat): seq<int>
    requires PlanarFrame(csp, f) && hu < ChromaHeight(csp, f) && wu < ChromaWidth(csp, f)
    requires i <= LumaH(csp)
  {
    if i == 0 then [] else BlockKeys(csp, f, hu, wu, i - 1) + BlockRowKeys(csp, f, hu, wu, i - 1, LumaW(csp))
  }

  /** Keys of the first `wu` blocks of chroma row `hu`. */
  function PlanarRowKeys(csp: ColorSpace, f: Frame, hu: nat, wu: nat): seq<int>
    requires PlanarFrame(csp, f) && hu < ChromaHeight(csp, f) && wu <= ChromaWidth(csp, f)
  {
    if wu == 0 then [] else PlanarRowKeys(csp, f, hu, wu - 1) + BlockKeys(csp, f, hu, wu - 1, LumaH(csp))
  }

  /** Keys `buildPalettePlanar` reads from the first `hu` chroma rows, in reading order. */
  function PlanarKeys(csp: ColorSpace, f: Frame, hu: nat): seq<int>
    requires PlanarFrame(csp, f) && hu <= ChromaHeight(csp, f)
  {
    if hu == 0 then [] else PlanarKeys(csp, f, hu - 1) + PlanarRowKeys(csp, f, hu - 1, ChromaWidth(csp, f))
  }

  /** `pitch * h * lh + w * lw + pitch * i + j`, the offset the planar loops compute,
      addresses luma sample (`w * lw + j`, `h * lh + i`). */
  lemma LumaOffset(pitch: nat, h: nat, lh: nat, i: nat, w: nat, lw: nat, j: nat)
    ensures Times(Times(pitch, h), lh) + Times(lw, w) + Times(pitch, i) + j
         == Idx(pitch, Times(lh, h) + i, Times(lw, w) + j)
  {
    TimesAssoc(pitch, h, lh);
    TimesAdd(pitch, Times(lh, h), i);
    IdxTimes(pitch, Times(lh, h) + i, Times(lw, w) + j);
  }

  /** One luma sample of the planar scan: it lies in the buffer and extends the
      block row's keys. */
  lemma LumaStep(csp: ColorSpace, f: Frame, hu: nat, wu: nat, i: nat, j: nat, ofs: nat)
    requires PlanarFrame(csp, f) && hu < ChromaHeight(csp, f) && wu < ChromaWidth(csp, f)
    requires i < LumaH(csp) && j < LumaW(csp)
    requires ofs == Times(Times(f.y.pitch, hu), LumaH(csp)) + Times(LumaW(csp), wu) + Times(f.y.pitch, i) + j
    ensures ofs < |f.y.data|
    ensures BlockRowKeys(csp, f, hu, wu, i, j + 1) ==
            BlockRowKeys(csp, f, hu, wu, i, j) + [Pack(f.y.data[ofs], Chroma(f.u, hu, wu), Chroma(f.v, hu, wu))]
  {
    InBlock(csp, f, hu, wu, i, j);
    LumaOffset(f.y.pitch, hu, LumaH(csp), i, wu, LumaW(csp), j);
    RowFits(f.y.pitch, Times(LumaH(csp), hu) + i, f.y.height, f.y.rowSize, Times(LumaW(csp), wu) + j, |f.y.data|);
  }

  /** The chroma of a block, read at the U plane's pitch from both chroma planes. */
  lemma ChromaStep(csp: ColorSpace, f: Frame, hu: nat, wu: nat, pitchU: nat, ofs: nat)
    requires PlanarFrame(csp, f) && hu < ChromaHeight(csp, f) && wu < ChromaWidth(csp, f)
    requires f.u.Some? ==> pitchU == f.u.value.pitch
    requires ofs == Times(pitchU, hu) + wu
    ensures f.u.Some? ==> ofs < |f.u.value.data| && f.u.value.data[ofs] == Chroma(f.u, hu, wu)
    ensures f.v.Some? ==> ofs < |f.v.value.data| && f.v.value.data[ofs] == Chroma(f.v, hu, wu)
  {
    IdxTimes(pitchU, hu, wu);
    if f.u.Some? {
      RowFits(pitchU, hu, f.u.value.height, f.u.value.rowSize, wu, |f.u.value.data|);
    }
    if f.v.Some? {
      RowFits(pitchU, hu, f.v.value.height, f.v.value.rowSize, wu, |f.v.value.data|);
    }
  }

  /** Every extracted planar key is a 24-bit packed colour. */
  lemma {:induction false} PlanarKeysAreKeys(csp: ColorSpace, f: Frame, hu: nat)
    requires PlanarFrame(csp, f) && hu <= ChromaHeight(csp, f)
    ensures AllKeys(PlanarKeys(csp, f, hu))
  {
    if hu > 0 {
      PlanarKeysAreKeys(csp, f, hu - 1);
      PlanarRowKeysAreKeys(csp, f, hu - 1, ChromaWidth(csp, f));
    }
  }

  lemma {:induction false} PlanarRowKeysAreKeys(csp: ColorSpace, f: Frame, hu: nat, wu: nat)
    requires PlanarFrame(csp, f) && hu < ChromaHeight(csp, f) && wu <= ChromaWidth(csp, f)
    ensures AllKeys(PlanarRowKeys(csp, f, hu, wu))
  {
    if wu > 0 {
      PlanarRowKeysAreKeys(csp, f, hu, wu - 1);
      BlockKeysAreKeys(csp, f, hu, wu - 1, LumaH(csp));
    }
  }

  lemma {:induction false} BlockKeysAreKeys(csp: ColorSpace, f: Frame, hu: nat, wu: nat, i: nat)
    requires PlanarFrame(csp, f) && hu < ChromaHeight(csp, f) && wu < ChromaWidth(csp, f)
    requires i <= LumaH(csp)
    ensures AllKeys(BlockKeys(csp, f, hu, wu, i))
  {
    if i > 0 {
      BlockKeysAreKeys(csp, f, hu, wu, i - 1);
      BlockRowKeysAreKeys(csp, f, hu, wu, i - 1, LumaW(csp));
    }
  }

  lemma {:induction false} BlockRowKeysAreKeys(csp: ColorSpace, f: Frame, hu: nat, wu: nat, i: nat, j: nat)
    requires PlanarFrame(csp, f) && hu < ChromaHeight(csp, f) && wu < ChromaWidth(csp, f)
    requires i < LumaH(csp) && j <= LumaW(csp)
    ensures AllKeys(BlockRowKeys(csp, f, hu, wu, i, j))
  {
    if j > 0 {
      BlockRowKeysAreKeys(csp, f, hu, wu, i, j - 1);
    }
  }

  /** The palette frame yields one key per luma sample. */
  lemma {:induction false} PlanarKeysCount(csp: ColorSpace, f: Frame, hu: nat)
    requires PlanarFrame(csp, f) && hu <= ChromaHeight(csp, f)
    ensures |PlanarKeys(csp, f, hu)| == hu * (LumaH(csp) * f.width)
  {
    if hu > 0 {
      PlanarKeysCount(csp, f, hu - 1);
      PlanarRowKeysCount(csp, f, hu - 1, ChromaWidth(csp, f));
      RowBlocks(f.width, LumaW(csp), ChromaWidth(csp, f), LumaH(csp));
      MulStep(hu, LumaH(csp) * f.width);
    }
  }

  /** A planar palette frame with at least one block yields a non-empty list of
      24-bit keys. */
  lemma PlanarKeysUsable(csp: ColorSpace, f: Frame)
    requires PlanarFrame(csp, f) && f.width >= LumaW(csp) && f.height >= LumaH(csp)
    ensures 0 < |PlanarKeys(csp, f, ChromaHeight(csp, f))| && AllKeys(PlanarKeys(csp, f, ChromaHeight(csp, f)))
  {
    var hu := ChromaHeight(csp, f);
    PlanarKeysAreKeys(csp, f, hu);
    PlanarKeysCount(csp, f, hu);
    assert hu >= 1;
    MulMono(LumaH(csp), 1, f.width);
    MulMono(hu, 1, LumaH(csp) * f.width);
  }

  /** `q` blocks of `k * n` samples each hold `n * total` samples when `total` is `q` blocks of `k`. */
  lemma RowBlocks(total: nat, k: nat, q: nat, n: nat)
    requires Times(k, q) == total
    ensures q * (n * k) == n * total
  {
    TimesIs(k, q);
    assert q * (n * k) == n * (k * q);
  }

  /** A chroma row of `wu` blocks yields one key per luma sample under them. */
  lemma {:induction false} PlanarRowKeysCount(csp: ColorSpace, f: Frame, hu: nat, wu: nat)
    requires PlanarFrame(csp, f) && hu < ChromaHeight(csp, f) && wu <= ChromaWidth(csp, f)
    ensures |PlanarRowKeys(csp, f, hu, wu)| == wu * (LumaH(csp) * LumaW(csp))
  {
    if wu > 0 {
      PlanarRowKeysCount(csp, f, hu, wu - 1);
      BlockKeysCount(csp, f, hu, wu - 1, LumaH(csp));
      MulStep(wu, LumaH(csp) * LumaW(csp));
    }
  }

  lemma {:induction false} BlockKeysCount(csp: ColorSpace, f: Frame, hu: nat, wu: nat, i: nat)
    requires PlanarFrame(csp, f) && hu < ChromaHeight(csp, f) && wu < ChromaWidth(csp, f)
    requires i <= LumaH(csp)
    ensures |BlockKeys(csp, f, hu, wu, i)| == i * LumaW(csp)
  {
    if i > 0 {
      BlockKeysCount(csp, f, hu, wu, i - 1);
      BlockRowKeysCount(csp, f, hu, wu, i - 1, LumaW(csp));
      MulStep(i, LumaW(csp));
    }
  }

  lemma {:induction false} BlockRowKeysCount(csp: ColorSpace, f: Frame, hu: nat, wu: nat, i: nat, j: nat)
    requires PlanarFrame(csp, f) && hu < ChromaHeight(csp, f) && wu < ChromaWidth(csp, f)
    requires i < LumaH(csp) && j <= LumaW(csp)
    ensures |BlockRowKeys(csp, f, hu, wu, i, j)| == j
  {
    if j > 0 {
      BlockRowKeysCount(csp, f, hu, wu, i, j - 1);
    }
  }

  /** The packed mapper is at pixel `w` of row `h` of `f`, reading from offset
      `o` and writing to offset `d` of a destination of `len` bytes and pitch `pitch`. */
  ghost predicate PixelAt(csp: ColorSpace, f: Frame, yr: seq<Byte>, ug: seq<Byte>, vb: seq<Byte>, pitch: nat,
                          len: nat, h: nat, w: nat, sample: nat, o: nat, d: nat)
  {
    && PackedFrame(csp, f) && h < f.height && w < f.width && (csp.YUY2? ==> w % 2 == 0)
    && |yr| == TableSize && |ug| == TableSize && |vb| == TableSize
    && f.y.rowSize <= pitch && Idx(pitch, f.height - 1, f.y.rowSize) <= len
    && sample == Times(BytesPerPixel(csp), w) && o == Idx(f.y.pitch, h, sample) && d == Idx(pitch, h, sample)
  }

  /** The packed mapper may map row `h` of `f` into a destination of `len` bytes
      and pitch `pitch` through tables `yr`, `ug`, `vb`. */
  ghost predicate RowAt(csp: ColorSpace, f: Frame, yr: seq<Byte>, ug: seq<Byte>, vb: seq<Byte>, pitch: nat,
                        len: nat, h: nat)
  {
    && PackedFrame(csp, f) && h < f.height
    && |yr| == TableSize && |ug| == TableSize && |vb| == TableSize
    && f.y.rowSize <= pitch && Idx(pitch, f.height - 1, f.y.rowSize) <= len
  }

  /** The packed mapper's step at pixel `w` of row `h`, reading from offset `o`
      and writing to offset `d` as the loops compute them: its reads and writes
      lie in the buffers, and the next pixel is still in the row. */
  lemma PixelNext(csp: ColorSpace, f: Frame, yr: seq<Byte>, ug: seq<Byte>, vb: seq<Byte>, pitch: nat,
                  len: nat, h: nat, w: nat, sample: nat, o: nat, d: nat)
    requires RowAt(csp, f, yr, ug, vb, pitch, len, h) && w < f.width && (csp.YUY2? ==> w % 2 == 0)
    requires sample == Times(BytesPerPixel(csp), w) && o == Times(f.y.pitch, h) + sample && d == Times(pitch, h) + sample
    ensures PixelAt(csp, f, yr, ug, vb, pitch, len, h, w, sample, o, d)
    ensures o + (if csp.YUY2? then 3 else 2) < |f.y.data| && d + (if csp.YUY2? then 3 else 2) < len
    ensures w + LumaW(csp) <= f.width && (csp.YUY2? ==> (w + LumaW(csp)) % 2 == 0)
  {
    IdxTimes(f.y.pitch, h, sample);
    IdxTimes(pitch, h, sample);
    PixelBounds(csp, f, h, w, sample, o, pitch, d, len);
  }

  /** The packed mapper's step at pixel `w` of row `h` reads and writes inside
      the buffers, and the next pixel is still in the row. */
  lemma PixelInside(csp: ColorSpace, f: Frame, yr: seq<Byte>, ug: seq<Byte>, vb: seq<Byte>, pitch: nat,
                    len: nat, h: nat, w: nat, sample: nat, o: nat, d: nat)
    requires RowAt(csp, f, yr, ug, vb, pitch, len, h) && w < f.width && (csp.YUY2? ==> w % 2 == 0)
    requires sample == Times(BytesPerPixel(csp), w) && o == Times(f.y.pitch, h) + sample && d == Times(pitch, h) + sample
    ensures o + (if csp.YUY2? then 3 else 2) < |f.y.data| && d + (if csp.YUY2? then 3 else 2) < len
    ensures w + LumaW(csp) <= f.width && (csp.YUY2? ==> (w + LumaW(csp)) % 2 == 0)
  {
    PixelNext(csp, f, yr, ug, vb, pitch, len, h, w, sample, o, d);
  }

  /** The packed mapper's step at pixel `w` of row `h`, as the loops compute its
      offsets: once its bytes are written, the filled region reaches the next pixel. */
  lemma PixelStepFill(csp: ColorSpace, f: Frame, yr: seq<Byte>, ug: seq<Byte>, vb: seq<Byte>, pitch: nat,
                      h: nat, w: nat, sample: nat, o: nat, d: nat, before: seq<Byte>, after: seq<Byte>, orig: seq<Byte>)
    requires RowAt(csp, f, yr, ug, vb, pitch, |before|, h) && w < f.width && (csp.YUY2? ==> w % 2 == 0)
    requires sample == Times(BytesPerPixel(csp), w) && o == Times(f.y.pitch, h) + sample && d == Times(pitch, h) + sample
    requires Filled(before, orig, pitch, PackedDone(csp, f.y.rowSize, h, w), PackedWant(csp, f, yr, ug, vb))
    requires PixelWritten(csp, f.y.data, yr, ug, vb, o, d, before, after)
    ensures Filled(after, orig, pitch, PackedDone(csp, f.y.rowSize, h, w + LumaW(csp)), PackedWant(csp, f, yr, ug, vb))
  {
    PixelNext(csp, f, yr, ug, vb, pitch, |before|, h, w, sample, o, d);
    PixelFill(csp, f, yr, ug, vb, pitch, h, w, sample, o, d, before, after, orig);
  }

  /** A buffer filled up to the end of row `h`, whose rows hold `w` pixels, is
      filled up to the start of row `h + 1`. */
  lemma RowDone(csp: ColorSpace, rowSize: nat, h: nat, w: nat, s: seq<Byte>, orig: seq<Byte>, pitch: nat,
                want: (nat, nat) -> Byte)
    requires rowSize == Times(BytesPerPixel(csp), w)
    requires Filled(s, orig, pitch, PackedDone(csp, rowSize, h, w), want)
    ensures Filled(s, orig, pitch, PackedDone(csp, rowSize, h + 1, 0), want)
  {
    FillSame(s, orig, pitch, PackedDone(csp, rowSize, h, w), PackedDone(csp, rowSize, h + 1, 0), want);
  }

  /** After the writes for the pixel (RGB) or macropixel (YUY2) at pixel `w` of
      row `h`, the written region reaches the next one. */
  lemma PixelFill(csp: ColorSpace, f: Frame, yr: seq<Byte>, ug: seq<Byte>, vb: seq<Byte>, pitch: nat,
                  h: nat, w: nat, sample: nat, o: nat, d: nat, before: seq<Byte>, after: seq<Byte>, orig: seq<Byte>)
    requires PixelAt(csp, f, yr, ug, vb, pitch, |before|, h, w, sample, o, d)
    requires Filled(before, orig, pitch, PackedDone(csp, f.y.rowSize, h, w), PackedWant(csp, f, yr, ug, vb))
    requires PixelWritten(csp, f.y.data, yr, ug, vb, o, d, before, after)
    ensures Filled(after, orig, pitch, PackedDone(csp, f.y.rowSize, h, w + LumaW(csp)), PackedWant(csp, f, yr, ug, vb))
  {
    var k := if csp.YUY2? then 4 else 3;
    RunWanted(csp, f, yr, ug, vb, pitch, h, w, sample, o, d, k, before, after);
    RunOnly(csp, f.y.data, yr, ug, vb, o, d, k, before, after);
    RunRegion(csp, f, pitch, h, w, sample, o, d, k, |before|);
    assert d == Idx(pitch, h, sample) && sample + k <= pitch && d + k <= |before| && |after| == |before|;
    assert forall c :: sample <= c < sample + k ==> after[d + (c - sample)] == PackedWant(csp, f, yr, ug, vb)(h, c);
    assert forall o' :: 0 <= o' < |before| && !(d <= o' < d + k) ==> after[o'] == before[o'];
    FillRun(before, after, orig, pitch, PackedDone(csp, f.y.rowSize, h, w),
            PackedDone(csp, f.y.rowSize, h, w + LumaW(csp)), PackedWant(csp, f, yr, ug, vb), h, sample, k, d);
  }

  /** `after` is `before` with the bytes the packed mapper writes for the pixel
      read at offset `o` of `data` stored from offset `d`. */
  ghost predicate PixelWritten(csp: ColorSpace, data: seq<Byte>, yr: seq<Byte>, ug: seq<Byte>, vb: seq<Byte>,
                               o: nat, d: nat, before: seq<Byte>, after: seq<Byte>)
    requires |yr| == TableSize && |ug| == TableSize && |vb| == TableSize
  {
    if csp.YUY2? then
      && o + 3 < |data| && d + 3 < |before|
      && var key := Pack(data[o], data[o + 1], data[o + 3]);
         after == before[d := yr[key]][d + 1 := ug[key]][d + 2 := yr[key]][d + 3 := vb[key]]
    else
      && o + 2 < |data| && d + 2 < |before|
      && var key := Pack(data[o + 2], data[o + 1], data[o]);
         after == before[d := vb[key]][d + 1 := ug[key]][d + 2 := yr[key]]
  }

  /** Moving from pixel `w` to the next pixel adds the run of `k` bytes the
      mapper writes for pixel `w` to the written region. */
  lemma PackedDoneNext(csp: ColorSpace, rowSize: nat, h: nat, w: nat, sample: nat, k: nat)
    requires IsPacked(csp) && k == (if csp.YUY2? then 4 else 3) && sample + k <= rowSize
    requires sample == Times(BytesPerPixel(csp), w)
    requires Times(BytesPerPixel(csp), w + LumaW(csp)) == sample + (if csp.YUY2? then 4 else BytesPerPixel(csp))
    requires csp.RGB32? ==> (sample + 3) % 4 == 3 && sample % 4 != 3 && (sample + 1) % 4 != 3 && (sample + 2) % 4 != 3
    ensures forall r: nat, c: nat :: PackedDone(csp, rowSize, h, w + LumaW(csp))(r, c) ==
                                     (PackedDone(csp, rowSize, h, w)(r, c) || (r == h && sample <= c < sample + k))
  {
    var next := Times(BytesPerPixel(csp), w + LumaW(csp));
    forall r: nat, c: nat
      ensures PackedDone(csp, rowSize, h, w + LumaW(csp))(r, c) ==
              (PackedDone(csp, rowSize, h, w)(r, c) || (r == h && sample <= c < sample + k))
    {
      WrittenRun(csp, rowSize, h, sample, next, k, r, c);
    }
  }

  /** Pointwise form of `PackedDoneNext`, with the region's end `next` named. */
  lemma WrittenRun(csp: ColorSpace, rowSize: nat, h: nat, sample: nat, next: nat, k: nat, r: nat, c: nat)
    requires IsPacked(csp) && k == (if csp.YUY2? then 4 else 3) && sample + k <= rowSize
    requires next == sample + (if csp.YUY2? then 4 else BytesPerPixel(csp))
    requires csp.RGB32? ==> (sample + 3) % 4 == 3 && sample % 4 != 3 && (sample + 1) % 4 != 3 && (sample + 2) % 4 != 3
    ensures (c < rowSize && PackedWritten(csp, c) && (r < h || (r == h && c < next))) ==
            ((c < rowSize && PackedWritten(csp, c) && (r < h || (r == h && c < sample))) || (r == h && sample <= c < sample + k))
  {
    if csp.RGB32? && r == h && sample <= c < next {
      assert c == sample || c == sample + 1 || c == sample + 2 || c == sample + 3;
    }
  }

  /** The writes for pixel `w` of row `h` store the wanted bytes over the run of
      `k` columns starting at `sample`. */
  lemma RunWanted(csp: ColorSpace, f: Frame, yr: seq<Byte>, ug: seq<Byte>, vb: seq<Byte>, pitch: nat,
                    h: nat, w: nat, sample: nat, o: nat, d: nat, k: nat, before: seq<Byte>, after: seq<Byte>)
    requires PixelAt(csp, f, yr, ug, vb, pitch, |before|, h, w, sample, o, d)
    requires k == if csp.YUY2? then 4 else 3
    requires PixelWritten(csp, f.y.data, yr, ug, vb, o, d, before, after)
    ensures sample + k <= pitch && d + k <= |before|
    ensures forall c :: sample <= c < sample + k ==> after[d + (c - sample)] == PackedWant(csp, f, yr, ug, vb)(h, c)
  {
    PixelBounds(csp, f, h, w, sample, o, pitch, d, |before|);
    forall c | sample <= c < sample + k
      ensures after[d + (c - sample)] == PackedWant(csp, f, yr, ug, vb)(h, c)
    {
      WantedByte(csp, f, yr, ug, vb, pitch, h, w, sample, o, d, k, before, after, c);
    }
  }

  /** Column `c` of the run the mapper writes for pixel `w` holds the wanted byte. */
  lemma WantedByte(csp: ColorSpace, f: Frame, yr: seq<Byte>, ug: seq<Byte>, vb: seq<Byte>, pitch: nat,
                   h: nat, w: nat, sample: nat, o: nat, d: nat, k: nat, before: seq<Byte>, after: seq<Byte>, c: nat)
    requires PixelAt(csp, f, yr, ug, vb, pitch, |before|, h, w, sample, o, d)
    requires k == (if csp.YUY2? then 4 else 3) && sample <= c < sample + k
    requires PixelWritten(csp, f.y.data, yr, ug, vb, o, d, before, after)
    ensures d + (c - sample) < |after| && after[d + (c - sample)] == PackedWant(csp, f, yr, ug, vb)(h, c)
  {
    WantInUnit(csp, f, yr, ug, vb, h, w, sample, c);
    WrittenByte(csp, f.y, yr, ug, vb, h, sample, o, d, before, after, c - sample);
  }

  /** The wanted byte at column `c` of row `h`, in the run of pixel `w` whose
      first byte is `sample`, is byte `c - sample` of the unit starting there. */
  lemma WantInUnit(csp: ColorSpace, f: Frame, yr: seq<Byte>, ug: seq<Byte>, vb: seq<Byte>,
                   h: nat, w: nat, sample: nat, c: nat)
    requires PackedFrame(csp, f) && h < f.height && w < f.width && (csp.YUY2? ==> w % 2 == 0)
    requires |yr| == TableSize && |ug| == TableSize && |vb| == TableSize
    requires sample == Times(BytesPerPixel(csp), w) && sample <= c < sample + (if csp.YUY2? then 4 else 3)
    ensures sample + Unit(csp) <= f.y.rowSize
    ensures PackedWant(csp, f, yr, ug, vb)(h, c) == PackedOut(csp, f.y, yr, ug, vb, h, sample, c - sample)
  {
    StepFits(csp, w, f.width);
    RowUnits(csp, f);
    UnitOf(csp, w, sample, c);
    UnitFits(csp, c, f.y.rowSize);
  }

  /** The mapper's writes for the unit read at `o` put byte `j` of that unit,
      as `PackedOut` gives it, at offset `d + j`. */
  lemma WrittenByte(csp: ColorSpace, p: Plane, yr: seq<Byte>, ug: seq<Byte>, vb: seq<Byte>,
                    h: nat, sample: nat, o: nat, d: nat, before: seq<Byte>, after: seq<Byte>, j: nat)
    requires IsPacked(csp) && p.Valid() && h < p.height && sample + Unit(csp) <= p.rowSize
    requires |yr| == TableSize && |ug| == TableSize && |vb| == TableSize
    requires o == Idx(p.pitch, h, sample) && j < (if csp.YUY2? then 4 else 3)
    requires PixelWritten(csp, p.data, yr, ug, vb, o, d, before, after)
    ensures d + j < |after| && after[d + j] == PackedOut(csp, p, yr, ug, vb, h, sample, j)
  {
  }

  /** The writes for one pixel leave every byte outside their run as it was. */
  lemma RunOnly(csp: ColorSpace, data: seq<Byte>, yr: seq<Byte>, ug: seq<Byte>, vb: seq<Byte>,
                o: nat, d: nat, k: nat, before: seq<Byte>, after: seq<Byte>)
    requires |yr| == TableSize && |ug| == TableSize && |vb| == TableSize
    requires k == if csp.YUY2? then 4 else 3
    requires PixelWritten(csp, data, yr, ug, vb, o, d, before, after)
    ensures |after| == |before|
    ensures forall o' :: 0 <= o' < |before| && !(d <= o' < d + k) ==> after[o'] == before[o']
  {
  }

  /** The run written for pixel `w` is exactly what the written region gains. */
  lemma RunRegion(csp: ColorSpace, f: Frame, pitch: nat, h: nat, w: nat, sample: nat, o: nat, d: nat, k: nat, len: nat)
    requires PackedFrame(csp, f) && h < f.height && w < f.width && (csp.YUY2? ==> w % 2 == 0)
    requires f.y.rowSize <= pitch && Idx(pitch, f.height - 1, f.y.rowSize) <= len
    requires sample == Times(BytesPerPixel(csp), w) && o == Idx(f.y.pitch, h, sample) && d == Idx(pitch, h, sample)
    requires k == if csp.YUY2? then 4 else 3
    ensures forall r: nat, c: nat :: PackedDone(csp, f.y.rowSize, h, w + LumaW(csp))(r, c) ==
                                     (PackedDone(csp, f.y.rowSize, h, w)(r, c) || (r == h && sample <= c < sample + k))
  {
    PixelBounds(csp, f, h, w, sample, o, pitch, d, len);
    if csp.RGB32? {
      RowUnits(csp, f);
      TimesIs(4, w);
      Rgb32Alpha(f.y.rowSize, w, sample);
    }
    PackedDoneNext(csp, f.y.rowSize, h, w, sample, k);
  }

  // ---------------------------------------------------------------------------
  // The bytes processFramePlanar writes

  /** The luma byte processFramePlanar writes at (`c`, `r`): the table luma of
      the key of the block holding that sample, block (`c / lumaW`, `r / lumaH`);
      0 outside the frame. */
  function LumaWant(csp: ColorSpace, f: Frame, yr: seq<Byte>): (nat, nat) -> Byte
    requires PlanarFrame(csp, f) && |yr| == TableSize
  {
    (r: nat, c: nat) =>
      if r < f.height && c < f.width then
        QuotBelow(r, ChromaHeight(csp, f), LumaH(csp));
        QuotBelow(c, ChromaWidth(csp, f), LumaW(csp));
        yr[PlanarKey(csp, f, Quot(r, LumaH(csp)), Quot(c, LumaW(csp)))]
      else 0
  }

  /** The chroma byte processFramePlanar writes at chroma sample (`c`, `r`) from
      table `t`: the entry for the key of the block under it; 0 outside the plane. */
  function ChromaWant(csp: ColorSpace, f: Frame, t: seq<Byte>): (nat, nat) -> Byte
    requires PlanarFrame(csp, f) && |t| == TableSize
  {
    (r: nat, c: nat) => if r < ChromaHeight(csp, f) && c < ChromaWidth(csp, f) then t[PlanarKey(csp, f, r, c)] else 0
  }

  /** Luma samples written when the mapper is at row `i`, column `j` of the block
      of `lw` by `lh` samples whose top-left sample is (`left`, `top`), in a
      plane `width` samples wide: all earlier block rows, the earlier blocks of
      this block row, the earlier rows of this block, the first `j` samples of
      this row. */
  function LumaDone(width: nat, top: nat, lh: nat, left: nat, lw: nat, i: nat, j: nat): (nat, nat) -> bool
  {
    (r: nat, c: nat) =>
      c < width && (r < top || (r < top + lh && (c < left || (c < left + lw && (r < top + i || (r == top + i && c < left + j))))))
  }

  /** Chroma samples written when the mapper is at chroma sample (`w`, `h`) of a
      plane `widthU` samples wide. */
  function ChromaDone(widthU: nat, h: nat, w: nat): (nat, nat) -> bool
  {
    (r: nat, c: nat) => c < widthU && (r < h || (r == h && c < w))
  }

  /** Writing luma sample (`left + j`, `top + i`) extends the written region by it. */
  lemma LumaDoneSample(width: nat, top: nat, lh: nat, left: nat, lw: nat, i: nat, j: nat)
    requires i < lh && j < lw && left + j < width
    ensures forall r: nat, c: nat :: LumaDone(width, top, lh, left, lw, i, j + 1)(r, c) ==
                                     (LumaDone(width, top, lh, left, lw, i, j)(r, c) || (r == top + i && c == left + j))
  {
  }

  /** The end of one row of a block is the start of the next. */
  lemma LumaDoneRow(width: nat, top: nat, lh: nat, left: nat, lw: nat, i: nat)
    ensures forall r: nat, c: nat :: LumaDone(width, top, lh, left, lw, i, lw)(r, c) ==
                                     LumaDone(width, top, lh, left, lw, i + 1, 0)(r, c)
  {
  }

  /** The end of a block is the start of the block to its right. */
  lemma LumaDoneBlock(width: nat, top: nat, lh: nat, left: nat, lw: nat)
    ensures forall r: nat, c: nat :: LumaDone(width, top, lh, left, lw, lh, 0)(r, c) ==
                                     LumaDone(width, top, lh, left + lw, lw, 0, 0)(r, c)
  {
  }

  /** The end of a block row is the start of the block row below. */
  lemma LumaDoneBand(width: nat, top: nat, lh: nat, lw: nat)
    ensures forall r: nat, c: nat :: LumaDone(width, top, lh, width, lw, 0, 0)(r, c) ==
                                     LumaDone(width, top + lh, lh, 0, lw, 0, 0)(r, c)
  {
  }

  /** The block under chroma sample (`w`, `h`) has its top-left luma sample at
      offset `ofs`, computed as the planar loops do, and its key is read there. */
  lemma KeyAt(csp: ColorSpace, f: Frame, h: nat, w: nat, ofs: nat)
    requires PlanarFrame(csp, f) && h < ChromaHeight(csp, f) && w < ChromaWidth(csp, f)
    requires ofs == Times(Times(f.y.pitch, h), LumaH(csp)) + Times(LumaW(csp), w)
    ensures ofs < |f.y.data|
    ensures PlanarKey(csp, f, h, w) == Pack(f.y.data[ofs], Chroma(f.u, h, w), Chroma(f.v, h, w))
  {
    var top, left := Times(LumaH(csp), h), Times(LumaW(csp), w);
    InBlock(csp, f, h, w, 0, 0);
    LumaOffset(f.y.pitch, h, LumaH(csp), 0, w, LumaW(csp), 0);
    assert f.y.Valid() && top < f.y.height && left < f.y.rowSize;
    PlaneAt(f.y, top, left, ofs);
  }

  /** Luma sample (`j`, `i`) of the block under chroma sample (`w`, `h`), whose
      top-left sample is (`left`, `top`), lies in the frame and wants the table
      luma of the block's key. */
  lemma LumaWantAt(csp: ColorSpace, f: Frame, yr: seq<Byte>, h: nat, w: nat, i: nat, j: nat, top: nat, left: nat)
    requires PlanarFrame(csp, f) && |yr| == TableSize && h < ChromaHeight(csp, f) && w < ChromaWidth(csp, f)
    requires i < LumaH(csp) && j < LumaW(csp) && top == Times(LumaH(csp), h) && left == Times(LumaW(csp), w)
    ensures top + i < f.height && left + j < f.width
    ensures LumaWant(csp, f, yr)(top + i, left + j) == yr[PlanarKey(csp, f, h, w)]
  {
    InBlock(csp, f, h, w, i, j);
    QuotBlock(h, LumaH(csp), i);
    QuotBlock(w, LumaW(csp), j);
  }

  /** The offset of luma row `i` of the block whose top-left sample is (`left`,
      `top`), computed as the planar loops do, is that row's start. */
  lemma LumaRowStart(pitch: nat, h: nat, lh: nat, w: nat, lw: nat, i: nat, top: nat, left: nat, rowOfs: nat)
    requires top == Times(lh, h) && left == Times(lw, w)
    requires rowOfs == Times(Times(pitch, h), lh) + Times(lw, w) + Times(pitch, i)
    ensures rowOfs == Idx(pitch, top + i, left)
  {
    LumaOffset(pitch, h, lh, i, w, lw, 0);
  }

  /** Storing the table luma of the block's key at luma sample (`j`, `i`) of the
      block under chroma sample (`w`, `h`), at the offset the planar loops
      compute, extends the written luma region by that sample. */
  lemma LumaFill(csp: ColorSpace, src: Frame, yr: seq<Byte>, s: seq<Byte>, orig: seq<Byte>, pitch: nat,
                 h: nat, w: nat, i: nat, j: nat, top: nat, left: nat, idx: nat, packed: nat)
    requires PlanarFrame(csp, src) && |yr| == TableSize && h < ChromaHeight(csp, src) && w < ChromaWidth(csp, src)
    requires i < LumaH(csp) && j < LumaW(csp) && top == Times(LumaH(csp), h) && left == Times(LumaW(csp), w)
    requires src.width <= pitch && Idx(pitch, src.height - 1, src.width) <= |s|
    requires idx == Idx(pitch, top + i, left) + j && packed == PlanarKey(csp, src, h, w)
    requires Filled(s, orig, pitch, LumaDone(src.width, top, LumaH(csp), left, LumaW(csp), i, j), LumaWant(csp, src, yr))
    ensures idx < |s|
    ensures Filled(s[idx := yr[packed]], orig, pitch, LumaDone(src.width, top, LumaH(csp), left, LumaW(csp), i, j + 1),
                   LumaWant(csp, src, yr))
  {
    LumaWantAt(csp, src, yr, h, w, i, j, top, left);
    LumaDoneSample(src.width, top, LumaH(csp), left, LumaW(csp), i, j);
    FillAtRun(s, orig, pitch, src.height, src.width, LumaDone(src.width, top, LumaH(csp), left, LumaW(csp), i, j),
              LumaDone(src.width, top, LumaH(csp), left, LumaW(csp), i, j + 1), LumaWant(csp, src, yr), top + i, left, j,
              idx, yr[packed]);
  }

  /** Storing the table entry of the block's key at chroma sample (`w`, `h`)
      extends the written chroma region by that sample. */
  lemma ChromaFill(csp: ColorSpace, src: Frame, t: seq<Byte>, s: seq<Byte>, orig: seq<Byte>, pitch: nat,
                   h: nat, w: nat, idx: nat, packed: nat)
    requires PlanarFrame(csp, src) && |t| == TableSize && h < ChromaHeight(csp, src) && w < ChromaWidth(csp, src)
    requires ChromaWidth(csp, src) <= pitch && Idx(pitch, ChromaHeight(csp, src) - 1, ChromaWidth(csp, src)) <= |s|
    requires idx == Times(pitch, h) + w && packed == PlanarKey(csp, src, h, w)
    requires Filled(s, orig, pitch, ChromaDone(ChromaWidth(csp, src), h, w), ChromaWant(csp, src, t))
    ensures idx < |s|
    ensures Filled(s[idx := t[packed]], orig, pitch, ChromaDone(ChromaWidth(csp, src), h, w + 1), ChromaWant(csp, src, t))
  {
    var wu := ChromaWidth(csp, src);
    IdxTimes(pitch, h, w);
    FillAt(s, orig, pitch, ChromaHeight(csp, src), wu, ChromaDone(wu, h, w), ChromaDone(wu, h, w + 1),
           ChromaWant(csp, src, t), h, w, idx, t[packed]);
  }

  /** A destination chroma plane, when present, holds `heightU` rows of `widthU`
      samples at pitch `pitch`. */
  predicate ChromaDst(a: array?<Byte>, pitch: nat, widthU: nat, heightU: nat)
  {
    a != null ==> widthU <= pitch && (heightU == 0 || Idx(pitch, heightU - 1, widthU) <= a.Length)
  }

  class CLUTer {
    const csp: ColorSpace
    const spp: nat
    const lumaW: nat
    const lumaH: nat
    const PLANAR: bool
    const YUYV: bool
    const BGRA: bool
    const BGR: bool

    /** The three lookup tables, indexed by a packed 24-bit key. */
    var vecYR: seq<Byte>
    var vecUG: seq<Byte>
    var vecVB: seq<Byte>

    /** Keys read from the palette frame, and the palette they were reduced to. */
    ghost var keys: seq<int>
    ghost var palette: seq<int>

    /** The per-colourspace constants the constructor derives. */
    ghost predicate Geometry()
    {
      && Supported(csp)
      && spp == BytesPerPixel(csp) && lumaW == LumaW(csp) && lumaH == LumaH(csp)
      && PLANAR == IsPlanar(csp) && YUYV == csp.YUY2?
      && BGRA == csp.RGB32? && BGR == csp.RGB24?
    }

    /** A built filter: the palette is the sorted, deduplicated set of extracted keys
        and the tables hold, for every key, the nearest palette entry. */
    ghost predicate Valid()
      reads this
    {
      && Geometry()
      && 0 < |palette| && AllKeys(palette) && StrictlyAscending(palette)
      && (forall k :: k in palette <==> k in keys)
      && IsTable(palette, vecYR, vecUG, vecVB)
    }

    /** Creates the filter for a clip of colourspace `csp` from palette frame `plt`. */
    constructor (csp: ColorSpace, plt: Frame)
      requires if IsPlanar(csp) then PlanarFrame(csp, plt) else PackedFrame(csp, plt)
      requires plt.width >= LumaW(csp) && plt.height >= LumaH(csp)
      ensures Valid() && this.csp == csp
      ensures !IsPlanar(csp) ==> keys == PackedKeys(csp, plt, plt.height)
      ensures IsPlanar(csp) ==> keys == PlanarKeys(csp, plt, ChromaHeight(csp, plt))
    {
      this.csp := csp;
      spp := BytesPerPixel(csp);
      lumaW := LumaW(csp);
      lumaH := LumaH(csp);
      PLANAR := IsPlanar(csp);
      YUYV := csp == YUY2;
      BGRA := csp == RGB32;
      BGR := csp == RGB24;
      vecYR, vecUG, vecVB := [], [], [];
      new;
      if PLANAR {
        ChromaSize(csp, plt);
        BuildPalettePlanar(plt, ChromaWidth(csp, plt), ChromaHeight(csp, plt), plt.y.pitch,
                           if plt.u.Some? then plt.u.value.pitch else 0);
      } else {
        BuildPalettePacked(plt);
      }
    }

    /** `buildPalettePacked`: read one key per RGB pixel or two per YUY2 macropixel,
        row by row, then build the tables from them. */
    method BuildPalettePacked(plt: Frame)
      requires Geometry() && PackedFrame(csp, plt) && plt.width > 0 && plt.height > 0
      requires vecYR == [] && vecUG == [] && vecVB == []
      modifies this
      ensures Valid() && keys == PackedKeys(csp, plt, plt.height)
    {
      var palette := ReadPackedKeys(plt);
      PackedKeysUsable(csp, plt);
      keys := palette;
      FillComponentVectors(palette);
      assert vecYR == vecYR[0..] && vecUG == vecUG[0..] && vecVB == vecVB[0..];
    }

    /** The scan of `buildPalettePacked`: the keys of every row, top to bottom. */
    method ReadPackedKeys(plt: Frame) returns (palette: seq<int>)
      requires Geometry() && PackedFrame(csp, plt)
      ensures palette == PackedKeys(csp, plt, plt.height)
    {
      palette := [];
      for h := 0 to plt.height
        invariant palette == PackedKeys(csp, plt, h)
      {
        palette := ReadRowKeys(plt, h, palette);
      }
    }

    /** One row of `buildPalettePacked`'s scan: append the keys of row `h`, left
        to right, to `palette`. */
    method ReadRowKeys(plt: Frame, h: nat, palette: seq<int>) returns (palette': seq<int>)
      requires Geometry() && PackedFrame(csp, plt) && h < plt.height
      ensures palette' == palette + RowKeys(csp, plt, h, plt.width)
    {
      palette' := palette;
      var pltp := plt.y;
      var pltLine := Times(pltp.pitch, h);
      var w := 0;
      while w != plt.width
        invariant 0 <= w <= plt.width && (YUYV ==> w % 2 == 0)
        invariant palette' == palette + RowKeys(csp, plt, h, w)
        decreases plt.width - w
      {
        var sample := Times(spp, w);
        var pltOfs := pltLine + sample;
        IdxTimes(pltp.pitch, h, sample);
        PixelStep(csp, plt, h, w, pltOfs, lumaW, YUYV);
        ghost var before := palette';
        if YUYV {
          var y1, u, y2, v := pltp.data[pltOfs], pltp.data[pltOfs + 1], pltp.data[pltOfs + 2], pltp.data[pltOfs + 3];
          palette' := palette' + [Pack(y1, u, v)];
          palette' := palette' + [Pack(y2, u, v)];
        } else {
          var b, g, r := pltp.data[pltOfs], pltp.data[pltOfs + 1], pltp.data[pltOfs + 2];
          palette' := palette' + [Pack(r, g, b)];
        }
        assert palette' == before + PixelKeys(pltp.data, YUYV, pltOfs);
        AppendAssoc(palette, RowKeys(csp, plt, h, w), PixelKeys(pltp.data, YUYV, pltOfs));
        w := w + lumaW;
      }
    }

    /** `buildPalettePlanar`: for every chroma sample, read its U and V (0 for an
        absent plane; V at the U plane's pitch) and pair them with every luma
        sample of the block above it, then build the tables from the keys. */
    method BuildPalettePlanar(plt: Frame, PLT_WIDTH_U: nat, PLT_HEIGHT_U: nat,
                              PLT_PITCH_SAMPLES_Y: nat, PLT_PITCH_SAMPLES_U: nat)
      requires Geometry() && PlanarFrame(csp, plt)
      requires PLT_WIDTH_U == ChromaWidth(csp, plt) && PLT_HEIGHT_U == ChromaHeight(csp, plt)
      requires PLT_PITCH_SAMPLES_Y == plt.y.pitch && (plt.u.Some? ==> PLT_PITCH_SAMPLES_U == plt.u.value.pitch)
      requires plt.width >= lumaW && plt.height >= lumaH
      requires vecYR == [] && vecUG == [] && vecVB == []
      modifies this
      ensures Valid() && keys == PlanarKeys(csp, plt, PLT_HEIGHT_U)
    {
      var palette := ReadPlanarKeys(plt, PLT_WIDTH_U, PLT_HEIGHT_U, PLT_PITCH_SAMPLES_Y, PLT_PITCH_SAMPLES_U);
      PlanarKeysUsable(csp, plt);
      keys := palette;
      FillComponentVectors(palette);
      assert vecYR == vecYR[0..] && vecUG == vecUG[0..] && vecVB == vecVB[0..];
    }

    /** The scan of `buildPalettePlanar`: the keys of every chroma row, top to bottom. */
    method ReadPlanarKeys(plt: Frame, PLT_WIDTH_U: nat, PLT_HEIGHT_U: nat,
                          PLT_PITCH_SAMPLES_Y: nat, PLT_PITCH_SAMPLES_U: nat) returns (palette: seq<int>)
      requires Geometry() && PlanarFrame(csp, plt)
      requires PLT_WIDTH_U == ChromaWidth(csp, plt) && PLT_HEIGHT_U == ChromaHeight(csp, plt)
      requires PLT_PITCH_SAMPLES_Y == plt.y.pitch && (plt.u.Some? ==> PLT_PITCH_SAMPLES_U == plt.u.value.pitch)
      ensures palette == PlanarKeys(csp, plt, PLT_HEIGHT_U)
    {
      palette := [];
      for h := 0 to PLT_HEIGHT_U
        invariant palette == PlanarKeys(csp, plt, h)
      {
        palette := ReadChromaRow(plt, h, PLT_WIDTH_U, PLT_PITCH_SAMPLES_Y, PLT_PITCH_SAMPLES_U, palette);
      }
    }

    /** One chroma row of `buildPalettePlanar`: append the keys of its blocks,
        left to right. */
    method ReadChromaRow(plt: Frame, h: nat, PLT_WIDTH_U: nat, PLT_PITCH_SAMPLES_Y: nat, PLT_PITCH_SAMPLES_U: nat,
                         palette: seq<int>) returns (palette': seq<int>)
      requires Geometry() && PlanarFrame(csp, plt) && h < ChromaHeight(csp, plt) && PLT_WIDTH_U == ChromaWidth(csp, plt)
      requires PLT_PITCH_SAMPLES_Y == plt.y.pitch && (plt.u.Some? ==> PLT_PITCH_SAMPLES_U == plt.u.value.pitch)
      ensures palette' == palette + PlanarRowKeys(csp, plt, h, PLT_WIDTH_U)
    {
      palette' := palette;
      var srcLineY, srcLineU := Times(Times(PLT_PITCH_SAMPLES_Y, h), lumaH), Times(PLT_PITCH_SAMPLES_U, h);
      for w := 0 to PLT_WIDTH_U
        invariant palette' == palette + PlanarRowKeys(csp, plt, h, w)
      {
        var sampleY, sampleU := Times(lumaW, w), w;
        var srcOfsY, srcOfsU := srcLineY + sampleY, srcLineU + sampleU;
        ChromaStep(csp, plt, h, w, PLT_PITCH_SAMPLES_U, srcOfsU);
        var u, v := 0, 0;
        if plt.u.Some? {
          u := plt.u.value.data[srcOfsU];
        }
        if plt.v.Some? {
          v := plt.v.value.data[srcOfsU];
        }
        AppendAssoc(palette, PlanarRowKeys(csp, plt, h, w), BlockKeys(csp, plt, h, w, lumaH));
        palette' := ReadBlock(plt, h, w, PLT_PITCH_SAMPLES_Y, srcOfsY, u, v, palette');
      }
    }

    /** The luma loops of `buildPalettePlanar` for the block under chroma sample
        (`w`, `h`), whose top-left luma sample is at `srcOfsY`: one key per luma
        sample, row by row, each with the block's chroma `u`, `v`. */
    method ReadBlock(plt: Frame, h: nat, w: nat, PLT_PITCH_SAMPLES_Y: nat, srcOfsY: nat, u: Byte, v: Byte,
                     palette: seq<int>) returns (palette': seq<int>)
      requires Geometry() && PlanarFrame(csp, plt) && h < ChromaHeight(csp, plt) && w < ChromaWidth(csp, plt)
      requires PLT_PITCH_SAMPLES_Y == plt.y.pitch && srcOfsY == Times(Times(PLT_PITCH_SAMPLES_Y, h), lumaH) + Times(lumaW, w)
      requires u == Chroma(plt.u, h, w) && v == Chroma(plt.v, h, w)
      ensures palette' == palette + BlockKeys(csp, plt, h, w, lumaH)
    {
      palette' := palette;
      for i := 0 to lumaH
        invariant palette' == palette + BlockKeys(csp, plt, h, w, i)
      {
        AppendAssoc(palette, BlockKeys(csp, plt, h, w, i), BlockRowKeys(csp, plt, h, w, i, lumaW));
        palette' := ReadBlockRow(plt, h, w, i, PLT_PITCH_SAMPLES_Y, srcOfsY, u, v, palette');
      }
    }

    /** Luma row `i` of the block under chroma sample (`w`, `h`): one key per
        luma sample, left to right. */
    method ReadBlockRow(plt: Frame, h: nat, w: nat, i: nat, PLT_PITCH_SAMPLES_Y: nat, srcOfsY: nat, u: Byte, v: Byte,
                        palette: seq<int>) returns (palette': seq<int>)
      requires Geometry() && PlanarFrame(csp, plt) && h < ChromaHeight(csp, plt) && w < ChromaWidth(csp, plt) && i < lumaH
      requires PLT_PITCH_SAMPLES_Y == plt.y.pitch && srcOfsY == Times(Times(PLT_PITCH_SAMPLES_Y, h), lumaH) + Times(lumaW, w)
      requires u == Chroma(plt.u, h, w) && v == Chroma(plt.v, h, w)
      ensures palette' == palette + BlockRowKeys(csp, plt, h, w, i, lumaW)
    {
      palette' := palette;
      var rowOfs := srcOfsY + Times(PLT_PITCH_SAMPLES_Y, i);
      for j := 0 to lumaW
        invariant palette' == palette + BlockRowKeys(csp, plt, h, w, i, j)
      {
        LumaStep(csp, plt, h, w, i, j, rowOfs + j);
        var y := plt.y.data[rowOfs + j];
        palette' := palette' + [Pack(y, u, v)];
      }
    }

    /** `processFramePacked`: every RGB pixel is replaced by the colour the tables
        give for its own key; every YUY2 macropixel is keyed by its first luma
        sample and both luma samples receive the same table luma. The fourth byte
        of an RGB32 pixel is not written. */
    method ProcessFramePacked(src: Frame, dst: array<Byte>, DST_PITCH: nat)
      requires Geometry() && |vecYR| == TableSize && |vecUG| == TableSize && |vecVB| == TableSize
      requires PackedFrame(csp, src)
      requires src.y.rowSize <= DST_PITCH
      requires src.height == 0 || Idx(DST_PITCH, src.height - 1, src.y.rowSize) <= dst.Length
      modifies dst
      ensures Filled(dst[..], old(dst[..]), DST_PITCH,
                     (r: nat, c: nat) => r < src.height && c < src.y.rowSize && PackedWritten(csp, c),
                     PackedWant(csp, src, vecYR, vecUG, vecVB))
    {
      RowUnits(csp, src);
      ghost var want := PackedWant(csp, src, vecYR, vecUG, vecVB);
      ghost var rs := src.y.rowSize;
      assert Times(BytesPerPixel(csp), 0) == 0;
      FillStart(dst[..], DST_PITCH, PackedDone(csp, rs, 0, 0), want);
      for h := 0 to src.height
        invariant Filled(dst[..], old(dst[..]), DST_PITCH, PackedDone(csp, rs, h, 0), want)
      {
        MapRow(src, dst, DST_PITCH, h, old(dst[..]));
      }
      FillSame(dst[..], old(dst[..]), DST_PITCH, PackedDone(csp, rs, src.height, 0),
               (r: nat, c: nat) => r < src.height && c < rs && PackedWritten(csp, c), want);
    }

    /** One row of `processFramePacked`: every pixel of row `h` is mapped, left to
        right, extending the region filled since `orig` by that row. */
    method MapRow(src: Frame, dst: array<Byte>, DST_PITCH: nat, h: nat, ghost orig: seq<Byte>)
      requires Geometry() && RowAt(csp, src, vecYR, vecUG, vecVB, DST_PITCH, dst.Length, h)
      requires Filled(dst[..], orig, DST_PITCH, PackedDone(csp, src.y.rowSize, h, 0), PackedWant(csp, src, vecYR, vecUG, vecVB))
      modifies dst
      ensures Filled(dst[..], orig, DST_PITCH, PackedDone(csp, src.y.rowSize, h + 1, 0), PackedWant(csp, src, vecYR, vecUG, vecVB))
    {
      var srcLine, dstLine := Times(src.y.pitch, h), Times(DST_PITCH, h);
      var w := 0;
      while w < src.width
        invariant w <= src.width && (YUYV ==> w % 2 == 0)
        invariant Filled(dst[..], orig, DST_PITCH, PackedDone(csp, src.y.rowSize, h, w), PackedWant(csp, src, vecYR, vecUG, vecVB))
        decreases src.width - w
      {
        MapStep(src, dst, DST_PITCH, h, w, srcLine, dstLine, orig);
        w := w + lumaW;
      }
      RowDone(csp, src.y.rowSize, h, w, dst[..], orig, DST_PITCH, PackedWant(csp, src, vecYR, vecUG, vecVB));
    }

    /** One step of `processFramePacked`'s pixel loop: map the pixel (RGB) or
        macropixel (YUY2) at pixel `w` of row `h`, whose rows start at offsets
        `srcLine` and `dstLine`. */
    method MapStep(src: Frame, dst: array<Byte>, DST_PITCH: nat, h: nat, w: nat, srcLine: nat, dstLine: nat,
                   ghost orig: seq<Byte>)
      requires Geometry() && RowAt(csp, src, vecYR, vecUG, vecVB, DST_PITCH, dst.Length, h)
      requires w < src.width && (YUYV ==> w % 2 == 0)
      requires srcLine == Times(src.y.pitch, h) && dstLine == Times(DST_PITCH, h)
      requires Filled(dst[..], orig, DST_PITCH, PackedDone(csp, src.y.rowSize, h, w), PackedWant(csp, src, vecYR, vecUG, vecVB))
      modifies dst
      ensures w + lumaW <= src.width && (YUYV ==> (w + lumaW) % 2 == 0)
      ensures Filled(dst[..], orig, DST_PITCH, PackedDone(csp, src.y.rowSize, h, w + lumaW), PackedWant(csp, src, vecYR, vecUG, vecVB))
    {
      var sample := Times(spp, w);
      var srcOfs, dstOfs := srcLine + sample, dstLine + sample;
      PixelInside(csp, src, vecYR, vecUG, vecVB, DST_PITCH, dst.Length, h, w, sample, srcOfs, dstOfs);
      ghost var before, yr, ug, vb := dst[..], vecYR, vecUG, vecVB;
      MapPixel(src.y.data, dst, srcOfs, dstOfs);
      PixelStepFill(csp, src, yr, ug, vb, DST_PITCH, h, w, sample, srcOfs, dstOfs, before, dst[..], orig);
    }

    /** The body of `processFramePacked`'s pixel loop: look up the pixel (RGB) or
        macropixel (YUY2) read at `srcOfs` and store its table colour at `dstOfs`. */
    method MapPixel(srcp: seq<Byte>, dst: array<Byte>, srcOfs: nat, dstOfs: nat)
      requires Geometry() && IsPacked(csp) && |vecYR| == TableSize && |vecUG| == TableSize && |vecVB| == TableSize
      requires srcOfs + (if YUYV then 3 else 2) < |srcp| && dstOfs + (if YUYV then 3 else 2) < dst.Length
      modifies dst
      ensures PixelWritten(csp, srcp, vecYR, vecUG, vecVB, srcOfs, dstOfs, old(dst[..]), dst[..])
    {
      if YUYV {
        var y, u, v := srcp[srcOfs], srcp[srcOfs + 1], srcp[srcOfs + 3];
        var packed := Pack(y, u, v);
        dst[dstOfs] := vecYR[packed];
        dst[dstOfs + 1] := vecUG[packed];
        dst[dstOfs + 2] := vecYR[packed];
        dst[dstOfs + 3] := vecVB[packed];
      } else {
        var b, g, r := srcp[srcOfs], srcp[srcOfs + 1], srcp[srcOfs + 2];
        var packed := Pack(r, g, b);
        dst[dstOfs] := vecVB[packed];
        dst[dstOfs + 1] := vecUG[packed];
        dst[dstOfs + 2] := vecYR[packed];
      }
    }

    /** The planar mapper has written, since `oY`, `oU`, `oV`, the luma samples of
        `LumaDone(…, top, …, left, …, i, j)` and the chroma samples before chroma
        sample (`wc`, `h`), each with the byte the tables give for its block. */
    ghost predicate MapState(src: Frame, dstY: array<Byte>, dstU: array?<Byte>, dstV: array?<Byte>,
                             DPY: nat, DPU: nat, oY: seq<Byte>, oU: seq<Byte>, oV: seq<Byte>,
                             h: nat, wc: nat, top: nat, left: nat, i: nat, j: nat)
      reads this, dstY, dstU, dstV
    {
      && PlanarFrame(csp, src) && |vecYR| == TableSize && |vecUG| == TableSize && |vecVB| == TableSize
      && Filled(dstY[..], oY, DPY, LumaDone(src.width, top, LumaH(csp), left, LumaW(csp), i, j), LumaWant(csp, src, vecYR))
      && (dstU != null ==> Filled(dstU[..], oU, DPU, ChromaDone(ChromaWidth(csp, src), h, wc), ChromaWant(csp, src, vecUG)))
      && (dstV != null ==> Filled(dstV[..], oV, DPU, ChromaDone(ChromaWidth(csp, src), h, wc), ChromaWant(csp, src, vecVB)))
    }

    /** The destination planes of processFramePlanar: a luma plane as large as the
        source's and, where present, chroma planes of the chroma size sharing
        the pitch `DPU`; all distinct. */
    ghost predicate PlanarDst(src: Frame, dstY: array<Byte>, dstU: array?<Byte>, dstV: array?<Byte>, DPY: nat, DPU: nat)
    {
      && PlanarFrame(csp, src)
      && src.width <= DPY && (src.height == 0 || Idx(DPY, src.height - 1, src.width) <= dstY.Length)
      && ChromaDst(dstU, DPU, ChromaWidth(csp, src), ChromaHeight(csp, src))
      && ChromaDst(dstV, DPU, ChromaWidth(csp, src), ChromaHeight(csp, src))
      && dstU != dstY && dstV != dstY && (dstU != null ==> dstU != dstV)
    }

    /** `processFramePlanar`: every block of `lumaW` by `lumaH` luma samples under
        a chroma sample is keyed by its top-left luma sample and that chroma
        sample (0 for an absent source plane); every luma sample of the block
        receives the table luma, and the chroma sample receives the table U and
        V where the destination plane exists (V at the U plane's pitch). */
    method ProcessFramePlanar(src: Frame, dstY: array<Byte>, dstU: array?<Byte>, dstV: array?<Byte>,
                              SRC_WIDTH_U: nat, SRC_HEIGHT_U: nat,
                              SRC_PITCH_SAMPLES_Y: nat, SRC_PITCH_SAMPLES_U: nat,
                              DST_PITCH_SAMPLES_Y: nat, DST_PITCH_SAMPLES_U: nat)
      requires Geometry() && |vecYR| == TableSize && |vecUG| == TableSize && |vecVB| == TableSize
      requires PlanarDst(src, dstY, dstU, dstV, DST_PITCH_SAMPLES_Y, DST_PITCH_SAMPLES_U)
      requires SRC_WIDTH_U == ChromaWidth(csp, src) && SRC_HEIGHT_U == ChromaHeight(csp, src)
      requires SRC_PITCH_SAMPLES_Y == src.y.pitch && (src.u.Some? ==> SRC_PITCH_SAMPLES_U == src.u.value.pitch)
      modifies dstY, dstU, dstV
      ensures Filled(dstY[..], old(dstY[..]), DST_PITCH_SAMPLES_Y,
                     (r: nat, c: nat) => r < src.height && c < src.width, LumaWant(csp, src, vecYR))
      ensures dstU != null ==> Filled(dstU[..], old(dstU[..]), DST_PITCH_SAMPLES_U,
                                      (r: nat, c: nat) => r < SRC_HEIGHT_U && c < SRC_WIDTH_U, ChromaWant(csp, src, vecUG))
      ensures dstV != null ==> Filled(dstV[..], old(dstV[..]), DST_PITCH_SAMPLES_U,
                                      (r: nat, c: nat) => r < SRC_HEIGHT_U && c < SRC_WIDTH_U, ChromaWant(csp, src, vecVB))
    {
      ghost var oY := dstY[..];
      ghost var oU := if dstU != null then dstU[..] else [];
      ghost var oV := if dstV != null then dstV[..] else [];
      FillStart(oY, DST_PITCH_SAMPLES_Y, LumaDone(src.width, 0, lumaH, 0, lumaW, 0, 0), LumaWant(csp, src, vecYR));
      if dstU != null {
        FillStart(oU, DST_PITCH_SAMPLES_U, ChromaDone(SRC_WIDTH_U, 0, 0), ChromaWant(csp, src, vecUG));
      }
      if dstV != null {
        FillStart(oV, DST_PITCH_SAMPLES_U, ChromaDone(SRC_WIDTH_U, 0, 0), ChromaWant(csp, src, vecVB));
      }
      for h := 0 to SRC_HEIGHT_U
        invariant MapState(src, dstY, dstU, dstV, DST_PITCH_SAMPLES_Y, DST_PITCH_SAMPLES_U, oY, oU, oV,
                           h, 0, Times(lumaH, h), 0, 0, 0)
      {
        MapBlockRow(src, dstY, dstU, dstV, SRC_WIDTH_U, SRC_PITCH_SAMPLES_Y, SRC_PITCH_SAMPLES_U,
                    DST_PITCH_SAMPLES_Y, DST_PITCH_SAMPLES_U, h, oY, oU, oV);
      }
      PlanarDone(src, dstY, dstU, dstV, SRC_WIDTH_U, SRC_HEIGHT_U, DST_PITCH_SAMPLES_Y, DST_PITCH_SAMPLES_U, oY, oU, oV);
    }

    /** Once every block row is mapped, the written regions are the whole planes. */
    lemma PlanarDone(src: Frame, dstY: array<Byte>, dstU: array?<Byte>, dstV: array?<Byte>,
                     SRC_WIDTH_U: nat, SRC_HEIGHT_U: nat, DPY: nat, DPU: nat,
                     oY: seq<Byte>, oU: seq<Byte>, oV: seq<Byte>)
      requires Geometry() && PlanarFrame(csp, src)
      requires SRC_WIDTH_U == ChromaWidth(csp, src) && SRC_HEIGHT_U == ChromaHeight(csp, src)
      requires MapState(src, dstY, dstU, dstV, DPY, DPU, oY, oU, oV, SRC_HEIGHT_U, 0, Times(lumaH, SRC_HEIGHT_U), 0, 0, 0)
      ensures Filled(dstY[..], oY, DPY, (r: nat, c: nat) => r < src.height && c < src.width, LumaWant(csp, src, vecYR))
      ensures dstU != null ==> Filled(dstU[..], oU, DPU, (r: nat, c: nat) => r < SRC_HEIGHT_U && c < SRC_WIDTH_U, ChromaWant(csp, src, vecUG))
      ensures dstV != null ==> Filled(dstV[..], oV, DPU, (r: nat, c: nat) => r < SRC_HEIGHT_U && c < SRC_WIDTH_U, ChromaWant(csp, src, vecVB))
    {
      FillSame(dstY[..], oY, DPY, LumaDone(src.width, src.height, lumaH, 0, lumaW, 0, 0),
               (r: nat, c: nat) => r < src.height && c < src.width, LumaWant(csp, src, vecYR));
      if dstU != null {
        FillSame(dstU[..], oU, DPU, ChromaDone(SRC_WIDTH_U, SRC_HEIGHT_U, 0),
                 (r: nat, c: nat) => r < SRC_HEIGHT_U && c < SRC_WIDTH_U, ChromaWant(csp, src, vecUG));
      }
      if dstV != null {
        FillSame(dstV[..], oV, DPU, ChromaDone(SRC_WIDTH_U, SRC_HEIGHT_U, 0),
                 (r: nat, c: nat) => r < SRC_HEIGHT_U && c < SRC_WIDTH_U, ChromaWant(csp, src, vecVB));
      }
    }

    /** One chroma row `h` of `processFramePlanar`: its blocks, left to right. */
    method MapBlockRow(src: Frame, dstY: array<Byte>, dstU: array?<Byte>, dstV: array?<Byte>,
                       SRC_WIDTH_U: nat, SRC_PITCH_SAMPLES_Y: nat, SRC_PITCH_SAMPLES_U: nat,
                       DST_PITCH_SAMPLES_Y: nat, DST_PITCH_SAMPLES_U: nat, h: nat,
                       ghost oY: seq<Byte>, ghost oU: seq<Byte>, ghost oV: seq<Byte>)
      requires Geometry() && PlanarDst(src, dstY, dstU, dstV, DST_PITCH_SAMPLES_Y, DST_PITCH_SAMPLES_U)
      requires h < ChromaHeight(csp, src) && SRC_WIDTH_U == ChromaWidth(csp, src)
      requires SRC_PITCH_SAMPLES_Y == src.y.pitch && (src.u.Some? ==> SRC_PITCH_SAMPLES_U == src.u.value.pitch)
      requires MapState(src, dstY, dstU, dstV, DST_PITCH_SAMPLES_Y, DST_PITCH_SAMPLES_U, oY, oU, oV, h, 0, Times(lumaH, h), 0, 0, 0)
      modifies dstY, dstU, dstV
      ensures MapState(src, dstY, dstU, dstV, DST_PITCH_SAMPLES_Y, DST_PITCH_SAMPLES_U, oY, oU, oV,
                       h + 1, 0, Times(lumaH, h + 1), 0, 0, 0)
    {
      var srcLineY, dstLineY := Times(Times(SRC_PITCH_SAMPLES_Y, h), lumaH), Times(Times(DST_PITCH_SAMPLES_Y, h), lumaH);
      var srcLineU, dstLineU := Times(SRC_PITCH_SAMPLES_U, h), Times(DST_PITCH_SAMPLES_U, h);
      ghost var top := Times(lumaH, h);
      for w := 0 to SRC_WIDTH_U
        invariant MapState(src, dstY, dstU, dstV, DST_PITCH_SAMPLES_Y, DST_PITCH_SAMPLES_U, oY, oU, oV,
                           h, w, top, Times(lumaW, w), 0, 0)
      {
        MapBlock(src, dstY, dstU, dstV, SRC_PITCH_SAMPLES_Y, SRC_PITCH_SAMPLES_U, DST_PITCH_SAMPLES_Y, DST_PITCH_SAMPLES_U,
                 h, w, srcLineY, srcLineU, dstLineY, dstLineU, oY, oU, oV);
      }
      BandDone(src, dstY, dstU, dstV, DST_PITCH_SAMPLES_Y, DST_PITCH_SAMPLES_U, oY, oU, oV, h);
    }

    /** The end of chroma row `h` is the start of chroma row `h + 1`. */
    lemma BandDone(src: Frame, dstY: array<Byte>, dstU: array?<Byte>, dstV: array?<Byte>, DPY: nat, DPU: nat,
                   oY: seq<Byte>, oU: seq<Byte>, oV: seq<Byte>, h: nat)
      requires Geometry() && PlanarFrame(csp, src)
      requires MapState(src, dstY, dstU, dstV, DPY, DPU, oY, oU, oV, h, ChromaWidth(csp, src), Times(lumaH, h),
                        Times(lumaW, ChromaWidth(csp, src)), 0, 0)
      ensures MapState(src, dstY, dstU, dstV, DPY, DPU, oY, oU, oV, h + 1, 0, Times(lumaH, h + 1), 0, 0, 0)
    {
      LumaDoneBand(src.width, Times(lumaH, h), lumaH, lumaW);
      FillSame(dstY[..], oY, DPY, LumaDone(src.width, Times(lumaH, h), lumaH, src.width, lumaW, 0, 0),
               LumaDone(src.width, Times(lumaH, h + 1), lumaH, 0, lumaW, 0, 0), LumaWant(csp, src, vecYR));
      var wu := ChromaWidth(csp, src);
      if dstU != null {
        FillSame(dstU[..], oU, DPU, ChromaDone(wu, h, wu), ChromaDone(wu, h + 1, 0), ChromaWant(csp, src, vecUG));
      }
      if dstV != null {
        FillSame(dstV[..], oV, DPU, ChromaDone(wu, h, wu), ChromaDone(wu, h + 1, 0), ChromaWant(csp, src, vecVB));
      }
    }

    /** The block under chroma sample (`w`, `h`): read its key from its top-left
        luma sample and the chroma planes, write the table U and V where the
        destination planes exist, then the table luma over the whole block. */
    method MapBlock(src: Frame, dstY: array<Byte>, dstU: array?<Byte>, dstV: array?<Byte>,
                    SRC_PITCH_SAMPLES_Y: nat, SRC_PITCH_SAMPLES_U: nat, DST_PITCH_SAMPLES_Y: nat, DST_PITCH_SAMPLES_U: nat,
                    h: nat, w: nat, srcLineY: nat, srcLineU: nat, dstLineY: nat, dstLineU: nat,
                    ghost oY: seq<Byte>, ghost oU: seq<Byte>, ghost oV: seq<Byte>)
      requires Geometry() && PlanarDst(src, dstY, dstU, dstV, DST_PITCH_SAMPLES_Y, DST_PITCH_SAMPLES_U)
      requires h < ChromaHeight(csp, src) && w < ChromaWidth(csp, src)
      requires SRC_PITCH_SAMPLES_Y == src.y.pitch && (src.u.Some? ==> SRC_PITCH_SAMPLES_U == src.u.value.pitch)
      requires srcLineY == Times(Times(SRC_PITCH_SAMPLES_Y, h), lumaH) && dstLineY == Times(Times(DST_PITCH_SAMPLES_Y, h), lumaH)
      requires srcLineU == Times(SRC_PITCH_SAMPLES_U, h) && dstLineU == Times(DST_PITCH_SAMPLES_U, h)
      requires MapState(src, dstY, dstU, dstV, DST_PITCH_SAMPLES_Y, DST_PITCH_SAMPLES_U, oY, oU, oV,
                        h, w, Times(lumaH, h), Times(lumaW, w), 0, 0)
      modifies dstY, dstU, dstV
      ensures MapState(src, dstY, dstU, dstV, DST_PITCH_SAMPLES_Y, DST_PITCH_SAMPLES_U, oY, oU, oV,
                       h, w + 1, Times(lumaH, h), Times(lumaW, w + 1), 0, 0)
    {
      var sampleY, sampleU := Times(lumaW, w), w;
      var srcOfsY, srcOfsU := srcLineY + sampleY, srcLineU + sampleU;
      var dstOfsY, dstOfsU := dstLineY + sampleY, dstLineU + sampleU;
      KeyAt(csp, src, h, w, srcOfsY);
      ChromaStep(csp, src, h, w, SRC_PITCH_SAMPLES_U, srcOfsU);
      var y, u, v := src.y.data[srcOfsY], 0, 0;
      if src.u.Some? {
        u := src.u.value.data[srcOfsU];
      }
      if src.v.Some? {
        v := src.v.value.data[srcOfsU];
      }
      var packed := Pack(y, u, v);
      MapChroma(src, dstY, dstU, dstV, DST_PITCH_SAMPLES_Y, DST_PITCH_SAMPLES_U, h, w, dstOfsU, packed, oY, oU, oV);
      ghost var top, left := Times(lumaH, h), Times(lumaW, w);
      for i := 0 to lumaH
        invariant MapState(src, dstY, dstU, dstV, DST_PITCH_SAMPLES_Y, DST_PITCH_SAMPLES_U, oY, oU, oV,
                           h, w + 1, top, left, i, 0)
      {
        MapLumaRow(src, dstY, dstU, dstV, DST_PITCH_SAMPLES_Y, DST_PITCH_SAMPLES_U, h, w, i, dstOfsY, packed, oY, oU, oV);
      }
      BlockDone(src, dstY, dstU, dstV, DST_PITCH_SAMPLES_Y, DST_PITCH_SAMPLES_U, oY, oU, oV, h, w);
    }

    /** The end of the block under chroma sample (`w`, `h`) is the start of the
        block to its right. */
    lemma BlockDone(src: Frame, dstY: array<Byte>, dstU: array?<Byte>, dstV: array?<Byte>, DPY: nat, DPU: nat,
                    oY: seq<Byte>, oU: seq<Byte>, oV: seq<Byte>, h: nat, w: nat)
      requires Geometry()
      requires MapState(src, dstY, dstU, dstV, DPY, DPU, oY, oU, oV, h, w + 1, Times(lumaH, h), Times(lumaW, w), lumaH, 0)
      ensures MapState(src, dstY, dstU, dstV, DPY, DPU, oY, oU, oV, h, w + 1, Times(lumaH, h), Times(lumaW, w + 1), 0, 0)
    {
      MulStep(w + 1, lumaW);
      LumaDoneBlock(src.width, Times(lumaH, h), lumaH, Times(lumaW, w), lumaW);
      FillSame(dstY[..], oY, DPY, LumaDone(src.width, Times(lumaH, h), lumaH, Times(lumaW, w), lumaW, lumaH, 0),
               LumaDone(src.width, Times(lumaH, h), lumaH, Times(lumaW, w + 1), lumaW, 0, 0), LumaWant(csp, src, vecYR));
    }

    /** The chroma writes for the block under chroma sample (`w`, `h`), whose key
        is `packed`: U and V at offset `dstOfsU` of their planes, each only if
        that plane exists. */
    method MapChroma(src: Frame, dstY: array<Byte>, dstU: array?<Byte>, dstV: array?<Byte>, DPY: nat, DPU: nat,
                     h: nat, w: nat, dstOfsU: nat, packed: nat,
                     ghost oY: seq<Byte>, ghost oU: seq<Byte>, ghost oV: seq<Byte>)
      requires Geometry() && PlanarDst(src, dstY, dstU, dstV, DPY, DPU)
      requires h < ChromaHeight(csp, src) && w < ChromaWidth(csp, src)
      requires dstOfsU == Times(DPU, h) + w && packed == PlanarKey(csp, src, h, w)
      requires MapState(src, dstY, dstU, dstV, DPY, DPU, oY, oU, oV, h, w, Times(lumaH, h), Times(lumaW, w), 0, 0)
      modifies dstU, dstV
      ensures MapState(src, dstY, dstU, dstV, DPY, DPU, oY, oU, oV, h, w + 1, Times(lumaH, h), Times(lumaW, w), 0, 0)
    {
      if dstU != null {
        ChromaFill(csp, src, vecUG, dstU[..], oU, DPU, h, w, dstOfsU, packed);
        dstU[dstOfsU] := vecUG[packed];
      }
      if dstV != null {
        ChromaFill(csp, src, vecVB, dstV[..], oV, DPU, h, w, dstOfsU, packed);
        dstV[dstOfsU] := vecVB[packed];
      }
    }

    /** Luma row `i` of the block under chroma sample (`w`, `h`), whose top-left
        sample is at offset `dstOfsY`: every sample gets the table luma of `packed`. */
    method MapLumaRow(src: Frame, dstY: array<Byte>, dstU: array?<Byte>, dstV: array?<Byte>, DPY: nat, DPU: nat,
                      h: nat, w: nat, i: nat, dstOfsY: nat, packed: nat,
                      ghost oY: seq<Byte>, ghost oU: seq<Byte>, ghost oV: seq<Byte>)
      requires Geometry() && PlanarDst(src, dstY, dstU, dstV, DPY, DPU)
      requires h < ChromaHeight(csp, src) && w < ChromaWidth(csp, src) && i < lumaH
      requires dstOfsY == Times(Times(DPY, h), lumaH) + Times(lumaW, w) && packed == PlanarKey(csp, src, h, w)
      requires MapState(src, dstY, dstU, dstV, DPY, DPU, oY, oU, oV, h, w + 1, Times(lumaH, h), Times(lumaW, w), i, 0)
      modifies dstY
      ensures MapState(src, dstY, dstU, dstV, DPY, DPU, oY, oU, oV, h, w + 1, Times(lumaH, h), Times(lumaW, w), i + 1, 0)
    {
      ghost var top, left := Times(lumaH, h), Times(lumaW, w);
      var rowOfs := dstOfsY + Times(DPY, i);
      LumaRowStart(DPY, h, lumaH, w, lumaW, i, top, left, rowOfs);
      for j := 0 to lumaW
        invariant MapState(src, dstY, dstU, dstV, DPY, DPU, oY, oU, oV, h, w + 1, top, left, i, j)
      {
        LumaFill(csp, src, vecYR, dstY[..], oY, DPY, h, w, i, j, top, left, rowOfs + j, packed);
        dstY[rowOfs + j] := vecYR[packed];
      }
      LumaDoneRow(src.width, top, lumaH, left, lumaW, i);
      FillSame(dstY[..], oY, DPY, LumaDone(src.width, top, lumaH, left, lumaW, i, lumaW),
               LumaDone(src.width, top, lumaH, left, lumaW, i + 1, 0), LumaWant(csp, src, vecYR));
    }

    /** `fillComponentVectors`: sort and deduplicate the keys, then append to each
        table, for every input key in ascending order, the component of the
        nearest palette entry. */
    method FillComponentVectors(plt: seq<int>)
      requires 0 < |plt| && AllKeys(plt)
      modifies this`vecYR, this`vecUG, this`vecVB, this`palette
      ensures 0 < |palette| && AllKeys(palette) && StrictlyAscending(palette)
      ensures forall k :: k in palette <==> k in plt
      ensures |vecYR| == |old(vecYR)| + TableSize && vecYR[..|old(vecYR)|] == old(vecYR)
      ensures |vecUG| == |old(vecUG)| + TableSize && vecUG[..|old(vecUG)|] == old(vecUG)
      ensures |vecVB| == |old(vecVB)| + TableSize && vecVB[..|old(vecVB)|] == old(vecVB)
      ensures IsTable(palette, vecYR[|old(vecYR)|..], vecUG[|old(vecUG)|..], vecVB[|old(vecVB)|..])
    {
      var sorted := SortUnique(plt);
      assert plt[0] in sorted;
      forall i | 0 <= i < |sorted|
        ensures 0 <= sorted[i] < TableSize
      {
        assert sorted[i] in plt;
      }
      var yr, ug, vb := [], [], [];
      for i := 0 to TableSize
        invariant unchanged(this)
        invariant TablePrefix(sorted, yr, ug, vb, i)
      {
        var outInt := ClosestMatch(sorted, i);
        TablePrefixStep(sorted, yr, ug, vb, i, outInt);
        yr, ug, vb := yr + [YR(outInt)], ug + [UG(outInt)], vb + [VB(outInt)];
      }
      assert (vecYR + yr)[|vecYR|..] == yr && (vecUG + ug)[|vecUG|..] == ug && (vecVB + vb)[|vecVB|..] == vb;
      assert (vecYR + yr)[..|vecYR|] == vecYR && (vecUG + ug)[..|vecUG|] == vecUG && (vecVB + vb)[..|vecVB|] == vecVB;
      vecYR, vecUG, vecVB := vecYR + yr, vecUG + ug, vecVB + vb;
      palette := sorted;
    }
  }
}
