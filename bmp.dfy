/** The BMP reader of TurnsTileBmpSource: the little-endian header fields, the
    `BM` check, the pixel-type dispatch and the copies of the pixel rows into a
    packed or a planar frame.  TurnsTileTestSource repeats the header parse and
    both row copies word for word and uses these members as well. */
module Bmp {
  import opened Raster

  /** Unsigned 16-bit little-endian value at `ofs`. */
  function U16(buf: seq<Byte>, ofs: nat): (v: nat)
    requires ofs + 2 <= |buf|
    ensures v < 0x1_0000
  {
    buf[ofs] as int + 0x100 * (buf[ofs + 1] as int)
  }

  /** Unsigned 32-bit little-endian value at `ofs`. */
  function U32(buf: seq<Byte>, ofs: nat): (v: nat)
    requires ofs + 4 <= |buf|
    ensures v < 0x1_0000_0000
  {
    U16(buf, ofs) + 0x1_0000 * U16(buf, ofs + 2)
  }

  /** Two's-complement reading of an unsigned value below `2 * half`. */
  function Signed(u: nat, half: nat): (v: int)
    requires u < 2 * half
    ensures -(half as int) <= v < half
    ensures v >= 0 <==> u < half
  {
    if u < half then u else u - 2 * half
  }

  /** The two's-complement bit pattern of `v`, read as an unsigned value. */
  function Unsigned(v: int, half: nat): (u: nat)
    requires -(half as int) <= v < half
    ensures u < 2 * half && Signed(u, half) == v
  {
    if v >= 0 then v else v + 2 * half
  }

  /** `short int` read little-endian at `ofs`. */
  function S16(buf: seq<Byte>, ofs: nat): (v: int)
    requires ofs + 2 <= |buf|
    ensures -0x8000 <= v < 0x8000
    ensures v == 0 <==> buf[ofs] == 0 && buf[ofs + 1] == 0
  {
    Signed(U16(buf, ofs), 0x8000)
  }

  /** `int` read little-endian at `ofs`. */
  function S32(buf: seq<Byte>, ofs: nat): (v: int)
    requires ofs + 4 <= |buf|
    ensures -0x8000_0000 <= v < 0x8000_0000
  {
    Signed(U32(buf, ofs), 0x8000_0000)
  }

  /** The two bytes of `v`, least significant first. */
  function LE16(v: nat): (b: seq<Byte>)
    requires v < 0x1_0000
    ensures |b| == 2
  {
    [v % 0x100, v / 0x100]
  }

  /** The four bytes of `v`, least significant first. */
  function LE32(v: nat): (b: seq<Byte>)
    requires v < 0x1_0000_0000
    ensures |b| == 4
  {
    LE16(v % 0x1_0000) + LE16(v / 0x1_0000)
  }

  /** Reading back the two bytes of `v` gives `v`. */
  lemma U16At(buf: seq<Byte>, ofs: nat, v: nat)
    requires v < 0x1_0000 && ofs + 2 <= |buf| && buf[ofs..ofs + 2] == LE16(v)
    ensures U16(buf, ofs) == v
  {
    assert buf[ofs] == buf[ofs..ofs + 2][0] && buf[ofs + 1] == buf[ofs..ofs + 2][1];
    Decompose(v, 0x100);
  }

  /** Reading back the four bytes of `v` gives `v`. */
  lemma U32At(buf: seq<Byte>, ofs: nat, v: nat)
    requires v < 0x1_0000_0000 && ofs + 4 <= |buf| && buf[ofs..ofs + 4] == LE32(v)
    ensures U32(buf, ofs) == v
  {
    assert buf[ofs..ofs + 2] == buf[ofs..ofs + 4][..2] == LE16(v % 0x1_0000);
    assert buf[ofs + 2..ofs + 4] == buf[ofs..ofs + 4][2..] == LE16(v / 0x1_0000);
    U16At(buf, ofs, v % 0x1_0000);
    U16At(buf, ofs + 2, v / 0x1_0000);
    Decompose(v, 0x1_0000);
  }

  /** The `BITMAPFILEHEADER` and `BITMAPINFOHEADER` fields the sources read. */
  datatype Header = Header(ofsData: nat, width: int, height: int, planes: int, bits: int, compression: int)

  /** Offset of `BITMAPINFOHEADER` in the file. */
  const OFS_INFO_HDR: nat := 14

  /** Bytes up to the end of the last field read (the compression field is read
      as a `short int` at offset 30). */
  const HEADER_SIZE: nat := 32

  /** Each field within the C type it is read into. */
  predicate HeaderInRange(h: Header) {
    && h.ofsData < 0x1_0000_0000
    && -0x8000_0000 <= h.width < 0x8000_0000 && -0x8000_0000 <= h.height < 0x8000_0000
    && -0x8000 <= h.planes < 0x8000 && -0x8000 <= h.bits < 0x8000 && -0x8000 <= h.compression < 0x8000
  }

  /** The header fields as the sources read them: `bfOffBits` as an unsigned
      int at 10, `biWidth` and `biHeight` as ints at 18 and 22, `biPlanes`,
      `biBitCount` and the low half of `biCompression` as shorts at 26, 28, 30. */
  function ParseHeader(buf: seq<Byte>): (h: Header)
    requires |buf| >= HEADER_SIZE
    ensures HeaderInRange(h)
    ensures h.compression == 0 <==> buf[30] == 0 && buf[31] == 0
  {
    Header(U32(buf, 10), S32(buf, OFS_INFO_HDR + 4), S32(buf, OFS_INFO_HDR + 8),
           S16(buf, OFS_INFO_HDR + 12), S16(buf, OFS_INFO_HDR + 14), S16(buf, OFS_INFO_HDR + 16))
  }

  function Zeros(n: nat): (z: seq<Byte>)
    ensures |z| == n
  {
    seq(n, _ => 0)
  }

  /** A file start laid out as the sources expect, with `BM` first and every
      byte the sources do not read set to zero. */
  function HeaderBytes(h: Header): (b: seq<Byte>)
    requires HeaderInRange(h)
    ensures |b| == HEADER_SIZE
  {
    [0x42, 0x4D] + Zeros(8) + LE32(h.ofsData) + Zeros(4)
    + LE32(Unsigned(h.width, 0x8000_0000)) + LE32(Unsigned(h.height, 0x8000_0000))
    + LE16(Unsigned(h.planes, 0x8000)) + LE16(Unsigned(h.bits, 0x8000)) + LE16(Unsigned(h.compression, 0x8000))
  }

  /** Parsing the bytes of a header gives that header back, whatever follows it. */
  lemma HeaderRoundTrip(h: Header, rest: seq<Byte>)
    requires HeaderInRange(h)
    ensures ParseHeader(HeaderBytes(h) + rest) == h
  {
    var b := HeaderBytes(h) + rest;
    var w, ht := Unsigned(h.width, 0x8000_0000), Unsigned(h.height, 0x8000_0000);
    var p, bt, c := Unsigned(h.planes, 0x8000), Unsigned(h.bits, 0x8000), Unsigned(h.compression, 0x8000);
    assert b[10..14] == LE32(h.ofsData);
    assert b[18..22] == LE32(w);
    assert b[22..26] == LE32(ht);
    assert b[26..28] == LE16(p);
    assert b[28..30] == LE16(bt);
    assert b[30..32] == LE16(c);
    U32At(b, 10, h.ofsData);
    U32At(b, 18, w);
    U32At(b, 22, ht);
    U16At(b, 26, p);
    U16At(b, 28, bt);
    U16At(b, 30, c);
  }

  /** The buffer starts with the magic `'B', 'M'`. */
  predicate IsBm(buf: seq<Byte>) {
    |buf| >= 2 && buf[0] == 'B' as int && buf[1] == 'M' as int
  }

  const NOT_BMP: string := "TurnsTileBMPSource: Input must be BMP or EBMP!"

  /** `OpenFile` once the file is in `buf`: the empty string for a `BM` file,
      the error message otherwise. */
  function OpenFile(buf: seq<Byte>): (err: string)
    requires |buf| >= 2
    ensures err == "" <==> IsBm(buf)
    ensures err != "" ==> err == NOT_BMP
  {
    if !(buf[0] == 'B' as int && buf[1] == 'M' as int) then NOT_BMP else ""
  }

  /** The pixel types a BMP can be loaded as. */
  datatype PixelType = BGR32 | BGR24 | YUY2 | YV12

  /** The `biPlanes` value of a file of pixel type `pt`. */
  function Planes(pt: PixelType): nat {
    if pt == YV12 then 3 else 1
  }

  /** The `biBitCount` value of a file of pixel type `pt`. */
  function BitCount(pt: PixelType): nat {
    match pt
    case BGR32 => 32
    case BGR24 => 24
    case YUY2 => 16
    case YV12 => 12
  }

  /** Why a file is refused, in the order the checks run. */
  datatype BmpError =
    | OpenFailed(msg: string)
    | Compressed
    | UnsupportedBits(planes: int, bits: int)
    | UnsupportedPlanes(planes: int)

  /** The planes and bit-count dispatch: 1 plane of 32, 24 or 16 bits, or 3
      planes of 12 bits. */
  function Dispatch(planes: int, bits: int): (r: Result<PixelType, BmpError>)
    ensures r.Ok? ==> Planes(r.value) == planes && BitCount(r.value) == bits
    ensures r.Err? ==> r.error == if planes == 1 || planes == 3 then UnsupportedBits(planes, bits)
                                  else UnsupportedPlanes(planes)
  {
    if planes == 1 then
      if bits == 32 then Ok(BGR32)
      else if bits == 24 then Ok(BGR24)
      else if bits == 16 then Ok(YUY2)
      else Err(UnsupportedBits(planes, bits))
    else if planes == 3 then
      if bits == 12 then Ok(YV12) else Err(UnsupportedBits(planes, bits))
    else Err(UnsupportedPlanes(planes))
  }

  /** Every pixel type is accepted when its own planes and bit count are given,
      so `Dispatch` accepts exactly the four described combinations. */
  lemma DispatchComplete(pt: PixelType)
    ensures Dispatch(Planes(pt), BitCount(pt)) == Ok(pt)
  {
    match pt
    case BGR32 =>
    case BGR24 =>
    case YUY2 =>
    case YV12 =>
  }

  /** What the source filter announces to the host. */
  datatype VideoInfo = VideoInfo(width: int, height: int, pixelType: PixelType, numFrames: nat,
                                 fpsNumerator: nat, fpsDenominator: nat)

  /** A loaded file: its video info and the header it came from. */
  datatype Source = Source(vi: VideoInfo, header: Header)

  /** The checks on the header once the file is known to be a BMP: nonzero
      compression is refused first, then the planes and bit-count dispatch
      runs; an accepted file is a 240-frame clip at 24 frames per second. */
  function LoadHeader(buf: seq<Byte>): (r: Result<Source, BmpError>)
    requires |buf| >= HEADER_SIZE
    ensures ParseHeader(buf).compression != 0 ==> r == Err(Compressed)
    ensures r.Ok? <==> ParseHeader(buf).compression == 0 && Dispatch(ParseHeader(buf).planes, ParseHeader(buf).bits).Ok?
    ensures r.Err? && ParseHeader(buf).compression == 0 ==> r.error == Dispatch(ParseHeader(buf).planes, ParseHeader(buf).bits).error
    ensures r.Ok? ==> && r.value.header == ParseHeader(buf)
                      && r.value.vi.width == r.value.header.width && r.value.vi.height == r.value.header.height
                      && Planes(r.value.vi.pixelType) == r.value.header.planes
                      && BitCount(r.value.vi.pixelType) == r.value.header.bits
                      && r.value.vi.numFrames == 240 && r.value.vi.fpsNumerator == 24 && r.value.vi.fpsDenominator == 1
  {
    var h := ParseHeader(buf);
    if h.compression != 0 then Err(Compressed)
    else
      match Dispatch(h.planes, h.bits)
      case Err(e) => Err(e)
      case Ok(pt) => Ok(Source(VideoInfo(h.width, h.height, pt, 240, 24, 1), h))
  }

  /** The checks of the constructor on the file contents, in their order: the
      `BM` magic, then those of `LoadHeader`. */
  function ReadBmp(buf: seq<Byte>): (r: Result<Source, BmpError>)
    requires |buf| >= 2 && (IsBm(buf) ==> |buf| >= HEADER_SIZE)
    ensures !IsBm(buf) ==> r == Err(OpenFailed(NOT_BMP))
    ensures IsBm(buf) && ParseHeader(buf).compression != 0 ==> r == Err(Compressed)
    ensures r.Ok? <==> IsBm(buf) && ParseHeader(buf).compression == 0
                       && Dispatch(ParseHeader(buf).planes, ParseHeader(buf).bits).Ok?
    ensures r.Ok? ==> && r.value.header == ParseHeader(buf)
                      && r.value.vi.width == r.value.header.width && r.value.vi.height == r.value.header.height
                      && Planes(r.value.vi.pixelType) == r.value.header.planes
                      && BitCount(r.value.vi.pixelType) == r.value.header.bits
                      && r.value.vi.numFrames == 240 && r.value.vi.fpsNumerator == 24 && r.value.vi.fpsDenominator == 1
  {
    var err := OpenFile(buf);
    if err != "" then Err(OpenFailed(err)) else LoadHeader(buf)
  }

  /** An uncompressed file whose planes and bit count are those of `pt` loads as
      a clip of type `pt` with the header's dimensions. */
  lemma ReadHeaderBytes(h: Header, pt: PixelType, rest: seq<Byte>)
    requires HeaderInRange(h) && h.compression == 0 && h.planes == Planes(pt) && h.bits == BitCount(pt)
    ensures ReadBmp(HeaderBytes(h) + rest) == Ok(Source(VideoInfo(h.width, h.height, pt, 240, 24, 1), h))
  {
    HeaderRoundTrip(h, rest);
    DispatchComplete(pt);
  }

  /** `ceil(((bits / 8) * width) / 4.0) * 4`: the bytes of a BMP pixel row,
      padded to whole 32-bit words. */
  function PitchBuf(bits: nat, width: int): (p: int)
    ensures p % 4 == 0 && (bits / 8) * width <= p < (bits / 8) * width + 4
    ensures width >= 0 ==> p >= 0
  {
    var n := (bits / 8) * width;
    MulNatInt(bits / 8, width);
    if n >= 0 then (n + 3) / 4 * 4 else -((-n) / 4 * 4)
  }

  lemma MulNatInt(a: nat, b: int)
    ensures b >= 0 ==> a * b >= 0
  {
  }

  /** The `rows` rows of `cols` bytes at pitch `pitch` from offset `ofs` lie in a
      buffer of `len` bytes: every byte a row copy reads exists. */
  predicate Holds(len: nat, ofs: nat, pitch: nat, rows: nat, cols: nat) {
    rows == 0 || cols == 0 || ofs + Idx(pitch, rows - 1, cols) <= len
  }

  /** A destination of `len` bytes with rows of `cols` bytes at pitch `pitch`,
      as the host allocates frames: rows do not overlap and all fit. */
  predicate Fits(len: nat, pitch: nat, rows: nat, cols: nat) {
    cols <= pitch && (rows == 0 || Idx(pitch, rows - 1, cols) <= len)
  }

  /** The byte a row copy from offset `ofs` at pitch `pitch` puts at (`r`, `c`). */
  function RowsOf(buf: seq<Byte>, ofs: nat, pitch: nat, rows: nat, cols: nat): (nat, nat) -> Byte
    requires Holds(|buf|, ofs, pitch, rows, cols)
  {
    (r: nat, c: nat) =>
      if r < rows && c < cols then
        RowFits(pitch, r, rows, cols, c, |buf| - ofs);
        buf[ofs + Idx(pitch, r, c)]
      else 0
  }

  /** The positions a row copy has written once rows `0 .. i - 1` and the first
      `j` bytes of row `i` are done. */
  function Copied(cols: nat, i: nat, j: nat): (nat, nat) -> bool {
    (r: nat, c: nat) => c < cols && (r < i || (r == i && c < j))
  }

  /** One byte of a row copy: storing it extends the copied region by one. */
  lemma CopyStep(buf: seq<Byte>, ofs: nat, bufPitch: nat, s: seq<Byte>, orig: seq<Byte>, pitch: nat,
                 rows: nat, cols: nat, i: nat, j: nat)
    requires Holds(|buf|, ofs, bufPitch, rows, cols) && Fits(|s|, pitch, rows, cols) && i < rows && j < cols
    requires Filled(s, orig, pitch, Copied(cols, i, j), RowsOf(buf, ofs, bufPitch, rows, cols))
    ensures ofs + Idx(bufPitch, i, j) < |buf| && Idx(pitch, i, j) < |s|
    ensures Filled(s[Idx(pitch, i, j) := buf[ofs + Idx(bufPitch, i, j)]], orig, pitch, Copied(cols, i, j + 1),
                   RowsOf(buf, ofs, bufPitch, rows, cols))
  {
    RowFits(bufPitch, i, rows, cols, j, |buf| - ofs);
    FillAt(s, orig, pitch, rows, cols, Copied(cols, i, j), Copied(cols, i, j + 1), RowsOf(buf, ofs, bufPitch, rows, cols),
           i, j, Idx(pitch, i, j), buf[ofs + Idx(bufPitch, i, j)]);
  }

  /** `DecodeBmpPacked`: row `i` of the pixel data, `PITCH_BUF` bytes apart in
      the file from `ofsData`, goes to row `i` of the frame, `PITCH` bytes apart. */
  method DecodeBmpPacked(buf: seq<Byte>, ofsData: nat, dst: array<Byte>,
                         PITCH: nat, HEIGHT: nat, ROW_SIZE: nat, PITCH_BUF: nat)
    requires Holds(|buf|, ofsData, PITCH_BUF, HEIGHT, ROW_SIZE) && Fits(dst.Length, PITCH, HEIGHT, ROW_SIZE)
    modifies dst
    ensures Filled(dst[..], old(dst[..]), PITCH, Copied(ROW_SIZE, HEIGHT, 0), RowsOf(buf, ofsData, PITCH_BUF, HEIGHT, ROW_SIZE))
  {
    ghost var want := RowsOf(buf, ofsData, PITCH_BUF, HEIGHT, ROW_SIZE);
    FillStart(dst[..], PITCH, Copied(ROW_SIZE, 0, 0), want);
    for i := 0 to HEIGHT
      invariant Filled(dst[..], old(dst[..]), PITCH, Copied(ROW_SIZE, i, 0), want)
    {
      for j := 0 to ROW_SIZE
        invariant Filled(dst[..], old(dst[..]), PITCH, Copied(ROW_SIZE, i, j), want)
      {
        CopyStep(buf, ofsData, PITCH_BUF, dst[..], old(dst[..]), PITCH, HEIGHT, ROW_SIZE, i, j);
        dst[Idx(PITCH, i, j)] := buf[ofsData + Idx(PITCH_BUF, i, j)];
      }
      FillSame(dst[..], old(dst[..]), PITCH, Copied(ROW_SIZE, i, ROW_SIZE), Copied(ROW_SIZE, i + 1, 0), want);
    }
  }

  /** What a finished row copy means byte by byte: byte `j` of destination row
      `i` is byte `j` of file row `i`, and every other destination byte is as it was. */
  lemma CopiedBytes(buf: seq<Byte>, ofs: nat, bufPitch: nat, s: seq<Byte>, orig: seq<Byte>, pitch: nat,
                    rows: nat, cols: nat)
    requires Holds(|buf|, ofs, bufPitch, rows, cols) && Fits(|s|, pitch, rows, cols)
    requires Filled(s, orig, pitch, Copied(cols, rows, 0), RowsOf(buf, ofs, bufPitch, rows, cols))
    ensures forall i: nat, j: nat :: i < rows && j < cols ==>
              Idx(pitch, i, j) < |s| && ofs + Idx(bufPitch, i, j) < |buf| && s[Idx(pitch, i, j)] == buf[ofs + Idx(bufPitch, i, j)]
    ensures pitch > 0 ==> forall o :: 0 <= o < |s| && !(o / pitch < rows && o % pitch < cols) ==> s[o] == orig[o]
  {
    forall i: nat, j: nat | i < rows && j < cols
      ensures Idx(pitch, i, j) < |s| && ofs + Idx(bufPitch, i, j) < |buf| && s[Idx(pitch, i, j)] == buf[ofs + Idx(bufPitch, i, j)]
    {
      RowFits(pitch, i, rows, cols, j, |s|);
      RowFits(bufPitch, i, rows, cols, j, |buf| - ofs);
    }
    if pitch > 0 {
      forall o | 0 <= o < |s| && !(o / pitch < rows && o % pitch < cols)
        ensures s[o] == orig[o]
      {
        FilledElsewhere(s, orig, pitch, Copied(cols, rows, 0), RowsOf(buf, ofs, bufPitch, rows, cols), o);
      }
    }
  }

  /** `n` whole rows of `p` bytes without padding end `Times(p, n)` bytes on. */
  lemma TightRows(p: nat, n: nat)
    requires n > 0
    ensures Idx(p, n - 1, p) == Times(p, n)
  {
    IdxTimes(p, n - 1, p);
  }

  /** `DecodeBmpPlanar`: the Y plane is stored in the file without row padding
      from `ofsData`, U right after it and V right after U; each is copied into
      its own plane of the frame.  Each of the three loop nests is the packed
      row copy with the file pitch equal to the row size. */
  method DecodeBmpPlanar(buf: seq<Byte>, ofsData: nat, dstY: array<Byte>, dstU: array<Byte>, dstV: array<Byte>,
                         PITCH_Y: nat, HEIGHT_Y: nat, ROW_SIZE_Y: nat,
                         PITCH_U: nat, HEIGHT_U: nat, ROW_SIZE_U: nat)
    requires dstY != dstU && dstY != dstV && dstU != dstV
    requires Holds(|buf|, ofsData, ROW_SIZE_Y, HEIGHT_Y, ROW_SIZE_Y)
    requires Holds(|buf|, ofsData + Times(ROW_SIZE_Y, HEIGHT_Y), ROW_SIZE_U, HEIGHT_U, ROW_SIZE_U)
    requires Holds(|buf|, ofsData + Times(ROW_SIZE_Y, HEIGHT_Y) + Times(ROW_SIZE_U, HEIGHT_U), ROW_SIZE_U, HEIGHT_U, ROW_SIZE_U)
    requires Fits(dstY.Length, PITCH_Y, HEIGHT_Y, ROW_SIZE_Y)
    requires Fits(dstU.Length, PITCH_U, HEIGHT_U, ROW_SIZE_U) && Fits(dstV.Length, PITCH_U, HEIGHT_U, ROW_SIZE_U)
    modifies dstY, dstU, dstV
    ensures Filled(dstY[..], old(dstY[..]), PITCH_Y, Copied(ROW_SIZE_Y, HEIGHT_Y, 0),
                   RowsOf(buf, ofsData, ROW_SIZE_Y, HEIGHT_Y, ROW_SIZE_Y))
    ensures Filled(dstU[..], old(dstU[..]), PITCH_U, Copied(ROW_SIZE_U, HEIGHT_U, 0),
                   RowsOf(buf, ofsData + Times(ROW_SIZE_Y, HEIGHT_Y), ROW_SIZE_U, HEIGHT_U, ROW_SIZE_U))
    ensures Filled(dstV[..], old(dstV[..]), PITCH_U, Copied(ROW_SIZE_U, HEIGHT_U, 0),
                   RowsOf(buf, ofsData + Times(ROW_SIZE_Y, HEIGHT_Y) + Times(ROW_SIZE_U, HEIGHT_U), ROW_SIZE_U, HEIGHT_U, ROW_SIZE_U))
  {
    var OFS_BUF_Y := ofsData;
    var OFS_BUF_U := OFS_BUF_Y + Times(ROW_SIZE_Y, HEIGHT_Y);
    var OFS_BUF_V := OFS_BUF_U + Times(ROW_SIZE_U, HEIGHT_U);
    DecodeBmpPacked(buf, OFS_BUF_Y, dstY, PITCH_Y, HEIGHT_Y, ROW_SIZE_Y, ROW_SIZE_Y);
    DecodeBmpPacked(buf, OFS_BUF_U, dstU, PITCH_U, HEIGHT_U, ROW_SIZE_U, ROW_SIZE_U);
    DecodeBmpPacked(buf, OFS_BUF_V, dstV, PITCH_U, HEIGHT_U, ROW_SIZE_U, ROW_SIZE_U);
  }

  /** Tightly stored planes: the file holds all of Y, U and V after `ofsData`
      exactly when the three row copies of `DecodeBmpPlanar` read inside it. */
  lemma PlanarHolds(len: nat, ofsData: nat, rsY: nat, hY: nat, rsU: nat, hU: nat)
    requires ofsData + Times(rsY, hY) + Times(rsU, hU) + Times(rsU, hU) <= len
    ensures Holds(len, ofsData, rsY, hY, rsY)
    ensures Holds(len, ofsData + Times(rsY, hY), rsU, hU, rsU)
    ensures Holds(len, ofsData + Times(rsY, hY) + Times(rsU, hU), rsU, hU, rsU)
  {
    if hY > 0 {
      TightRows(rsY, hY);
    }
    if hU > 0 {
      TightRows(rsU, hU);
    }
  }

  /** The end of the constructor: a 1-plane file is copied row by row with its
      padded pitch into the packed frame, a 3-plane file plane by plane. */
  method DecodeFrame(buf: seq<Byte>, src: Source, dstY: array<Byte>, dstU: array<Byte>, dstV: array<Byte>,
                     PITCH_Y: nat, PITCH_U: nat, HEIGHT_Y: nat, HEIGHT_U: nat, ROW_SIZE_Y: nat, ROW_SIZE_U: nat)
    requires src.header.planes == Planes(src.vi.pixelType) && src.header.bits == BitCount(src.vi.pixelType)
    requires src.vi.width >= 0 && Fits(dstY.Length, PITCH_Y, HEIGHT_Y, ROW_SIZE_Y)
    requires src.header.planes == 1 ==>
               Holds(|buf|, src.header.ofsData, PitchBuf(src.header.bits, src.vi.width), HEIGHT_Y, ROW_SIZE_Y)
    requires src.header.planes != 1 ==>
               && dstY != dstU && dstY != dstV && dstU != dstV
               && Fits(dstU.Length, PITCH_U, HEIGHT_U, ROW_SIZE_U) && Fits(dstV.Length, PITCH_U, HEIGHT_U, ROW_SIZE_U)
               && Holds(|buf|, src.header.ofsData, ROW_SIZE_Y, HEIGHT_Y, ROW_SIZE_Y)
               && Holds(|buf|, src.header.ofsData + Times(ROW_SIZE_Y, HEIGHT_Y), ROW_SIZE_U, HEIGHT_U, ROW_SIZE_U)
               && Holds(|buf|, src.header.ofsData + Times(ROW_SIZE_Y, HEIGHT_Y) + Times(ROW_SIZE_U, HEIGHT_U),
                        ROW_SIZE_U, HEIGHT_U, ROW_SIZE_U)
    modifies dstY, dstU, dstV
    ensures src.header.planes == 1 ==>
              && Filled(dstY[..], old(dstY[..]), PITCH_Y, Copied(ROW_SIZE_Y, HEIGHT_Y, 0),
                        RowsOf(buf, src.header.ofsData, PitchBuf(src.header.bits, src.vi.width), HEIGHT_Y, ROW_SIZE_Y))
    ensures src.header.planes != 1 ==>
              && Filled(dstY[..], old(dstY[..]), PITCH_Y, Copied(ROW_SIZE_Y, HEIGHT_Y, 0),
                        RowsOf(buf, src.header.ofsData, ROW_SIZE_Y, HEIGHT_Y, ROW_SIZE_Y))
              && Filled(dstU[..], old(dstU[..]), PITCH_U, Copied(ROW_SIZE_U, HEIGHT_U, 0),
                        RowsOf(buf, src.header.ofsData + Times(ROW_SIZE_Y, HEIGHT_Y), ROW_SIZE_U, HEIGHT_U, ROW_SIZE_U))
              && Filled(dstV[..], old(dstV[..]), PITCH_U, Copied(ROW_SIZE_U, HEIGHT_U, 0),
                        RowsOf(buf, src.header.ofsData + Times(ROW_SIZE_Y, HEIGHT_Y) + Times(ROW_SIZE_U, HEIGHT_U),
                               ROW_SIZE_U, HEIGHT_U, ROW_SIZE_U))
  {
    var PITCH_BUF := PitchBuf(src.header.bits, src.vi.width);
    if src.header.planes == 1 {
      DecodeBmpPacked(buf, src.header.ofsData, dstY, PITCH_Y, HEIGHT_Y, ROW_SIZE_Y, PITCH_BUF);
    } else {
      DecodeBmpPlanar(buf, src.header.ofsData, dstY, dstU, dstV,
                      PITCH_Y, HEIGHT_Y, ROW_SIZE_Y, PITCH_U, HEIGHT_U, ROW_SIZE_U);
    }
  }
}
