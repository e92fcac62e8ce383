/** TurnsTileTestSource, the source filter of the test suite: it classifies a
    file as BMP, EBMP or PNG, loads a BMP exactly as TurnsTileBmpSource does,
    and turns the RGB(A) rows a PNG decoder hands back into a bottom-up BGR(A)
    frame. */
module TestSource {
  import opened Raster
  import Bmp

  // ---------------------------------------------------------------------------
  // File classification

  /** The kinds of file the source tells apart. */
  datatype FileType = BmpFile | EbmpFile | PngFile

  /** Why the source refuses to load a file. */
  datatype TestError =
    | UnknownType
    | BmpRefused(e: Bmp.BmpError)
    | PngDecodeFailed(code: nat)

  /** What `filename.substr(filename.find_last_of('.') + 1)` yields: the text
      after the last `'.'`, or the whole name when it has no `'.'` (`npos + 1`
      wraps to 0). */
  function AfterLastDot(s: string): (t: string)
    ensures |t| <= |s| && s[|s| - |t|..] == t && '.' !in t
    ensures t == s || s[|s| - |t| - 1] == '.'
  {
    if |s| == 0 then ""
    else if s[|s| - 1] == '.' then ""
    else AfterLastDot(s[..|s| - 1]) + [s[|s| - 1]]
  }

  /** The extension of a name ending in a dot and a dot-free `ext` is `ext`. */
  lemma {:induction false} AfterLastDotExt(stem: string, ext: string)
    requires '.' !in ext
    ensures AfterLastDot(stem + "." + ext) == ext
  {
    var s := stem + "." + ext;
    if |ext| == 0 {
      assert s[|s| - 1] == '.';
    } else {
      assert s[..|s| - 1] == stem + "." + ext[..|ext| - 1];
      assert ext[|ext| - 1] in ext;
      AfterLastDotExt(stem, ext[..|ext| - 1]);
      assert ext[..|ext| - 1] + [ext[|ext| - 1]] == ext;
    }
  }

  /** The eight bytes every PNG file starts with. */
  const PNG_SIGNATURE: seq<Byte> := [0x89, 0x50, 0x4E, 0x47, 0x0D, 0x0A, 0x1A, 0x0A]

  /** The buffer starts with the PNG signature. */
  predicate IsPng(buf: seq<Byte>) {
    |buf| >= 8 && buf[..8] == PNG_SIGNATURE
  }

  /** The signature test reads byte `k` only once bytes `0 .. k - 1` matched, so
      it stays inside a buffer of at least two bytes exactly when the buffer is
      not a proper prefix of the signature. */
  predicate SignatureReadable(buf: seq<Byte>) {
    |buf| >= 2 && (|buf| < 8 ==> buf != PNG_SIGNATURE[..|buf|])
  }

  /** A buffer that matches the signature up to byte `k` goes on past it,
      unless the whole signature is matched. */
  lemma PrefixLonger(buf: seq<Byte>, k: nat)
    requires SignatureReadable(buf) && k + 1 < 8 && k < |buf| && buf[..k] == PNG_SIGNATURE[..k]
    requires buf[k] == PNG_SIGNATURE[k]
    ensures k + 1 < |buf| && buf[..k + 1] == PNG_SIGNATURE[..k + 1]
  {
    assert buf[..k + 1] == buf[..k] + [buf[k]];
    assert PNG_SIGNATURE[..k + 1] == PNG_SIGNATURE[..k] + [PNG_SIGNATURE[k]];
    assert buf[..|buf|] == buf;
  }

  /** The byte-by-byte signature comparison from byte `k` on, once bytes
      `0 .. k - 1` matched, stopping at the first mismatch. */
  function MatchesFrom(buf: seq<Byte>, k: nat): (b: bool)
    requires SignatureReadable(buf) && k <= 8 && k <= |buf| && buf[..k] == PNG_SIGNATURE[..k]
    requires k < 8 ==> k < |buf|
    decreases 8 - k
  {
    if k == 8 then true
    else if buf[k] != PNG_SIGNATURE[k] then false
    else if k + 1 == 8 then
      assert buf[..k + 1] == buf[..k] + [buf[k]];
      true
    else
      PrefixLonger(buf, k);
      MatchesFrom(buf, k + 1)
  }

  /** A buffer starting with the signature holds signature byte `k` at `k`. */
  lemma SignatureByte(buf: seq<Byte>, k: nat)
    requires k < 8 && k < |buf|
    ensures IsPng(buf) ==> buf[k] == PNG_SIGNATURE[k]
  {
    if |buf| >= 8 {
      assert buf[k] == buf[..8][k];
    }
  }

  /** The comparison from byte `k` on succeeds exactly when the buffer starts
      with the whole signature. */
  lemma {:induction false} MatchesFromIsPng(buf: seq<Byte>, k: nat)
    requires SignatureReadable(buf) && k <= 8 && k <= |buf| && buf[..k] == PNG_SIGNATURE[..k]
    requires k < 8 ==> k < |buf|
    ensures MatchesFrom(buf, k) <==> IsPng(buf)
    decreases 8 - k
  {
    if k < 8 {
      if buf[k] != PNG_SIGNATURE[k] {
        SignatureByte(buf, k);
      } else if k + 1 == 8 {
        assert buf[..k + 1] == buf[..k] + [buf[k]];
      } else {
        PrefixLonger(buf, k);
        MatchesFromIsPng(buf, k + 1);
      }
    }
  }

  /** The short-circuit comparison of `OpenFile` accepts exactly the buffers
      that start with the signature, and no `BM` buffer is one of them. */
  lemma SignatureTest(buf: seq<Byte>)
    requires SignatureReadable(buf)
    ensures buf[0] == 0x89 ==> (MatchesFrom(buf, 1) <==> IsPng(buf))
    ensures IsPng(buf) ==> buf[0] == 0x89
  {
    if buf[0] == 0x89 {
      assert buf[..1] == PNG_SIGNATURE[..1];
      MatchesFromIsPng(buf, 1);
    }
    SignatureByte(buf, 0);
  }

  /** `OpenFile` as written, once the file is in `buf`: a `BM` start is EBMP when
      the text after the last dot equals ".ebmp" and BMP otherwise; the PNG
      signature is PNG; anything else is refused. */
  function ClassifyAsWritten(filename: string, buf: seq<Byte>): (r: Result<FileType, TestError>)
    requires SignatureReadable(buf)
    ensures r.Err? <==> !Bmp.IsBm(buf) && !IsPng(buf)
    ensures r.Err? ==> r.error == UnknownType
    ensures r == Ok(EbmpFile) ==> Bmp.IsBm(buf)
  {
    SignatureTest(buf);
    if buf[0] == 'B' as int && buf[1] == 'M' as int then
      if AfterLastDot(filename) == ".ebmp" then Ok(EbmpFile) else Ok(BmpFile)
    else if buf[0] == 0x89 && MatchesFrom(buf, 1) then Ok(PngFile)
    else Err(UnknownType)
  }

  /** The comparison with ".ebmp" never holds: the text after the last dot
      holds no dot, so the EBMP type is never detected. */
  lemma EbmpNeverDetected(filename: string, buf: seq<Byte>)
    requires SignatureReadable(buf)
    ensures ClassifyAsWritten(filename, buf) != Ok(EbmpFile)
  {
    assert '.' in ".ebmp";
  }

  /** `OpenFile` with the extension compared as "ebmp", the comparison the
      constant names; the rest of the model uses this classification. */
  function Classify(filename: string, buf: seq<Byte>): (r: Result<FileType, TestError>)
    requires SignatureReadable(buf)
    ensures r.Err? <==> !Bmp.IsBm(buf) && !IsPng(buf)
    ensures r.Err? ==> r.error == UnknownType
    ensures r == Ok(EbmpFile) <==> Bmp.IsBm(buf) && AfterLastDot(filename) == "ebmp"
    ensures r == Ok(PngFile) <==> IsPng(buf)
  {
    SignatureTest(buf);
    if buf[0] == 'B' as int && buf[1] == 'M' as int then
      if AfterLastDot(filename) == "ebmp" then Ok(EbmpFile) else Ok(BmpFile)
    else if buf[0] == 0x89 && MatchesFrom(buf, 1) then Ok(PngFile)
    else Err(UnknownType)
  }

  /** A `BM` file named `stem.ebmp` is detected as EBMP by the corrected test. */
  lemma EbmpDetected(stem: string, buf: seq<Byte>)
    requires SignatureReadable(buf) && Bmp.IsBm(buf)
    ensures Classify(stem + ".ebmp", buf) == Ok(EbmpFile)
  {
    assert stem + ".ebmp" == stem + "." + "ebmp";
    AfterLastDotExt(stem, "ebmp");
  }

  /** Both readings agree on every file except a `BM` file with the extension
      "ebmp". */
  lemma ClassifyAgrees(filename: string, buf: seq<Byte>)
    requires SignatureReadable(buf)
    ensures ClassifyAsWritten(filename, buf) == Classify(filename, buf)
            || (Classify(filename, buf) == Ok(EbmpFile) && ClassifyAsWritten(filename, buf) == Ok(BmpFile))
  {
    assert '.' in ".ebmp";
  }

  // ---------------------------------------------------------------------------
  // The video a file loads as

  /** `vi.pixel_type` for a PNG: BGR24 when "RGB24" is asked for, BGR32 otherwise. */
  function PngPixelType(pixelType: string): (pt: Bmp.PixelType)
    ensures pt == Bmp.BGR24 <==> pixelType == "RGB24"
    ensures pt == Bmp.BGR24 || pt == Bmp.BGR32
  {
    if pixelType == "RGB24" then Bmp.BGR24 else Bmp.BGR32
  }

  /** `vi.BytesFromPixels(1)` for the two PNG pixel types. */
  function PngBytesPerPixel(pt: Bmp.PixelType): (n: nat)
    ensures n == Bmp.BitCount(pt) / 8
  {
    match pt
    case BGR32 => 4
    case BGR24 => 3
    case YUY2 => 2
    case YV12 => 1
  }

  /** What the decoder reports: the image size, or its error code. */
  datatype PngImage = PngImage(width: nat, height: nat)

  /** The constructor's outcome, given the file, the requested pixel type and
      what the decoder makes of a PNG file (the decoder is not part of this
      model): a PNG takes the decoder's size and the requested type, a BMP or
      EBMP is loaded by the BMP header checks; every clip is 240 frames at 24
      frames per second. */
  function Load(filename: string, raw: seq<Byte>, pixelType: string, decoded: Result<PngImage, nat>): (r: Result<Bmp.VideoInfo, TestError>)
    requires SignatureReadable(raw) && (Bmp.IsBm(raw) ==> |raw| >= Bmp.HEADER_SIZE)
    ensures !Bmp.IsBm(raw) && !IsPng(raw) ==> r == Err(UnknownType)
    ensures IsPng(raw) ==> match decoded
                           case Err(code) => r == Err(PngDecodeFailed(code))
                           case Ok(img) => r == Ok(Bmp.VideoInfo(img.width, img.height, PngPixelType(pixelType), 240, 24, 1))
    ensures Bmp.IsBm(raw) ==> match Bmp.LoadHeader(raw)
                              case Err(e) => r == Err(BmpRefused(e))
                              case Ok(src) => r == Ok(src.vi)
  {
    var ty := Classify(filename, raw);
    if ty.Err? then Err(ty.error)
    else if ty.value == PngFile then
      match decoded
      case Err(code) => Err(PngDecodeFailed(code))
      case Ok(img) => Ok(Bmp.VideoInfo(img.width, img.height, PngPixelType(pixelType), 240, 24, 1))
    else
      match Bmp.LoadHeader(raw)
      case Err(e) => Err(BmpRefused(e))
      case Ok(src) => Ok(src.vi)
  }

  // ---------------------------------------------------------------------------
  // The PNG rows

  /** Where byte `k` of a BGR(A) frame pixel comes from in the decoder's RGB(A)
      pixel: red and blue trade places, green and alpha stay. */
  function SwapByte(k: nat): (k': nat)
    ensures k <= 3 ==> k' <= 3 && (k' == 1 <==> k == 1) && (k' == 3 <==> k == 3)
  {
    if k == 0 then 2 else if k == 2 then 0 else k
  }

  /** Swapping twice gives the byte back. */
  lemma SwapByteInvolution(k: nat)
    ensures SwapByte(SwapByte(k)) == k
  {
  }

  /** Byte column of the decoder row that frame byte column `c` is taken from,
      for pixels of `bpp` bytes: the column of the swapped byte in the same
      pixel. */
  function SwapColumn(c: nat, bpp: nat): nat
    requires bpp == 3 || bpp == 4
  {
    if c < bpp then SwapByte(c) else SwapColumn(c - bpp, bpp) + bpp
  }

  /** Byte `k` of pixel `u` of a row comes from byte `SwapByte(k)` of the same pixel. */
  lemma {:induction false} SwapColumnAt(bpp: nat, u: nat, k: nat)
    requires (bpp == 3 || bpp == 4) && k < bpp
    ensures SwapColumn(Times(bpp, u) + k, bpp) == Times(bpp, u) + SwapByte(k)
  {
    if u > 0 {
      SwapColumnAt(bpp, u - 1, k);
    }
  }

  /** Swapping twice brings every column back. */
  lemma {:induction false} SwapColumnInvolution(c: nat, bpp: nat)
    requires bpp == 3 || bpp == 4
    ensures SwapColumn(SwapColumn(c, bpp), bpp) == c
  {
    if c >= bpp {
      SwapColumnInvolution(c - bpp, bpp);
    }
  }

  /** A row of `width` pixels of `bpp` bytes holds each swapped column. */
  lemma {:induction false} SwapColumnFits(c: nat, bpp: nat, width: nat)
    requires (bpp == 3 || bpp == 4) && c < Times(bpp, width)
    ensures SwapColumn(c, bpp) < Times(bpp, width)
  {
    if c >= bpp {
      SwapColumnFits(c - bpp, bpp, width - 1);
    }
  }

  /** The decoder's rows: `height` rows of `width` pixels of `bpp` bytes, top
      row first, with no padding. */
  predicate DecodedRows(buf: seq<Byte>, bpp: nat, width: nat, height: nat) {
    (bpp == 3 || bpp == 4) && Times(Times(bpp, width), height) <= |buf|
  }

  /** The byte the conversion puts at (`r`, `c`) of a `height`-row frame: row
      `height - 1 - r` of the decoder's rows (the frame is stored bottom-up),
      with red and blue swapped; 0 outside the frame. */
  function PngByte(buf: seq<Byte>, bpp: nat, width: nat, height: nat, r: nat, c: nat): Byte
    requires bpp == 3 || bpp == 4
  {
    var rowSize := Times(bpp, width);
    if r < height && c < rowSize && Idx(rowSize, height - 1 - r, SwapColumn(c, bpp)) < |buf| then
      buf[Idx(rowSize, height - 1 - r, SwapColumn(c, bpp))]
    else 0
  }

  /** `PngByte` as the wanted contents of a frame. */
  function PngWant(buf: seq<Byte>, bpp: nat, width: nat, height: nat): (nat, nat) -> Byte
    requires bpp == 3 || bpp == 4
  {
    (r: nat, c: nat) => PngByte(buf, bpp, width, height, r, c)
  }

  /** Every frame byte the conversion writes is read inside the decoder's rows. */
  lemma PngByteInside(buf: seq<Byte>, bpp: nat, width: nat, height: nat, r: nat, c: nat)
    requires DecodedRows(buf, bpp, width, height) && r < height && c < Times(bpp, width)
    ensures Idx(Times(bpp, width), height - 1 - r, SwapColumn(c, bpp)) < |buf|
  {
    SwapColumnFits(c, bpp, width);
    Bmp.TightRows(Times(bpp, width), height);
    RowFits(Times(bpp, width), height - 1 - r, height, Times(bpp, width), SwapColumn(c, bpp), |buf|);
  }

  /** Byte `k` of pixel `u` of row `i`, which starts at byte `j` of the row,
      comes from byte `SwapByte(k)` of the same pixel of the mirrored decoder row. */
  lemma PngPixelByte(buf: seq<Byte>, bpp: nat, width: nat, height: nat, rowSize: nat, want: (nat, nat) -> Byte,
                     i: nat, u: nat, j: nat, k: nat, ofsBuf: nat)
    requires DecodedRows(buf, bpp, width, height) && want == PngWant(buf, bpp, width, height)
    requires rowSize == Times(bpp, width) && i < height && u < width && j == Times(bpp, u) && k < bpp
    requires ofsBuf == Idx(rowSize, height - 1 - i, 0)
    ensures j + k < rowSize && ofsBuf + j + SwapByte(k) < |buf| && want(i, j + k) == buf[ofsBuf + j + SwapByte(k)]
  {
    BlockIn(u, width, bpp, k);
    SwapColumnAt(bpp, u, k);
    PngWantAt(buf, bpp, width, height, rowSize, i, j + k, j + SwapByte(k), ofsBuf);
  }

  /** The wanted bytes of pixel `u` of row `i`: its bytes in the mirrored
      decoder row with the first and third swapped. */
  lemma PngPixelWant(buf: seq<Byte>, bpp: nat, width: nat, height: nat, rowSize: nat, want: (nat, nat) -> Byte,
                     i: nat, u: nat, j: nat, ofsBuf: nat)
    requires DecodedRows(buf, bpp, width, height) && want == PngWant(buf, bpp, width, height)
    requires rowSize == Times(bpp, width) && i < height && u < width && j == Times(bpp, u)
    requires ofsBuf == Idx(rowSize, height - 1 - i, 0)
    ensures j + bpp <= rowSize && ofsBuf + j + bpp <= |buf|
    ensures want(i, j) == buf[ofsBuf + j + 2] && want(i, j + 1) == buf[ofsBuf + j + 1] &&
            want(i, j + 2) == buf[ofsBuf + j + 0]
    ensures bpp == 4 ==> want(i, j + 3) == buf[ofsBuf + j + 3]
  {
    PngPixelByte(buf, bpp, width, height, rowSize, want, i, u, j, 0, ofsBuf);
    PngPixelByte(buf, bpp, width, height, rowSize, want, i, u, j, 1, ofsBuf);
    PngPixelByte(buf, bpp, width, height, rowSize, want, i, u, j, 2, ofsBuf);
    PngPixelByte(buf, bpp, width, height, rowSize, want, i, u, j, bpp - 1, ofsBuf);
  }

  /** Storing the wanted byte of column `c` of row `i` at offset `d` extends the
      written region of that row by one column. */
  lemma PngStep(s: seq<Byte>, orig: seq<Byte>, PITCH: nat, height: nat, rowSize: nat, want: (nat, nat) -> Byte,
                i: nat, c: nat, d: nat, v: Byte)
    requires Bmp.Fits(|s|, PITCH, height, rowSize) && i < height && c < rowSize
    requires d == Idx(PITCH, i, 0) + c && v == want(i, c)
    requires Filled(s, orig, PITCH, Bmp.Copied(rowSize, i, c), want)
    ensures d < |s| && Filled(s[d := v], orig, PITCH, Bmp.Copied(rowSize, i, c + 1), want)
  {
    FillAtRun(s, orig, PITCH, height, rowSize, Bmp.Copied(rowSize, i, c), Bmp.Copied(rowSize, i, c + 1),
              want, i, 0, c, d, v);
  }

  /** The wanted byte at column `c` of row `i`, whose swapped column is `c'`,
      is byte `c'` of decoder row `height - 1 - i`. */
  lemma PngWantAt(buf: seq<Byte>, bpp: nat, width: nat, height: nat, rowSize: nat,
                  i: nat, c: nat, c': nat, ofsBuf: nat)
    requires DecodedRows(buf, bpp, width, height) && rowSize == Times(bpp, width)
    requires i < height && c < rowSize && SwapColumn(c, bpp) == c'
    requires ofsBuf == Idx(rowSize, height - 1 - i, 0)
    ensures ofsBuf + c' < |buf| && PngByte(buf, bpp, width, height, i, c) == buf[ofsBuf + c']
  {
    PngByteInside(buf, bpp, width, height, i, c);
    IdxRow(rowSize, height - 1 - i, c');
  }

  /** The three or four stores the conversion makes for one pixel, in the
      source's order, into `s` at `d` from the decoder bytes at `o`. */
  function PixelWrites(s: seq<Byte>, buf: seq<Byte>, bpp: nat, d: nat, o: nat): (t: seq<Byte>)
    requires d + bpp <= |s| && o + bpp <= |buf| && (bpp == 3 || bpp == 4)
    ensures |t| == |s|
  {
    var t := s[d := buf[o + 2]][d + 1 := buf[o + 1]][d + 2 := buf[o + 0]];
    if bpp == 4 then t[d + 3 := buf[o + 3]] else t
  }

  /** The stores for pixel `u`, starting at byte `j` of row `i`, extend the
      written region by that whole pixel. */
  lemma PngPixelFill(buf: seq<Byte>, s: seq<Byte>, orig: seq<Byte>, PITCH: nat, bpp: nat, width: nat, height: nat,
                  rowSize: nat, want: (nat, nat) -> Byte, i: nat, u: nat, j: nat, ofsFrm: nat, ofsBuf: nat)
    requires DecodedRows(buf, bpp, width, height) && want == PngWant(buf, bpp, width, height)
    requires rowSize == Times(bpp, width) && Bmp.Fits(|s|, PITCH, height, rowSize)
    requires i < height && u < width && j == Times(bpp, u)
    requires ofsFrm == Idx(PITCH, i, 0) && ofsBuf == Idx(rowSize, height - 1 - i, 0)
    requires Filled(s, orig, PITCH, Bmp.Copied(rowSize, i, j), want)
    ensures ofsFrm + j + bpp <= |s| && ofsBuf + j + bpp <= |buf|
    ensures Filled(PixelWrites(s, buf, bpp, ofsFrm + j, ofsBuf + j), orig, PITCH, Bmp.Copied(rowSize, i, j + bpp), want)
  {
    PngPixelWant(buf, bpp, width, height, rowSize, want, i, u, j, ofsBuf);
    var d, o := ofsFrm + j, ofsBuf + j;
    PngFirstThree(buf, s, orig, PITCH, height, rowSize, want, i, j, ofsFrm, ofsBuf);
    if bpp == 4 {
      var s3 := s[d := buf[o + 2]][d + 1 := buf[o + 1]][d + 2 := buf[o + 0]];
      PngStep(s3, orig, PITCH, height, rowSize, want, i, j + 3, d + 3, buf[o + 3]);
    }
  }

  /** The first three stores for a pixel starting at byte `j` of row `i`,
      common to both pixel sizes, fill its first three bytes. */
  lemma PngFirstThree(buf: seq<Byte>, s: seq<Byte>, orig: seq<Byte>, PITCH: nat, height: nat, rowSize: nat,
                      want: (nat, nat) -> Byte, i: nat, j: nat, ofsFrm: nat, ofsBuf: nat)
    requires Bmp.Fits(|s|, PITCH, height, rowSize) && i < height && j + 3 <= rowSize && ofsBuf + j + 3 <= |buf|
    requires ofsFrm == Idx(PITCH, i, 0)
    requires want(i, j) == buf[ofsBuf + j + 2] && want(i, j + 1) == buf[ofsBuf + j + 1] &&
             want(i, j + 2) == buf[ofsBuf + j + 0]
    requires Filled(s, orig, PITCH, Bmp.Copied(rowSize, i, j), want)
    ensures ofsFrm + j + 2 < |s|
    ensures Filled(s[ofsFrm + j := buf[ofsBuf + j + 2]][ofsFrm + j + 1 := buf[ofsBuf + j + 1]][ofsFrm + j + 2 := buf[ofsBuf + j + 0]],
                   orig, PITCH, Bmp.Copied(rowSize, i, j + 3), want)
  {
    var d, o := ofsFrm + j, ofsBuf + j;
    PngStep(s, orig, PITCH, height, rowSize, want, i, j, d, buf[o + 2]);
    var s1 := s[d := buf[o + 2]];
    PngStep(s1, orig, PITCH, height, rowSize, want, i, j + 1, d + 1, buf[o + 1]);
    var s2 := s1[d + 1 := buf[o + 1]];
    PngStep(s2, orig, PITCH, height, rowSize, want, i, j + 2, d + 2, buf[o + 0]);
  }

  /** The conversion loop of `DecodePng`: frame row `i` is decoder row
      `HEIGHT - 1 - i`, and each pixel's first and third bytes trade places;
      the fourth byte is copied only for BGR32 (`bpp == 4`).  `PITCH_BUF` and
      `ROW_SIZE` are both the row length `bpp * width`. */
  method ConvertPng(buf: seq<Byte>, dst: array<Byte>, bpp: nat, width: nat, PITCH: nat, HEIGHT: nat,
                    ROW_SIZE: nat, PITCH_BUF: nat)
    requires DecodedRows(buf, bpp, width, HEIGHT) && ROW_SIZE == Times(bpp, width) && PITCH_BUF == ROW_SIZE
    requires Bmp.Fits(dst.Length, PITCH, HEIGHT, ROW_SIZE)
    modifies dst
    ensures Filled(dst[..], old(dst[..]), PITCH, Bmp.Copied(ROW_SIZE, HEIGHT, 0), PngWant(buf, bpp, width, HEIGHT))
  {
    ghost var want := PngWant(buf, bpp, width, HEIGHT);
    FillStart(dst[..], PITCH, Bmp.Copied(ROW_SIZE, 0, 0), want);
    for i := 0 to HEIGHT
      invariant Filled(dst[..], old(dst[..]), PITCH, Bmp.Copied(ROW_SIZE, i, 0), want)
    {
      var ofsFrm := Idx(PITCH, i, 0);
      var ofsBuf := Idx(PITCH_BUF, HEIGHT - 1 - i, 0);
      var j := 0;
      ghost var u := 0;
      while j < ROW_SIZE
        invariant u <= width && j == Times(bpp, u)
        invariant Filled(dst[..], old(dst[..]), PITCH, Bmp.Copied(ROW_SIZE, i, j), want)
        decreases width - u
      {
        ghost var before := dst[..];
        PngPixelFill(buf, before, old(dst[..]), PITCH, bpp, width, HEIGHT, ROW_SIZE, want, i, u, j, ofsFrm, ofsBuf);
        dst[ofsFrm + j + 0] := buf[ofsBuf + j + 2];
        dst[ofsFrm + j + 1] := buf[ofsBuf + j + 1];
        dst[ofsFrm + j + 2] := buf[ofsBuf + j + 0];
        if bpp == 4 {
          dst[ofsFrm + j + 3] := buf[ofsBuf + j + 3];
        }
        assert dst[..] == PixelWrites(before, buf, bpp, ofsFrm + j, ofsBuf + j);
        FilledCopy(PixelWrites(before, buf, bpp, ofsFrm + j, ofsBuf + j), dst[..], old(dst[..]), PITCH,
                   Bmp.Copied(ROW_SIZE, i, j + bpp), want);
        assert Times(bpp, u + 1) == j + bpp;
        j, u := j + bpp, u + 1;
      }
      if u < width {
        BlockIn(u, width, bpp, 0);
      }
      FillSame(dst[..], old(dst[..]), PITCH, Bmp.Copied(ROW_SIZE, i, j), Bmp.Copied(ROW_SIZE, i + 1, 0), want);
    }
  }

  /** What a finished conversion means byte by byte: byte `k` of pixel `u` of
      frame row `i` is byte `SwapByte(k)` of pixel `u` of decoder row
      `height - 1 - i`. */
  lemma PngBytes(buf: seq<Byte>, s: seq<Byte>, orig: seq<Byte>, PITCH: nat, bpp: nat, width: nat, height: nat,
                 i: nat, u: nat, k: nat)
    requires DecodedRows(buf, bpp, width, height) && Bmp.Fits(|s|, PITCH, height, Times(bpp, width))
    requires Filled(s, orig, PITCH, Bmp.Copied(Times(bpp, width), height, 0), PngWant(buf, bpp, width, height))
    requires i < height && u < width && k < bpp
    ensures Idx(PITCH, i, Times(bpp, u) + k) < |s|
    ensures Idx(Times(bpp, width), height - 1 - i, Times(bpp, u) + SwapByte(k)) < |buf|
    ensures s[Idx(PITCH, i, Times(bpp, u) + k)] == buf[Idx(Times(bpp, width), height - 1 - i, Times(bpp, u) + SwapByte(k))]
  {
    var rowSize, j := Times(bpp, width), Times(bpp, u);
    BlockIn(u, width, bpp, k);
    SwapColumnAt(bpp, u, k);
    RowFits(PITCH, i, height, rowSize, j + k, |s|);
    PngByteInside(buf, bpp, width, height, i, j + k);
  }

  // ---------------------------------------------------------------------------
  // Cache hints

  /** The cache queries the source answers, and any other query. `OtherQuery(code)`
      stands only for a code that is none of the four known queries: the host
      hands the source a single integer, and the four known codes are decoded to
      their own constructors before `SetCacheHints` sees them. */
  datatype CacheQuery = GetChildAccessCost | GetChildCost | GetChildThreadMode | GetMtMode | OtherQuery(code: int)

  /** The answers: random access, low cost, thread safe, a "nice" MT filter, or 0. */
  datatype CacheHint = AccessRand | CostLow | ThreadSafe | NiceFilter | NoHint

  /** `SetCacheHints`: each known query has its own fixed answer, every other
      query gets 0. */
  function SetCacheHints(query: CacheQuery): (hint: CacheHint)
    ensures hint == NoHint <==> query.OtherQuery?
  {
    match query
    case GetChildAccessCost => AccessRand
    case GetChildCost => CostLow
    case GetChildThreadMode => ThreadSafe
    case GetMtMode => NiceFilter
    case OtherQuery(_) => NoHint
  }

  /** Different known queries get different answers. */
  lemma CacheHintsDistinct(q: CacheQuery, q': CacheQuery)
    requires !q.OtherQuery? && !q'.OtherQuery? && q != q'
    ensures SetCacheHints(q) != SetCacheHints(q')
  {
  }
}
