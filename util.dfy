/** The string helpers of the test suite: the first line of an error message,
    the bytes of a frame that are hashed, and the lower-case hex form of the
    16-byte digest. */
module TestUtil {
  import opened Raster

  // ---------------------------------------------------------------------------
  // SplitError

  /** `err.find('\n')`, with `|s|` standing for `npos`: the index of the first
      newline, or the length when there is none. */
  function FirstNewline(s: string): (n: nat)
    ensures n <= |s| && '\n' !in s[..n] && (n < |s| ==> s[n] == '\n')
  {
    if |s| == 0 || s[0] == '\n' then 0
    else
      var n := FirstNewline(s[1..]) + 1;
      assert s[..n] == [s[0]] + s[1..][..n - 1];
      n
  }

  /** The first line of an error message: everything before the first newline,
      or the whole message when it has none. */
  function SplitError(err: string): (line: string)
    ensures |line| <= |err| && line == err[..|line|]
    ensures '\n' !in line
    ensures |line| < |err| ==> err[|line|] == '\n'
    ensures '\n' !in err ==> line == err
  {
    err[..FirstNewline(err)]
  }

  /** The first newline is found wherever the text before it has none. */
  lemma {:induction false} FirstNewlineAt(s: string, n: nat)
    requires n < |s| && s[n] == '\n' && '\n' !in s[..n]
    ensures FirstNewline(s) == n
  {
    if n > 0 {
      assert s[0] == s[..n][0];
      assert s[1..][..n - 1] == s[..n][1..];
      FirstNewlineAt(s[1..], n - 1);
    }
  }

  /** A first line followed by a newline and anything at all splits back to
      that line. */
  lemma SplitErrorLine(line: string, rest: string)
    requires '\n' !in line
    ensures SplitError(line + "\n" + rest) == line
  {
    var err := line + "\n" + rest;
    assert err[..|line|] == line;
    FirstNewlineAt(err, |line|);
  }

  /** Splitting a first line again changes nothing. */
  lemma SplitErrorIdempotent(err: string)
    ensures SplitError(SplitError(err)) == SplitError(err)
  {
  }

  // ---------------------------------------------------------------------------
  // The hex form of the digest

  const HEX_DIGITS: string := "0123456789abcdef"

  /** The hex digit of a nibble. */
  function HexDigit(n: nat): (c: char)
    requires n < 16
    ensures c in HEX_DIGITS
  {
    HEX_DIGITS[n]
  }

  /** The value of a lower-case hex digit; anything else reads as 0. */
  function DigitValue(c: char): (n: nat)
    ensures n < 16
  {
    if '0' <= c <= '9' then c as int - '0' as int
    else if 'a' <= c <= 'f' then c as int - 'a' as int + 10
    else 0
  }

  /** The two digits of a byte, high nibble (`b >> 4`) first, then low nibble (`b & 15`). */
  function HexByte(b: Byte): (h: string)
    ensures |h| == 2
  {
    [HexDigit(b / 16), HexDigit(b % 16)]
  }

  /** The hex form of a byte sequence, two digits per byte, in order. */
  function Hex(d: seq<Byte>): (h: string)
    ensures |h| == 2 * |d|
  {
    if |d| == 0 then [] else Hex(d[..|d| - 1]) + HexByte(d[|d| - 1])
  }

  /** Every character of the hex form is a lower-case hex digit. */
  lemma {:induction false} HexLowerCase(d: seq<Byte>)
    ensures forall i :: 0 <= i < |Hex(d)| ==> Hex(d)[i] in HEX_DIGITS
  {
    if |d| > 0 {
      HexLowerCase(d[..|d| - 1]);
    }
  }

  /** Byte `k` of the digest becomes digits `2k` (its high nibble) and `2k + 1`
      (its low nibble). */
  lemma {:induction false} HexDigits(d: seq<Byte>, k: nat)
    requires k < |d|
    ensures Hex(d)[2 * k] == HEX_DIGITS[d[k] / 16] && Hex(d)[2 * k + 1] == HEX_DIGITS[d[k] % 16]
  {
    if k < |d| - 1 {
      HexDigits(d[..|d| - 1], k);
    }
  }

  /** Reading hex digits back, two per byte. */
  function Unhex(h: string): (d: seq<Byte>)
    requires |h| % 2 == 0
    ensures |d| == |h| / 2
  {
    if |h| == 0 then []
    else Unhex(h[..|h| - 2]) + [PairValue(h[|h| - 2], h[|h| - 1])]
  }

  /** The byte two hex digits spell, the high nibble first. */
  function PairValue(hi: char, lo: char): Byte
  {
    DigitValue(hi) * 16 + DigitValue(lo)
  }

  /** The hex form reads back as the digest: no two digests share a hash string. */
  lemma {:induction false} HexRoundTrip(d: seq<Byte>)
    ensures Unhex(Hex(d)) == d
  {
    if |d| > 0 {
      var d', b := d[..|d| - 1], d[|d| - 1];
      assert d == d' + [b];
      var h := Hex(d);
      var hb := HexByte(b);
      assert h == Hex(d') + hb;
      assert h[..|h| - 2] == Hex(d');
      assert h[|h| - 2] == hb[0] && h[|h| - 1] == hb[1];
      HexRoundTrip(d');
      ByteOfDigits(b);
    }
  }

  /** The digits of a byte read back as that byte. */
  lemma ByteOfDigits(b: Byte)
    ensures PairValue(HexByte(b)[0], HexByte(b)[1]) == b
  {
    DigitOf(b / 16);
    DigitOf(b % 16);
  }

  /** The value of the digit of a nibble is that nibble. */
  lemma DigitOf(n: nat)
    requires n < 16
    ensures DigitValue(HexDigit(n)) == n
  {
  }

  /** The hex loop of `GetFrameHash`: two digits pushed per digest byte. */
  method HexDigest(digest: seq<Byte>) returns (hash: string)
    requires |digest| == 16
    ensures |hash| == 32 && hash == Hex(digest)
  {
    hash := [];
    for i := 0 to 16
      invariant hash == Hex(digest[..i])
    {
      var lut := HEX_DIGITS;
      assert digest[..i + 1][..i] == digest[..i];
      hash := hash + [lut[digest[i] / 16]];
      hash := hash + [lut[digest[i] % 16]];
    }
    assert digest[..16] == digest;
  }

  // ---------------------------------------------------------------------------
  // The bytes hashed

  /** Row `i` of a plane: its `rowSize` bytes from `pitch * i`. */
  function RowBytes(p: Plane, i: nat): (row: seq<Byte>)
    requires p.Valid() && i < p.height
    ensures |row| == p.rowSize
  {
    RowEnd(p, i);
    p.data[Idx(p.pitch, i, 0)..Idx(p.pitch, i, 0) + p.rowSize]
  }

  /** Every row ends inside the plane's buffer. */
  lemma RowEnd(p: Plane, i: nat)
    requires p.Valid() && i < p.height
    ensures Idx(p.pitch, i, 0) + p.rowSize <= |p.data|
  {
    IdxRow(p.pitch, i, p.rowSize);
    IdxIs(p.pitch, i, p.rowSize);
    IdxIs(p.pitch, p.height - 1, p.rowSize);
    MulMono(p.pitch, i, p.height - 1);
  }

  /** Rows `0 .. n - 1` of a plane, one after the other. */
  function PlaneBytes(p: Plane, n: nat): (s: seq<Byte>)
    requires p.Valid() && n <= p.height
    ensures |s| == Times(p.rowSize, n)
  {
    if n == 0 then [] else PlaneBytes(p, n - 1) + RowBytes(p, n - 1)
  }

  /** The planes' rows, plane after plane: what is fed to the hash. */
  function FrameBytes(planes: seq<Plane>): seq<Byte>
    requires forall k :: 0 <= k < |planes| ==> planes[k].Valid()
  {
    if |planes| == 0 then []
    else FrameBytes(planes[..|planes| - 1]) + PlaneBytes(planes[|planes| - 1], planes[|planes| - 1].height)
  }

  /** Byte `j` of row `i` of a plane is byte `Times(rowSize, i) + j` of its
      hashed bytes: rows in order, each without its padding. */
  lemma {:induction false} PlaneBytesAt(p: Plane, n: nat, i: nat, j: nat)
    requires p.Valid() && n <= p.height && i < n && j < p.rowSize
    ensures Times(p.rowSize, i) + j < Times(p.rowSize, n)
    ensures PlaneBytes(p, n)[Times(p.rowSize, i) + j] == p.At(i, j)
  {
    BlockIn(i, n, p.rowSize, j);
    if i < n - 1 {
      PlaneBytesAt(p, n - 1, i, j);
    } else {
      IdxRow(p.pitch, i, j);
      RowEnd(p, i);
      assert PlaneBytes(p, n) == PlaneBytes(p, i) + RowBytes(p, i);
      assert RowBytes(p, i)[j] == p.data[Idx(p.pitch, i, 0) + j];
      assert PlaneBytes(p, n)[Times(p.rowSize, i) + j] == RowBytes(p, i)[j];
    }
  }

  /** The number of bytes hashed: each plane contributes `rowSize * height`. */
  function TotalBytes(planes: seq<Plane>): nat
  {
    if |planes| == 0 then 0
    else TotalBytes(planes[..|planes| - 1]) + Times(planes[|planes| - 1].rowSize, planes[|planes| - 1].height)
  }

  lemma {:induction false} FrameBytesLength(planes: seq<Plane>)
    requires forall k :: 0 <= k < |planes| ==> planes[k].Valid()
    ensures |FrameBytes(planes)| == TotalBytes(planes)
  {
    if |planes| > 0 {
      FrameBytesLength(planes[..|planes| - 1]);
    }
  }

  /** The hashing loops of `GetFrameHash`: for each plane in order, each row in
      order, the row's `rowSize` bytes are appended to what the digest sees. */
  method HashInput(planes: seq<Plane>) returns (stream: seq<Byte>)
    requires forall k :: 0 <= k < |planes| ==> planes[k].Valid()
    ensures stream == FrameBytes(planes)
  {
    stream := [];
    for k := 0 to |planes|
      invariant stream == FrameBytes(planes[..k])
    {
      var p := planes[k];
      ghost var before := stream;
      for i := 0 to p.height
        invariant stream == before + PlaneBytes(p, i)
      {
        RowEnd(p, i);
        stream := stream + p.data[Idx(p.pitch, i, 0)..Idx(p.pitch, i, 0) + p.rowSize];
      }
      assert planes[..k + 1][..k] == planes[..k];
    }
    assert planes[..|planes|] == planes;
  }
}
