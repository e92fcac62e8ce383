/** Byte buffers addressed through a pitch (stride), shared by every filter and source. */
module Raster {

  /** A value that may be absent (a null plane pointer, for one). */
  datatype Option<T> = None | Some(value: T)

  /** The outcome of an operation that may stop with an error (`env->ThrowError`). */
  datatype Result<T, E> = Ok(value: T) | Err(error: E)

  /** An 8-bit unsigned sample, the element type of every frame buffer. */
  type Byte = b: int | 0 <= b < 256

  /** One plane of a frame as the host hands it over: `height` rows of `rowSize`
      meaningful bytes, row `r` starting at byte `pitch * r` of `data`. */
  datatype Plane = Plane(data: seq<Byte>, pitch: nat, rowSize: nat, height: nat)
  {
    /** The rows fit in the buffer and do not overlap. */
    predicate Valid() {
      rowSize <= pitch && (height == 0 || Idx(pitch, height - 1, rowSize) <= |data|)
    }

    /** The byte in column `c` of row `r`. */
    function At(r: nat, c: nat): (b: Byte)
      requires Valid() && r < height && c < rowSize
      ensures Idx(pitch, r, c) < |data| && b == data[Idx(pitch, r, c)]
    {
      RowFits(pitch, r, height, rowSize, c, |data|);
      data[Idx(pitch, r, c)]
    }

    /** The byte in column `c` of row `r`, or 0 outside the plane. */
    function Get(r: nat, c: nat): (b: Byte)
      ensures Valid() && r < height && c < rowSize ==> b == At(r, c)
    {
      if Valid() && r < height && c < rowSize then At(r, c) else 0
    }
  }

  /** A run of `n` bytes inside row `r` lies inside a buffer that holds `rows` rows. */
  lemma RunFits(pitch: nat, rows: nat, rowSize: nat, len: nat, r: nat, c: nat, n: nat)
    requires r < rows && 1 <= n && c + n <= rowSize <= pitch && Idx(pitch, rows - 1, rowSize) <= len
    ensures Idx(pitch, r, c) + n <= len
  {
    IdxShift(pitch, r, c, n - 1);
    RowFits(pitch, r, rows, rowSize, c + n - 1, len);
  }

  /** Sample (`c`, `r`) of a valid plane is the byte at its offset. */
  lemma PlaneAt(p: Plane, r: nat, c: nat, ofs: nat)
    requires p.Valid() && r < p.height && c < p.rowSize && ofs == Idx(p.pitch, r, c)
    ensures ofs < |p.data| && p.At(r, c) == p.data[ofs]
  {
    RowFits(p.pitch, r, p.height, p.rowSize, c, |p.data|);
  }

  /** Byte (`r`, `c`) of a buffer holding `rows` rows of `rowSize` bytes lies in the buffer. */
  lemma RowFits(pitch: nat, r: nat, rows: nat, rowSize: nat, c: nat, len: nat)
    requires r < rows && c < rowSize && Idx(pitch, rows - 1, rowSize) <= len
    ensures Idx(pitch, r, c) < len
  {
    IdxIs(pitch, r, c);
    IdxIs(pitch, rows - 1, rowSize);
    MulMono(pitch, r, rows - 1);
  }

  /** Concatenation is associative. */
  lemma AppendAssoc<T>(a: seq<T>, b: seq<T>, c: seq<T>)
    ensures a + (b + c) == a + b + c
  {
  }

  /** `a * b`, as `b` additions of `a`. Offsets and sizes are stated with it
      (and with `Idx` and `Quot`) so that reasoning about a whole frame stays
      linear; `TimesIs` gives the product. */
  function Times(a: nat, b: nat): nat
  {
    if b == 0 then 0 else Times(a, b - 1) + a
  }

  lemma {:induction false} TimesIs(a: nat, b: nat)
    ensures Times(a, b) == a * b
  {
    if b > 0 {
      TimesIs(a, b - 1);
      MulStep(b, a);
    }
  }

  /** `a / k`, as the number of whole blocks of `k` taken off `a`; `QuotIs`
      gives the quotient. */
  function Quot(a: nat, k: nat): nat
    requires k >= 1
  {
    if a < k then 0 else Quot(a - k, k) + 1
  }

  lemma {:induction false} QuotIs(a: nat, k: nat)
    requires k >= 1
    ensures Quot(a, k) == a / k
  {
    if a >= k {
      QuotIs(a - k, k);
      DivMod(k, (a - k) / k + 1, (a - k) % k);
      Decompose(a - k, k);
    } else {
      DivMod(k, 0, a);
    }
  }

  /** Sample `i` of block `n` of `k` samples is in block `n`. */
  lemma {:induction false} QuotBlock(n: nat, k: nat, i: nat)
    requires k >= 1 && i < k
    ensures Quot(Times(k, n) + i, k) == n
  {
    if n > 0 {
      QuotBlock(n - 1, k, i);
    }
  }

  /** Blocks before the last of a whole number of blocks end inside it. */
  lemma {:induction false} BlockIn(n: nat, q: nat, k: nat, i: nat)
    requires n < q && i < k
    ensures Times(k, n) + i < Times(k, q) && Times(k, n) + k <= Times(k, q)
  {
    if q - 1 > n {
      BlockIn(n, q - 1, k, i);
    }
  }

  /** Item `x` of `q` blocks of `k` items lies in block `Quot(x, k) < q`. */
  lemma {:induction false} QuotBelow(x: nat, q: nat, k: nat)
    requires k >= 1 && x < Times(k, q)
    ensures Quot(x, k) < q
  {
    if x >= k {
      QuotBelow(x - k, q - 1, k);
    }
  }

  /** One more row of `k` items is `k` more items. */
  lemma MulStep(n: nat, k: nat)
    requires n > 0
    ensures n * k == (n - 1) * k + k
  {
  }

  /** At least one whole block of `k` fits in `a >= k`. */
  lemma DivPos(a: nat, k: nat)
    requires 1 <= k <= a
    ensures a / k >= 1
  {
    Decompose(a, k);
    if a / k == 0 {
      assert false;
    }
  }

  lemma MulMono(a: nat, b: nat, c: nat)
    requires b <= c
    ensures a * b <= a * c
  {
  }

  /** Euclidean division recovers the row and column of an offset `p * q + r`. */
  lemma DivMod(p: int, q: int, r: int)
    requires p > 0 && 0 <= r < p
    ensures (p * q + r) / p == q && (p * q + r) % p == r
  {
    var x := p * q + r;
    var q', r' := x / p, x % p;
    assert x == p * q' + r' && 0 <= r' < p;
    if q' < q {
      MulMonoInt(p, q' + 1, q);
      assert false;
    } else if q' > q {
      MulMonoInt(p, q + 1, q');
      assert false;
    }
  }

  /** Offset of column `c` of row `r` in a buffer of pitch `pitch`: `r` whole
      rows, then `c` bytes.  Stated row by row so that the quantified fill
      predicates below stay linear; `IdxIs` gives the closed form. */
  function Idx(pitch: nat, r: nat, c: nat): nat
  {
    if r == 0 then c else Idx(pitch, r - 1, c) + pitch
  }

  /** The offset of (`r`, `c`) is `r` rows of `pitch` bytes, then `c` bytes. */
  lemma {:induction false} IdxTimes(pitch: nat, r: nat, c: nat)
    ensures Idx(pitch, r, c) == Times(pitch, r) + c
  {
    if r > 0 {
      IdxTimes(pitch, r - 1, c);
    }
  }

  /** The offset of (`r`, `c`) is `pitch * r + c`. */
  lemma IdxIs(pitch: nat, r: nat, c: nat)
    ensures Idx(pitch, r, c) == pitch * r + c
  {
    IdxTimes(pitch, r, c);
    TimesIs(pitch, r);
  }

  /** `n + i` blocks of `p` are `n` blocks followed by `i` blocks. */
  lemma {:induction false} TimesAdd(p: nat, n: nat, i: nat)
    ensures Times(p, n + i) == Times(p, n) + Times(p, i)
  {
    if i > 0 {
      TimesAdd(p, n, i - 1);
    }
  }

  /** `l` blocks of `h` rows of `p` bytes are `l * h` rows of `p` bytes. */
  lemma {:induction false} TimesAssoc(p: nat, h: nat, l: nat)
    ensures Times(Times(p, h), l) == Times(p, Times(l, h))
  {
    if l > 0 {
      TimesAssoc(p, h, l - 1);
      TimesAdd(p, Times(l - 1, h), h);
      TimesWider(l - 1, h);
    } else {
      TimesIs(0, h);
    }
  }

  /** `b` blocks one byte wider are `b` bytes longer. */
  lemma {:induction false} TimesWider(a: nat, b: nat)
    ensures Times(a + 1, b) == Times(a, b) + b
  {
    if b > 0 {
      TimesWider(a, b - 1);
    }
  }

  /** Moving `k` columns right moves the offset by `k`. */
  lemma IdxShift(pitch: nat, r: nat, c: nat, k: nat)
    ensures Idx(pitch, r, c + k) == Idx(pitch, r, c) + k
  {
    IdxTimes(pitch, r, c);
    IdxTimes(pitch, r, c + k);
  }

  /** Column `c` of row `r` is `c` bytes past the start of the row. */
  lemma IdxRow(pitch: nat, r: nat, c: nat)
    ensures Idx(pitch, r, c) == Idx(pitch, r, 0) + c
  {
    IdxShift(pitch, r, 0, c);
  }

  /** Distinct (row, column) pairs with columns below the pitch have distinct offsets. */
  lemma IdxInjective(pitch: nat, r: nat, c: nat, r': nat, c': nat)
    requires c < pitch && c' < pitch
    ensures Idx(pitch, r, c) == Idx(pitch, r', c') <==> r == r' && c == c'
  {
    IdxIs(pitch, r, c);
    IdxIs(pitch, r', c');
    DivMod(pitch, r, c);
    DivMod(pitch, r', c');
  }

  /** `s` is `orig` with the bytes of every (row, column) in `done` replaced by
      `want` of that position; `s` is read at pitch `pitch`. */
  ghost predicate Filled(s: seq<Byte>, orig: seq<Byte>, pitch: nat,
                         done: (nat, nat) -> bool, want: (nat, nat) -> Byte)
  {
    && |s| == |orig|
    && forall r: nat, c: nat {:trigger s[Idx(pitch, r, c)]} | c < pitch && Idx(pitch, r, c) < |s| ::
         s[Idx(pitch, r, c)] == if done(r, c) then want(r, c) else orig[Idx(pitch, r, c)]
  }

  /** A byte of a filled buffer that is done holds the wanted value. */
  lemma FilledAt(s: seq<Byte>, orig: seq<Byte>, pitch: nat, done: (nat, nat) -> bool, want: (nat, nat) -> Byte,
                 r: nat, c: nat)
    requires Filled(s, orig, pitch, done, want) && c < pitch && Idx(pitch, r, c) < |s| && done(r, c)
    ensures s[Idx(pitch, r, c)] == want(r, c)
  {
  }

  /** Being filled depends only on the bytes, not on where they are held. */
  lemma FilledCopy(s: seq<Byte>, s': seq<Byte>, orig: seq<Byte>, pitch: nat, done: (nat, nat) -> bool, want: (nat, nat) -> Byte)
    requires Filled(s, orig, pitch, done, want) && s' == s
    ensures Filled(s', orig, pitch, done, want)
  {
  }

  /** Nothing is filled in a buffer that has not been written. */
  lemma FillStart(s: seq<Byte>, pitch: nat, none: (nat, nat) -> bool, want: (nat, nat) -> Byte)
    requires forall r: nat, c: nat :: !none(r, c)
    ensures Filled(s, s, pitch, none, want)
  {
  }

  /** Writing the wanted byte at (`i`, `j`) adds that position to the filled region. */
  lemma FillStep(s: seq<Byte>, orig: seq<Byte>, pitch: nat, done: (nat, nat) -> bool,
                 done': (nat, nat) -> bool, want: (nat, nat) -> Byte, i: nat, j: nat)
    requires j < pitch && Idx(pitch, i, j) < |s| && Filled(s, orig, pitch, done, want)
    requires forall r: nat, c: nat :: done'(r, c) == (done(r, c) || (r == i && c == j))
    ensures Filled(s[Idx(pitch, i, j) := want(i, j)], orig, pitch, done', want)
  {
    var s' := s[Idx(pitch, i, j) := want(i, j)];
    forall r: nat, c: nat | c < pitch && Idx(pitch, r, c) < |s'|
      ensures s'[Idx(pitch, r, c)] == if done'(r, c) then want(r, c) else orig[Idx(pitch, r, c)]
    {
      IdxInjective(pitch, r, c, i, j);
    }
  }

  /** Storing `v`, the wanted byte of (`i`, `j`), at that position's offset
      `idx` in a buffer of `rows` rows of `cols` bytes adds the position to the
      filled region. */
  lemma FillAt(s: seq<Byte>, orig: seq<Byte>, pitch: nat, rows: nat, cols: nat, done: (nat, nat) -> bool,
               done': (nat, nat) -> bool, want: (nat, nat) -> Byte, i: nat, j: nat, idx: nat, v: Byte)
    requires i < rows && j < cols <= pitch && Idx(pitch, rows - 1, cols) <= |s|
    requires idx == Idx(pitch, i, j) && v == want(i, j)
    requires Filled(s, orig, pitch, done, want)
    requires forall r: nat, c: nat :: done'(r, c) == (done(r, c) || (r == i && c == j))
    ensures idx < |s| && Filled(s[idx := v], orig, pitch, done', want)
  {
    RowFits(pitch, i, rows, cols, j, |s|);
    FillStep(s, orig, pitch, done, done', want, i, j);
  }

  /** `FillAt` for the byte `k` columns right of column `j` of row `i`, at
      offset `idx` computed from the start of that run. */
  lemma FillAtRun(s: seq<Byte>, orig: seq<Byte>, pitch: nat, rows: nat, cols: nat, done: (nat, nat) -> bool,
                  done': (nat, nat) -> bool, want: (nat, nat) -> Byte, i: nat, j: nat, k: nat, idx: nat, v: Byte)
    requires i < rows && j + k < cols <= pitch && Idx(pitch, rows - 1, cols) <= |s|
    requires idx == Idx(pitch, i, j) + k && v == want(i, j + k)
    requires Filled(s, orig, pitch, done, want)
    requires forall r: nat, c: nat :: done'(r, c) == (done(r, c) || (r == i && c == j + k))
    ensures idx < |s| && Filled(s[idx := v], orig, pitch, done', want)
  {
    IdxShift(pitch, i, j, k);
    FillAt(s, orig, pitch, rows, cols, done, done', want, i, j + k, idx, v);
  }

  /** Offset `Idx(pitch, r, c)` falls in the run of `k` bytes starting at column
      `j` of row `i` exactly when it is one of that run's positions. */
  lemma InRun(pitch: nat, r: nat, c: nat, i: nat, j: nat, k: nat)
    requires c < pitch && j + k <= pitch
    ensures Idx(pitch, i, j) <= Idx(pitch, r, c) < Idx(pitch, i, j) + k <==> r == i && j <= c < j + k
  {
    IdxIs(pitch, r, c);
    IdxIs(pitch, i, j);
    if r < i {
      MulMono(pitch, r + 1, i);
    } else if r > i {
      MulMono(pitch, i + 1, r);
    }
  }

  /** Writing the wanted bytes over a run of `k` columns of row `i`, and nothing
      else, adds the run to the filled region. */
  lemma FillRun(s: seq<Byte>, s': seq<Byte>, orig: seq<Byte>, pitch: nat, done: (nat, nat) -> bool,
                done': (nat, nat) -> bool, want: (nat, nat) -> Byte, i: nat, j: nat, k: nat, start: nat)
    requires start == Idx(pitch, i, j) && j + k <= pitch && start + k <= |s| && |s'| == |s|
    requires Filled(s, orig, pitch, done, want)
    requires forall c :: j <= c < j + k ==> s'[start + (c - j)] == want(i, c)
    requires forall o :: 0 <= o < |s| && !(start <= o < start + k) ==> s'[o] == s[o]
    requires forall r: nat, c: nat :: done'(r, c) == (done(r, c) || (r == i && j <= c < j + k))
    ensures Filled(s', orig, pitch, done', want)
  {
    forall r: nat, c: nat | c < pitch && Idx(pitch, r, c) < |s'|
      ensures s'[Idx(pitch, r, c)] == if done'(r, c) then want(r, c) else orig[Idx(pitch, r, c)]
    {
      InRun(pitch, r, c, i, j, k);
      if r == i && j <= c < j + k {
        IdxShift(pitch, i, j, c - j);
      }
    }
  }

  /** A filled buffer holds its original byte at every offset outside the
      filled region: the writes touch nothing else. */
  lemma FilledElsewhere(s: seq<Byte>, orig: seq<Byte>, pitch: nat, done: (nat, nat) -> bool,
                        want: (nat, nat) -> Byte, o: nat)
    requires Filled(s, orig, pitch, done, want) && pitch > 0 && o < |s|
    requires !done(o / pitch, o % pitch)
    ensures s[o] == orig[o]
  {
    Decompose(o, pitch);
    IdxIs(pitch, o / pitch, o % pitch);
    assert s[Idx(pitch, o / pitch, o % pitch)] == orig[Idx(pitch, o / pitch, o % pitch)];
  }

  /** The filled region may be described by any predicate that agrees on it. */
  lemma FillSame(s: seq<Byte>, orig: seq<Byte>, pitch: nat, done: (nat, nat) -> bool,
                 done': (nat, nat) -> bool, want: (nat, nat) -> Byte)
    requires Filled(s, orig, pitch, done, want)
    requires forall r: nat, c: nat :: done'(r, c) == done(r, c)
    ensures Filled(s, orig, pitch, done', want)
  {
  }

  /** Every offset is its row times the pitch plus its column. */
  lemma Decompose(o: int, p: int)
    requires p > 0
    ensures o == p * (o / p) + o % p && 0 <= o % p < p
  {
  }

  lemma MulMonoInt(a: int, b: int, c: int)
    requires a >= 0 && b <= c
    ensures a * b <= a * c
  {
    assert a * c - a * b == a * (c - b);
  }
}
