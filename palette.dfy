/** The nearest-colour engine of CLUTer: 24-bit packed colour keys, the
    sum-of-absolute-differences distance, the sorted and deduplicated palette
    and the closest palette entry for an input key. */
module Palette {
  import opened Raster

  /** Number of packed 24-bit keys, and so of entries in each lookup table. */
  const TableSize: nat := 0x100_0000

  /** `(a << 16) | (b << 8) | c` for three 8-bit components. */
  function Pack(a: Byte, b: Byte, c: Byte): (k: nat)
    ensures k < TableSize
  {
    a * 0x1_0000 + b * 0x100 + c
  }

  /** Unpacking a packed key gives back its three components. */
  lemma UnpackPack(a: Byte, b: Byte, c: Byte)
    ensures YR(Pack(a, b, c)) == a && UG(Pack(a, b, c)) == b && VB(Pack(a, b, c)) == c
  {
    var k := Pack(a, b, c);
    DivMod(0x100, a * 0x100 + b, c);
    DivMod(0x100, a, b);
    DivMod(0x1_0000, a, b * 0x100 + c);
  }

  /** `(k >> 16) & 255`: the first component (Y or R). */
  function YR(k: nat): Byte { k / 0x1_0000 % 0x100 }

  /** `(k >> 8) & 255`: the second component (U or G). */
  function UG(k: nat): Byte { k / 0x100 % 0x100 }

  /** `k & 255`: the third component (V or B). */
  function VB(k: nat): Byte { k % 0x100 }

  /** Every 24-bit key is the packing of its own three components. */
  lemma PackUnpack(k: nat)
    requires k < TableSize
    ensures Pack(YR(k), UG(k), VB(k)) == k
  {
    var q := k / 0x100;
    assert k == 0x100 * q + VB(k);
    assert q == 0x100 * (q / 0x100) + UG(k);
    assert q / 0x100 == YR(k);
  }

  /** Packing is injective: equal keys have equal components. */
  lemma PackInjective(a: Byte, b: Byte, c: Byte, a': Byte, b': Byte, c': Byte)
    ensures Pack(a, b, c) == Pack(a', b', c') <==> a == a' && b == b' && c == c'
  {
    UnpackPack(a, b, c);
    UnpackPack(a', b', c');
  }

  function Abs(d: int): nat { if d < 0 then -d else d }

  /** `abs(ΔYR) + abs(ΔUG) + abs(ΔVB)` between two packed keys. */
  function Distance(x: nat, p: nat): nat
  {
    Abs(YR(x) - YR(p)) + Abs(UG(x) - UG(p)) + Abs(VB(x) - VB(p))
  }

  /** Two 24-bit keys are at distance 0 exactly when they are equal. */
  lemma DistanceZero(x: nat, p: nat)
    requires x < TableSize && p < TableSize
    ensures Distance(x, p) == 0 <==> x == p
  {
    if Distance(x, p) == 0 {
      PackUnpack(x);
      PackUnpack(p);
    }
  }

  /** The palette after `std::sort` and `std::unique`. */
  predicate StrictlyAscending(s: seq<int>) {
    forall i, j :: 0 <= i < j < |s| ==> s[i] < s[j]
  }

  /** Every palette entry is a packed 24-bit key. */
  predicate AllKeys(s: seq<int>) {
    forall i :: 0 <= i < |s| ==> 0 <= s[i] < TableSize
  }

  /** The index the scan of the palette has settled on after looking at its first
      `n` entries: it starts at entry 0 and moves to entry `m` only when entry `m`
      is strictly closer to `x` than the current one. */
  function ScanIndex(plt: seq<int>, x: nat, n: nat): (r: nat)
    requires 0 < |plt| && n <= |plt| && AllKeys(plt)
    ensures r < |plt| && (n > 0 ==> r < n)
    ensures forall m {:trigger Distance(x, plt[m])} :: 0 <= m < n ==> Distance(x, plt[r]) <= Distance(x, plt[m])
    ensures forall m {:trigger Distance(x, plt[m])} :: 0 <= m < r ==> Distance(x, plt[r]) < Distance(x, plt[m])
  {
    if n == 0 then 0
    else
      var r := ScanIndex(plt, x, n - 1);
      if Distance(x, plt[n - 1]) < Distance(x, plt[r]) then n - 1 else r
  }

  /** The palette entry CLUTer stores for input key `x`. */
  function Nearest(plt: seq<int>, x: nat): (r: nat)
    requires 0 < |plt| && AllKeys(plt)
    ensures r in plt && r < TableSize
  {
    plt[ScanIndex(plt, x, |plt|)]
  }

  /** The entry no other palette entry beats, ties going to the smallest key. */
  ghost predicate IsClosest(plt: seq<int>, x: nat, q: nat)
    requires AllKeys(plt)
  {
    && q in plt
    && (forall m :: 0 <= m < |plt| ==> Distance(x, q) <= Distance(x, plt[m]))
    && (forall m :: 0 <= m < |plt| && Distance(x, plt[m]) == Distance(x, q) ==> q <= plt[m])
  }

  /** On a sorted, deduplicated palette the scan finds exactly the closest entry
      with the smallest key: the strict `<` keeps the first of equal minima. */
  lemma {:induction false} NearestIsClosest(plt: seq<int>, x: nat, q: nat)
    requires 0 < |plt| && AllKeys(plt) && StrictlyAscending(plt)
    ensures q == Nearest(plt, x) <==> IsClosest(plt, x, q)
  {
    var r := ScanIndex(plt, x, |plt|);
    assert IsClosest(plt, x, plt[r]) by {
      forall m | 0 <= m < |plt| && Distance(x, plt[m]) == Distance(x, plt[r])
        ensures plt[r] <= plt[m]
      {
        assert m >= r;
      }
    }
    if IsClosest(plt, x, q) {
      var i :| 0 <= i < |plt| && plt[i] == q;
      assert Distance(x, q) == Distance(x, plt[r]);
      assert q <= plt[r] && plt[r] <= q;
    }
  }

  /** A palette key is its own nearest entry (distance 0 to itself). */
  lemma {:induction false} NearestFixedPoint(plt: seq<int>, x: nat)
    requires 0 < |plt| && AllKeys(plt) && x in plt
    ensures Nearest(plt, x) == x
  {
    var r := ScanIndex(plt, x, |plt|);
    var i :| 0 <= i < |plt| && plt[i] == x;
    assert Distance(x, x) == 0;
    assert Distance(x, plt[r]) <= Distance(x, plt[i]);
    DistanceZero(x, plt[r]);
  }

  /** The inner loop of `fillComponentVectors` for one input key `i`: start from
      entry 0 and keep an entry only when it is strictly closer. */
  method ClosestMatch(plt: seq<int>, i: nat) returns (outInt: int)
    requires 0 < |plt| && AllKeys(plt)
    ensures outInt == Nearest(plt, i)
  {
    var base := plt[0];
    var sumPrev := Distance(i, base);
    outInt := base;
    ghost var r: nat := 0;
    var j := 0;
    while j < |plt|
      invariant 0 <= j <= |plt|
      invariant r == ScanIndex(plt, i, j)
      invariant outInt == plt[r] && sumPrev == Distance(i, outInt)
    {
      var pltInt := plt[j];
      var sumCur := Distance(i, pltInt);
      if sumCur < sumPrev {
        sumPrev := sumCur;
        outInt := pltInt;
        r := j;
      }
      j := j + 1;
    }
  }

  /** `std::sort` followed by `erase(std::unique(...))`: the same set of keys,
      strictly ascending. */
  method SortUnique(keys: seq<int>) returns (plt: seq<int>)
    ensures StrictlyAscending(plt)
    ensures forall k :: k in plt <==> k in keys
  {
    plt := [];
    var n := 0;
    while n < |keys|
      invariant 0 <= n <= |keys|
      invariant StrictlyAscending(plt)
      invariant forall k :: k in plt <==> k in keys[..n]
    {
      var k := keys[n];
      var i := 0;
      while i < |plt| && plt[i] < k
        invariant 0 <= i <= |plt|
        invariant forall m :: 0 <= m < i ==> plt[m] < k
      {
        i := i + 1;
      }
      if i == |plt| || plt[i] != k {
        plt := plt[..i] + [k] + plt[i..];
      }
      assert keys[..n + 1] == keys[..n] + [k];
      n := n + 1;
    }
    assert keys[..n] == keys;
  }

  /** The three parallel lookup tables `vecYR`, `vecUG`, `vecVB` after a build from
      palette `plt`: one entry per 24-bit input key, holding the components of the
      nearest palette entry. */
  ghost predicate IsTable(plt: seq<int>, yr: seq<Byte>, ug: seq<Byte>, vb: seq<Byte>)
    requires 0 < |plt| && AllKeys(plt)
  {
    && |yr| == TableSize && |ug| == TableSize && |vb| == TableSize
    && forall k :: 0 <= k < TableSize ==>
         yr[k] == YR(Nearest(plt, k)) && ug[k] == UG(Nearest(plt, k)) && vb[k] == VB(Nearest(plt, k))
  }

  /** The first `n` entries of the three tables, as the build loop leaves them. */
  ghost predicate TablePrefix(plt: seq<int>, yr: seq<Byte>, ug: seq<Byte>, vb: seq<Byte>, n: nat)
    requires 0 < |plt| && AllKeys(plt)
  {
    && |yr| == n && |ug| == n && |vb| == n
    && forall k :: 0 <= k < n ==>
         yr[k] == YR(Nearest(plt, k)) && ug[k] == UG(Nearest(plt, k)) && vb[k] == VB(Nearest(plt, k))
  }

  /** Appending the components of the nearest entry to key `n` extends a table prefix. */
  lemma TablePrefixStep(plt: seq<int>, yr: seq<Byte>, ug: seq<Byte>, vb: seq<Byte>, n: nat, out: int)
    requires 0 < |plt| && AllKeys(plt) && TablePrefix(plt, yr, ug, vb, n) && out == Nearest(plt, n)
    ensures TablePrefix(plt, yr + [YR(out)], ug + [UG(out)], vb + [VB(out)], n + 1)
  {
    var yr', ug', vb' := yr + [YR(out)], ug + [UG(out)], vb + [VB(out)];
    forall k | 0 <= k < n + 1
      ensures yr'[k] == YR(Nearest(plt, k)) && ug'[k] == UG(Nearest(plt, k)) && vb'[k] == VB(Nearest(plt, k))
    {
      if k < n {
        assert yr'[k] == yr[k] && ug'[k] == ug[k] && vb'[k] == vb[k];
      }
    }
  }

  /** Repacking the three table entries for `k` gives the nearest palette entry,
      so every looked-up colour is a palette colour. */
  lemma TableEntry(plt: seq<int>, yr: seq<Byte>, ug: seq<Byte>, vb: seq<Byte>, k: nat)
    requires 0 < |plt| && AllKeys(plt) && IsTable(plt, yr, ug, vb) && k < TableSize
    ensures Pack(yr[k], ug[k], vb[k]) == Nearest(plt, k)
    ensures Pack(yr[k], ug[k], vb[k]) in plt
  {
    PackUnpack(Nearest(plt, k));
  }

  /** What the tables promise for every input key `k`: the repacked entry is a
      palette entry at minimal distance from `k`, the smallest key among those,
      and `k` itself when `k` is in the palette. */
  lemma TableIsClosest(plt: seq<int>, yr: seq<Byte>, ug: seq<Byte>, vb: seq<Byte>, k: nat)
    requires 0 < |plt| && AllKeys(plt) && StrictlyAscending(plt)
    requires IsTable(plt, yr, ug, vb) && k < TableSize
    ensures IsClosest(plt, k, Pack(yr[k], ug[k], vb[k]))
    ensures k in plt ==> yr[k] == YR(k) && ug[k] == UG(k) && vb[k] == VB(k)
  {
    TableEntry(plt, yr, ug, vb, k);
    NearestIsClosest(plt, k, Nearest(plt, k));
    if k in plt {
      NearestFixedPoint(plt, k);
    }
  }

  /** Building twice from the same palette gives identical tables. */
  lemma TableDeterministic(plt: seq<int>, yr: seq<Byte>, ug: seq<Byte>, vb: seq<Byte>,
                           yr': seq<Byte>, ug': seq<Byte>, vb': seq<Byte>)
    requires 0 < |plt| && AllKeys(plt)
    requires IsTable(plt, yr, ug, vb) && IsTable(plt, yr', ug', vb')
    ensures yr == yr' && ug == ug' && vb == vb'
  {
    assert forall k :: 0 <= k < |yr| ==> yr[k] == yr'[k];
    assert forall k :: 0 <= k < |ug| ==> ug[k] == ug'[k];
    assert forall k :: 0 <= k < |vb| ==> vb[k] == vb'[k];
  }

  /** A one-colour palette maps every input to that colour. */
  lemma SingleEntry(c: nat, x: nat)
    requires c < TableSize
    ensures Nearest([c], x) == c
  {
  }

  /** Black and white palette: mid-dark grey goes to black, light grey to white
      (sums of absolute differences 300 against 465, and 600 against 165). */
  lemma BlackWhite()
    ensures Nearest([0, 0xFF_FFFF], Pack(100, 100, 100)) == 0
    ensures Nearest([0, 0xFF_FFFF], Pack(200, 200, 200)) == 0xFF_FFFF
  {
    var grey, light := Pack(100, 100, 100), Pack(200, 200, 200);
    UnpackPack(100, 100, 100);
    UnpackPack(200, 200, 200);
    assert YR(0xFF_FFFF) == 255 && UG(0xFF_FFFF) == 255 && VB(0xFF_FFFF) == 255;
    assert YR(0) == 0 && UG(0) == 0 && VB(0) == 0;
    assert Distance(grey, 0) == 300 && Distance(grey, 0xFF_FFFF) == 465;
    assert Distance(light, 0) == 600 && Distance(light, 0xFF_FFFF) == 165;
  }
}
