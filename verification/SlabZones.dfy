/** Slab zones: size classes, the layout of a zone, and its chunks. Sizes and offsets are in bytes. */
module SlabZones {
  import opened Bits

  const PAGE: nat := 4096              // RT_MM_PAGE_SIZE
  const HEADER: nat := 36              // sizeof(slab_zone)
  const NZONES: nat := 72

  // ---------- size classes ----------

  /** (n + a - 1) & ~(a - 1) for a power of two a. */
  function RoundUp(n: nat, a: nat): nat
    requires a > 0
  {
    (n + a - 1) / a * a
  }

  datatype Class = Class(index: nat, size: nat)

  /** zoneindex: the zone index and the chunk size for a request. */
  function ZoneIndex(n: nat): Class
    requires 0 < n < 16384
  {
    if n < 128 then Class(RoundUp(n, 8) / 8 - 1, RoundUp(n, 8))
    else if n < 256 then Class(RoundUp(n, 16) / 16 + 7, RoundUp(n, 16))
    else if n < 512 then Class(RoundUp(n, 32) / 32 + 15, RoundUp(n, 32))
    else if n < 1024 then Class(RoundUp(n, 64) / 64 + 23, RoundUp(n, 64))
    else if n < 2048 then Class(RoundUp(n, 128) / 128 + 31, RoundUp(n, 128))
    else if n < 4096 then Class(RoundUp(n, 256) / 256 + 39, RoundUp(n, 256))
    else if n < 8192 then Class(RoundUp(n, 512) / 512 + 47, RoundUp(n, 512))
    else Class(RoundUp(n, 1024) / 1024 + 55, RoundUp(n, 1024))
  }

  /** The chunk size of a zone index. */
  function SizeOf(i: nat): nat
    requires i < NZONES
  {
    if i < 16 then 8 * (i + 1)
    else if i < 24 then 16 * (i - 7)
    else if i < 32 then 32 * (i - 15)
    else if i < 40 then 64 * (i - 23)
    else if i < 48 then 128 * (i - 31)
    else if i < 56 then 256 * (i - 39)
    else if i < 64 then 512 * (i - 47)
    else 1024 * (i - 55)
  }

  lemma SizesGrow(i: nat, j: nat)
    requires i < j < NZONES
    ensures SizeOf(i) < SizeOf(j)
  {
  }

  /** Every index stands for one chunk size; a request gets the smallest that holds it, which wastes less than eight
      bytes or an eighth of the request. */
  lemma ZoneIndexIsSmallestClass(n: nat)
    requires 0 < n < 16384
    ensures var c := ZoneIndex(n);
            && c.index < NZONES && c.size == SizeOf(c.index) && n <= c.size
            && (forall i | 0 <= i < NZONES :: n <= SizeOf(i) ==> c.size <= SizeOf(i))
            && (c.size < n + 8 || 8 * (c.size - n) < n)
  {
    var c := ZoneIndex(n);
    ClassFits(n);
    forall i | 0 <= i < NZONES && n <= SizeOf(i)
      ensures c.size <= SizeOf(i)
    {
      ClassIsLeast(n, i);
    }
  }

  lemma ClassFits(n: nat)
    requires 0 < n < 16384
    ensures var c := ZoneIndex(n);
            && c.index < NZONES && c.size == SizeOf(c.index) && n <= c.size
            && (c.size < n + 8 || 8 * (c.size - n) < n)
  {
    if n < 128 {
      ClassIn(n, 8);
    } else if n < 256 {
      ClassIn(n, 16);
    } else if n < 512 {
      ClassIn(n, 32);
    } else if n < 1024 {
      ClassIn(n, 64);
    } else if n < 2048 {
      ClassIn(n, 128);
    } else if n < 4096 {
      ClassIn(n, 256);
    } else if n < 8192 {
      ClassIn(n, 512);
    } else {
      ClassIn(n, 1024);
    }
  }

  /** Rounding up by the step of a range of sizes: q steps hold n, and q - 1 do not. */
  lemma ClassIn(n: nat, a: nat)
    requires a == 8 || a == 16 || a == 32 || a == 64 || a == 128 || a == 256 || a == 512 || a == 1024
    ensures var q := (n + a - 1) / a;
            RoundUp(n, a) == q * a && RoundUp(n, a) / a == q && n <= q * a < n + a
  {
    DivBounds(n + a - 1, a);
    MulMod((n + a - 1) / a, a);
  }

  lemma ClassIsLeast(n: nat, i: nat)
    requires 0 < n < 16384 && i < NZONES && n <= SizeOf(i)
    ensures ZoneIndex(n).size <= SizeOf(i)
  {
    ClassFits(n);
    var c := ZoneIndex(n);
    if i < c.index {
      SmallerClass(n, i);
    } else if c.index < i {
      SizesGrow(c.index, i);
    }
  }

  lemma SmallerClass(n: nat, i: nat)
    requires 0 < n < 16384 && i < ZoneIndex(n).index < NZONES
    ensures SizeOf(i) < n
  {
  }

  // ---------- powers of two ----------

  predicate IsPow2(n: nat) {
    n == 1 || (n > 1 && n % 2 == 0 && IsPow2(n / 2))
  }

  /** The test (size | (size - 1)) + 1 == size << 1 finds the powers of two. */
  lemma {:induction false} Pow2Test(n: nat)
    requires n > 0
    ensures Or(n, n - 1) + 1 == 2 * n <==> IsPow2(n)
  {
    if n > 1 {
      if n % 2 == 0 {
        Pow2Test(n / 2);
        assert (n - 1) / 2 == n / 2 - 1;
      } else {
        OrSelf(n / 2);
        assert (n - 1) / 2 == n / 2;
      }
    }
  }

  lemma {:induction false} OrSelf(n: nat)
    ensures Or(n, n) == n
  {
    if n > 0 {
      OrSelf(n / 2);
    }
  }

  // ---------- the layout of a zone ----------

  /** Where the chunks begin. */
  function Base(size: nat): nat
    requires size > 0
  {
    if Or(size, size - 1) + 1 == 2 * size then RoundUp(HEADER, size) else RoundUp(HEADER, 8)
  }

  /** z_nmax. */
  function NMax(zoneSize: nat, size: nat): nat
    requires size > 0
  {
    if Base(size) <= zoneSize then (zoneSize - Base(size)) / size else 0
  }

  predicate ZoneSizeOk(zoneSize: nat) {
    zoneSize == 32768 || zoneSize == 65536 || zoneSize == 131072
  }

  function ZoneLimit(zoneSize: nat): nat {
    if zoneSize / 4 > 16384 then 16384 else zoneSize / 4
  }

  lemma DivBounds(a: nat, b: nat)
    requires b > 0
    ensures a / b * b <= a < a / b * b + b
  {
  }

  lemma MulOrder(i: nat, j: nat, s: nat)
    requires i < j
    ensures i * s + s <= j * s
  {
    assert j * s == i * s + s + (j - i - 1) * s;
  }

  lemma RoundUpBounds(n: nat, a: nat)
    requires a > 0
    ensures n <= RoundUp(n, a) < n + a && RoundUp(n, a) % a == 0
    ensures 0 < n <= a ==> RoundUp(n, a) == a
  {
    DivBounds(n + a - 1, a);
    var k := (n + a - 1) / a;
    assert k * a % a == 0 by {
      MulMod(k, a);
    }
    if 0 < n <= a {
      if k > 1 {
        MulOrder(1, k, a);
      }
    }
  }

  lemma {:induction false} MulMod(k: nat, a: nat)
    requires a > 0
    ensures k * a % a == 0 && k * a / a == k
  {
    if k > 0 {
      MulMod(k - 1, a);
      AddMod((k - 1) * a, a);
      assert k * a == (k - 1) * a + a;
    }
  }

  lemma AddMod(x: nat, a: nat)
    requires a > 0
    ensures (x + a) % a == x % a && (x + a) / a == x / a + 1
  {
    DivBounds(x, a);
    DivBounds(x + a, a);
    var q, r := x / a + 1, (x + a) / a;
    assert q * a == x / a * a + a;
    if r < q {
      MulOrder(r, q, a);
    } else if q < r {
      MulOrder(q, r, a);
    }
  }

  /** A zone for a request below the limit has room for at least two chunks behind its header. */
  lemma ZoneHoldsChunks(zoneSize: nat, n: nat)
    requires ZoneSizeOk(zoneSize) && 0 < n < ZoneLimit(zoneSize)
    ensures var size := ZoneIndex(n).size;
            && HEADER <= Base(size) <= zoneSize && Base(size) % 8 == 0 && NMax(zoneSize, size) >= 2
            && Base(size) + NMax(zoneSize, size) * size <= zoneSize
  {
    ClassFits(n);
    SizesAreMultiples(ZoneIndex(n).index);
    LimitIsAClass(zoneSize, n);
    LayoutFits(zoneSize, ZoneIndex(n).size);
  }

  lemma SizesAreMultiples(i: nat)
    requires i < NZONES
    ensures 8 <= SizeOf(i) && SizeOf(i) % 8 == 0
  {
  }

  lemma LayoutFits(zoneSize: nat, size: nat)
    requires ZoneSizeOk(zoneSize) && 8 <= size <= zoneSize / 4 && size % 8 == 0
    ensures HEADER <= Base(size) <= zoneSize && Base(size) % 8 == 0 && NMax(zoneSize, size) >= 2
    ensures Base(size) + NMax(zoneSize, size) * size <= zoneSize
  {
    BaseBounds(size);
    TwoFit(zoneSize - Base(size), size);
  }

  lemma TwoFit(room: nat, size: nat)
    requires size > 0 && 2 * size <= room
    ensures 2 <= room / size && room / size * size <= room
  {
    DivBounds(room, size);
    if room / size < 2 {
      MulOrder(room / size, 2, size);
    }
  }

  lemma LimitIsAClass(zoneSize: nat, n: nat)
    requires ZoneSizeOk(zoneSize) && 0 < n < ZoneLimit(zoneSize)
    ensures ZoneIndex(n).size <= ZoneLimit(zoneSize) <= zoneSize / 4
  {
    ZoneIndexIsSmallestClass(n);
    assert SizeOf(63) == 8192 && SizeOf(71) == 16384;
  }

  lemma BaseBounds(size: nat)
    requires 8 <= size && size % 8 == 0
    ensures HEADER <= Base(size) && Base(size) % 8 == 0 && (Base(size) < HEADER + size)
  {
    RoundUpBounds(HEADER, size);
    RoundUpBounds(HEADER, 8);
    if Base(size) != RoundUp(HEADER, 8) {
      MultipleOfMultiple(Base(size), size, 8);
    }
  }

  lemma MultipleOfMultiple(x: nat, a: nat, b: nat)
    requires b > 0 && a > 0 && a % b == 0 && x % a == 0
    ensures x % b == 0
  {
    DivBounds(x, a);
    ScaleMod(x / a, a, b);
  }

  lemma SumMod(x: nat, y: nat, a: nat)
    requires a > 0 && x % a == 0 && y % a == 0
    ensures (x + y) % a == 0
  {
    var p, q := x / a, y / a;
    DivBounds(x, a);
    DivBounds(y, a);
    assert x == p * a && y == q * a;
    assert x + y == (p + q) * a;
    MulMod(p + q, a);
  }

  lemma {:induction false} ScaleMod(k: nat, x: nat, a: nat)
    requires a > 0 && x % a == 0
    ensures k * x % a == 0
  {
    if k == 0 {
      assert k * x == 0;
    } else {
      ScaleMod(k - 1, x, a);
      SumMod((k - 1) * x, x, a);
      assert k * x == (k - 1) * x + x;
    }
  }

  lemma DoubleMod(x: nat, a: nat)
    requires a > 0 && x % a == 0
    ensures (2 * x) % (2 * a) == 0
  {
    var k := x / a;
    DivBounds(x, a);
    assert k * (2 * a) == 2 * (k * a);
    MulMod(k, 2 * a);
  }

  /** Chunks whose size is a power of two up to a page are aligned to their size. */
  lemma Pow2ChunksAreAligned(z: nat, size: nat, i: nat)
    requires 8 <= size <= PAGE && IsPow2(size)
    ensures (z * PAGE + Base(size) + i * size) % size == 0
  {
    PageIsMultiple(size);
    ScaleMod(z, PAGE, size);
    Pow2BaseIsMultiple(size);
    MulMod(i, size);
    SumOfThree(z * PAGE, Base(size), i * size, size);
  }

  lemma SumOfThree(x: nat, y: nat, w: nat, a: nat)
    requires a > 0 && x % a == 0 && y % a == 0 && w % a == 0
    ensures (x + y + w) % a == 0
  {
    SumMod(x, y, a);
    SumMod(x + y, w, a);
  }

  lemma Pow2BaseIsMultiple(size: nat)
    requires 8 <= size && IsPow2(size)
    ensures Base(size) % size == 0
  {
    Pow2Test(size);
    RoundUpBounds(HEADER, size);
  }

  lemma PageIsMultiple(size: nat)
    requires 8 <= size <= PAGE && IsPow2(size)
    ensures PAGE % size == 0
  {
    Pow2Divides(size, PAGE);
  }

  lemma {:induction false} Pow2Divides(a: nat, b: nat)
    requires IsPow2(a) && IsPow2(b) && a <= b
    ensures b % a == 0
  {
    if a > 1 {
      Pow2Divides(a / 2, b / 2);
      DoubleMod(b / 2, a / 2);
    }
  }
}
