/** What the calls of the slab allocator come to: which chunk is handed out, which zones stand in which list, and when a zone
    goes into reserve or gives its pages back. */
module SlabLaws {
  import opened Options
  import opened Seqs
  import opened SlabZones
  import opened Slab
  import Pages

  // ---------- the layout of a zone ----------

  /** Chunks begin at the first place behind the header that is a multiple of their size, if that is a power of two, or
      else of eight bytes. */
  lemma BaseIsLeast(size: nat, a: nat)
    requires size > 0
    ensures var unit := if IsPow2(size) then size else 8;
            Base(size) >= HEADER && Base(size) % unit == 0 && (a >= HEADER && a % unit == 0 ==> Base(size) <= a)
  {
    Pow2Test(size);
    var unit := if IsPow2(size) then size else 8;
    RoundUpBounds(HEADER, unit);
    RoundedIsLeast(HEADER, unit, a);
  }

  lemma RoundedIsLeast(n: nat, unit: nat, a: nat)
    requires unit > 0
    ensures RoundUp(n, unit) % unit == 0 && (a >= n && a % unit == 0 ==> RoundUp(n, unit) <= a)
  {
    hide RoundUp;
    RoundUpBounds(n, unit);
    if a >= n && a % unit == 0 {
      MultiplesApart(RoundUp(n, unit), a, unit);
    }
  }

  lemma MultiplesApart(x: nat, y: nat, unit: nat)
    requires unit > 0 && x % unit == 0 && y % unit == 0 && x < y + unit
    ensures x <= y
  {
    DivBounds(x, unit);
    DivBounds(y, unit);
    var i, j := x / unit, y / unit;
    assert x == i * unit && y == j * unit;
    if j < i {
      MulOrder(j, i, unit);
    }
  }

  /** A zone has as many chunks as there is room for. */
  lemma NMaxIsMost(zoneSize: nat, size: nat, n: nat)
    requires size > 0 && Base(size) <= zoneSize
    ensures n <= NMax(zoneSize, size) <==> Base(size) + n * size <= zoneSize
  {
    hide Base;
    var room := zoneSize - Base(size);
    DivBounds(room, size);
    var most := NMax(zoneSize, size);
    if n < most {
      MulOrder(n, most, size);
    } else if most < n {
      MulOrder(most, n, size);
    }
  }

  // ---------- rt_malloc ----------

  /** The page table leads from n pages to the zone at z, which is the first of them. */
  ghost predicate PagesOf(s: Slab, z: nat, n: nat) {
    forall x: nat | z <= x < z + n :: x in s.usage && s.usage[x] == SMALL(x - z)
  }

  /** It has n pages from z as free. */
  ghost predicate PagesFree(s: Slab, z: nat, n: nat) {
    forall x: nat | z <= x < z + n :: x in s.usage && s.usage[x] == FREE
  }

  /** The page table has changed in the n pages from z only. */
  ghost predicate SameElsewhere(s: Slab, r: Slab, z: nat, n: nat) {
    forall x: nat | x < z || z + n <= x :: (x in r.usage <==> x in s.usage) && (x in r.usage ==> r.usage[x] == s.usage[x])
  }

  /** A request below the limit is met from the first zone on the list of its class: by the next chunk that was never used
      or, when all were, by the first on the zone's free list. With its last free chunk the zone leaves the list. */
  lemma ChunkFromList(s: Slab, size: nat, z: nat)
    requires Inv(s) && 0 < size < ZoneLimit(s.zoneSize)
    requires var i := ZoneIndex(size).index; i < |s.arrays| && s.arrays[i] != [] && s.arrays[i][0] == z
    ensures z in s.zones && s.zones[z].size > 0
    ensures var (r, x) := Malloc(s, size);
            var zone, i := s.zones[z], ZoneIndex(size).index;
            var unused := zone.uindex + 1 < NMax(s.zoneSize, zone.size);
            && (!unused ==> zone.free != [])
            && x == Some(Chunk(z, if unused then zone.uindex + 1 else zone.free[0]))
            && r == s.(zones := r.zones, arrays := r.arrays) && z in r.zones
            && r.zones == s.zones[z := zone.(nfree := r.zones[z].nfree,
                                             uindex := if unused then zone.uindex + 1 else zone.uindex,
                                             free := if unused then zone.free else zone.free[1..])]
            && zone.nfree == r.zones[z].nfree + 1
            && r.arrays == (if zone.nfree == 1 then s.arrays[i := s.arrays[i][1..]] else s.arrays)
  {
    hide Pages.HeldOk, UsageOk, SpareOk, NMax, NoDup, LiveChunk;
    ZoneIndexIsSmallestClass(size);
    assert z in s.arrays[ZoneIndex(size).index];
    TakeChunkKeeps(s.zoneSize, s.zones[z]);
    assert ZoneInv(s.zoneSize, s.zones[z]);
    NotYetAll(s.zoneSize, s.zones[z]);
  }

  lemma NotYetAll(zoneSize: nat, z: Zone)
    requires ZoneInv(zoneSize, z)
    ensures z.size > 0 && z.uindex < NMax(zoneSize, z.size)
  {
  }

  /** If no zone of its class has a free chunk, by the first chunk of a zone from the reserve, and if that is empty of one
      in new pages, the first ones of the first run that is long enough. The zone is then the only one on its list. */
  lemma ChunkFromNewZone(s: Slab, size: nat)
    requires Inv(s) && 0 < size < ZoneLimit(s.zoneSize)
    requires forall z <- s.zones :: s.zones[z].index == ZoneIndex(size).index ==> s.zones[z].nfree == 0
    ensures var (r, x) := Malloc(s, size);
            var c, n := ZoneIndex(size), s.zoneSize / PAGE;
            && (x.None? <==> s.spare == [] && forall i | 0 <= i < |s.q| :: s.q[i].count < n)
            && (x.Some? ==>
                  && x.value.Chunk? && x.value.i == 0 && c.size > 0
                  && (if s.spare != [] then x.value.z == s.spare[0] else Some(x.value.z) == Pages.Alloc(s.q, n).1)
                  && r.zones == s.zones[x.value.z := Zone(c.index, c.size, NMax(s.zoneSize, c.size) - 1, 0, [])]
                  && c.index < |s.arrays| && r.arrays == s.arrays[c.index := [x.value.z]]
                  && (if s.spare != [] then r.spare == s.spare[1..] && r.q == s.q && r.held == s.held && r.usage == s.usage
                      else r.spare == [] && r.q == Pages.Alloc(s.q, n).0 && r.held == s.held[x.value.z := n]
                           && PagesOf(r, x.value.z, n) && SameElsewhere(s, r, x.value.z, n)))
  {
    hide UsageOk, ZoneInv, NoDup, LiveChunk, NMax, MarkSmall, PagesOf, SameElsewhere;
    ZoneIndexIsSmallestClass(size);
    NobodyListed(s, ZoneIndex(size).index);
    NewZoneKeeps(s.zoneSize, size);
    assert forall z: nat :: [z] + s.arrays[ZoneIndex(size).index] == [z];
    if s.spare == [] {
      PagesRefused(s, s.zoneSize / PAGE);
      PagesNoted(s, Malloc(s, size).0);
    }
  }

  lemma PagesNoted(s: Slab, r: Slab)
    ensures forall z: nat | r.usage == MarkSmall(s.usage, z, s.zoneSize / PAGE) ::
              PagesOf(r, z, s.zoneSize / PAGE) && SameElsewhere(s, r, z, s.zoneSize / PAGE)
  {
  }

  lemma NobodyListed(s: Slab, i: nat)
    requires Inv(s) && i < NZONES && forall z <- s.zones :: s.zones[z].index == i ==> s.zones[z].nfree == 0
    ensures s.arrays[i] == []
  {
    if s.arrays[i] != [] {
      HeadHasFree(s, i);
    }
  }

  lemma HeadHasFree(s: Slab, i: nat)
    requires Inv(s) && i < NZONES && s.arrays[i] != []
    ensures var z := s.arrays[i][0]; z in s.zones && s.zones[z].index == i && s.zones[z].nfree > 0
  {
    hide Pages.HeldOk, UsageOk, SpareOk, ZonesOk;
    var z := s.arrays[i][0];
    assert z in s.arrays[i];
  }

  lemma PagesRefused(s: Slab, n: nat)
    requires Inv(s) && n > 0
    ensures Pages.Alloc(s.q, n).1 == None <==> forall i | 0 <= i < |s.q| :: s.q[i].count < n
  {
    Pages.TakeKeeps(s.q, n, 0);
  }

  /** A request from the limit upwards takes its pages, rounded up, and is noted in the page table. */
  lemma LargeIs(s: Slab, size: nat, n: nat)
    requires Inv(s) && size >= ZoneLimit(s.zoneSize) && (n - 1) * PAGE < size <= n * PAGE
    ensures var (r, x) := Malloc(s, size);
            var (q, p) := Pages.Alloc(s.q, n);
            if p.None? then r == s && x == None
            else r == s.(q := q, held := s.held[p.value := n], usage := s.usage[p.value := LARGE(n)]) && x == Some(Large(p.value))
  {
    RoundUpBounds(size, PAGE);
  }

  // ---------- rt_free ----------

  predicate IsLast(z: Zone, i: nat) {
    forall j: nat | j <= z.uindex :: LiveChunk(z, j) ==> j == i
  }

  /** Some other zone of the same class has a free chunk. */
  ghost predicate HasOther(s: Slab, z: nat)
    requires z in s.zones
  {
    exists y <- s.zones :: y != z && s.zones[y].index == s.zones[z].index && s.zones[y].nfree > 0
  }

  /** A chunk given back becomes the first on its zone's free list; a zone that had none free becomes the first on the list of
      its class. But if it was the last chunk handed out and another zone of the class has a free one, the zone goes into
      reserve; and if two are there already, its pages go back instead. */
  lemma ChunkFreeIs(s: Slab, z: nat, i: nat)
    requires Inv(s) && Live(s, Chunk(z, i))
    ensures var r, zone := Free(s, Chunk(z, i)), s.zones[z];
            && r.zoneSize == s.zoneSize
            && if IsLast(zone, i) && HasOther(s, z) then
                 && r.zones == s.zones - {z}
                 && (if |s.spare| < 2 then r.spare == [z] + s.spare && r.q == s.q && r.held == s.held && r.usage == s.usage
                     else var n := s.zoneSize / PAGE;
                          && r.spare == s.spare && r.q == Pages.Free(s.q, z, n) && r.held == s.held - {z}
                          && PagesFree(r, z, n) && SameElsewhere(s, r, z, n))
               else
                 && r.zones == s.zones[z := zone.(nfree := zone.nfree + 1, free := [i] + zone.free)]
                 && r.spare == s.spare && r.q == s.q && r.held == s.held && r.usage == s.usage
                 && zone.index < |s.arrays|
                 && r.arrays == if zone.nfree == 0 then s.arrays[zone.index := [z] + s.arrays[zone.index]] else s.arrays
  {
    hide Pages.HeldOk, UsageOk, NMax, NoDup, Retire, IsRetired, IsLast, HasOther, ZoneInv, ArraysOk, ZonesOk, OneLess, LiveChunk;
    LiveChunkBound(s, z, i);
    PutBackKeeps(s, z, i);
    RetiredIff(s, z, i);
    PutBackIs(s, z, i);
    var t := PutBack(s, z, i);
    if IsRetired(t, z) {
      RetireIs(t, z);
    }
  }

  lemma PutBackIs(s: Slab, z: nat, i: nat)
    requires Inv(s) && Live(s, Chunk(z, i))
    ensures z in s.zones && s.zones[z].index < |s.arrays| == NZONES
    ensures var t, zone := PutBack(s, z, i), s.zones[z];
            && z in t.zones && t.zones[z].index == zone.index && t.zones[z].size == zone.size > 0
            && t.zones == s.zones[z := zone.(nfree := zone.nfree + 1, free := [i] + zone.free)]
            && t.zones - {z} == s.zones - {z}
            && t.arrays == (if zone.nfree == 0 then s.arrays[zone.index := [z] + s.arrays[zone.index]] else s.arrays)
            && t == s.(zones := t.zones, arrays := t.arrays)
            && Free(s, Chunk(z, i)) == if IsRetired(t, z) then Retire(t, z) else t
  {
    hide Pages.HeldOk, UsageOk, NMax, NoDup, Retire, IsRetired;
    LiveChunkBound(s, z, i);
  }

  lemma RetireIs(t: Slab, z: nat)
    requires |t.arrays| == NZONES && z in t.zones && t.zones[z].index < NZONES && |t.spare| <= 2
    ensures var r := Retire(t, z);
            && r.zoneSize == t.zoneSize && r.zones == t.zones - {z}
            && (if |t.spare| < 2 then r.spare == [z] + t.spare && r.q == t.q && r.held == t.held && r.usage == t.usage
                else var n := t.zoneSize / PAGE;
                     && r.spare == t.spare && r.q == Pages.Free(t.q, z, n) && r.held == t.held - {z}
                     && PagesFree(r, z, n) && SameElsewhere(t, r, z, n))
  {
    hide Without, Pages.Free;
    assert ([z] + t.spare)[1..] == t.spare;
  }

  lemma RetiredIff(s: Slab, z: nat, i: nat)
    requires Inv(s) && Live(s, Chunk(z, i)) && z in s.zones && ZoneInv(s.zoneSize, s.zones[z])
    ensures var t := PutBack(s, z, i);
            && z in t.zones && t.zones[z].size > 0
            && (IsRetired(t, z) <==> IsLast(s.zones[z], i) && HasOther(s, z))
  {
    hide Pages.HeldOk, UsageOk, NMax, NoDup, LiveChunk;
    var t, zone := PutBack(s, z, i), s.zones[z];
    PutBackKeeps(s, z, i);
    GiveChunkKeeps(s.zoneSize, zone, i);
    AllFreeIff(s.zoneSize, t.zones[z]);
    LastIff(zone, i, t.zones[z]);
    OthersIff(t, z);
    assert HasOther(t, z) <==> HasOther(s, z);
  }

  lemma LastIff(z: Zone, i: nat, r: Zone)
    requires forall j: nat :: LiveChunk(r, j) <==> LiveChunk(z, j) && j != i
    ensures IsLast(z, i) <==> forall j: nat :: !LiveChunk(r, j)
  {
  }

  /** The list of its class holds a zone with a free chunk; it holds nothing else exactly if no other has one. */
  lemma OthersIff(s: Slab, z: nat)
    requires Inv(s) && z in s.zones && s.zones[z].index < NZONES && s.zones[z].nfree > 0
    ensures s.arrays[s.zones[z].index] == [z] <==> !HasOther(s, z)
  {
    hide Pages.HeldOk, UsageOk, SpareOk, ZonesOk;
    var q := s.arrays[s.zones[z].index];
    assert z in q;
    forall y | y in s.zones && y != z && s.zones[y].index == s.zones[z].index && s.zones[y].nfree > 0
      ensures y in q && q != [z]
    {
    }
    if q != [z] {
      OneOfTwo(q, z);
      var y :| y in q && y != z;
      assert y in s.zones && s.zones[y].index == s.zones[z].index && s.zones[y].nfree > 0;
    }
  }

  lemma OneOfTwo(q: seq<nat>, z: nat)
    requires NoDup(q) && z in q && q != [z]
    ensures exists y <- q :: y != z
  {
    assert |q| > 1;
    assert q[0] in q && q[1] in q;
  }

  /** A large block gives its pages back. */
  lemma LargeFreeIs(s: Slab, p: nat)
    requires Inv(s) && Live(s, Large(p))
    ensures p in s.held
    ensures Free(s, Large(p)) == s.(q := Pages.Free(s.q, p, s.held[p]), held := s.held - {p}, usage := s.usage[p := LARGE(0)])
  {
  }
}
