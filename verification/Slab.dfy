/** The slab allocator: zones of equal chunks and runs of whole pages, the zone lists, and the page table. A zone and a
    large block are named by their first page; addresses are in bytes. */
module Slab {
  import opened Options
  import opened Seqs
  import opened SlabZones
  import Pages

  // ---------- one zone ----------

  /** z_zoneindex, z_chunksize, z_nfree, z_uindex and the free-chunk list, by chunk number. */
  datatype Zone = Zone(index: nat, size: nat, nfree: nat, uindex: nat, free: seq<nat>)

  /** z_nfree counts the chunks never used and those on the free list; the list holds used chunks, each once. */
  ghost predicate ZoneInv(zoneSize: nat, z: Zone) {
    && z.index < NZONES && z.size == SizeOf(z.index)
    && HEADER <= Base(z.size) && 2 <= NMax(zoneSize, z.size) && Base(z.size) + NMax(zoneSize, z.size) * z.size <= zoneSize
    && z.uindex < NMax(zoneSize, z.size)
    && NoDup(z.free) && (forall i <- z.free :: i <= z.uindex)
    && z.nfree + z.uindex + 1 == NMax(zoneSize, z.size) + |z.free|
  }

  /** Chunk i is handed out. */
  predicate LiveChunk(z: Zone, i: nat) {
    i <= z.uindex && i !in z.free
  }

  /** A zone just laid out for a class, with its first chunk handed out. */
  function NewZone(zoneSize: nat, c: Class): Zone
    requires c.size > 0 && NMax(zoneSize, c.size) > 0
  {
    Zone(c.index, c.size, NMax(zoneSize, c.size) - 1, 0, [])
  }

  lemma NewZoneKeeps(zoneSize: nat, n: nat)
    requires ZoneSizeOk(zoneSize) && 0 < n < ZoneLimit(zoneSize)
    ensures var c := ZoneIndex(n);
            && NMax(zoneSize, c.size) > 0 && ZoneInv(zoneSize, NewZone(zoneSize, c))
            && forall i: nat :: LiveChunk(NewZone(zoneSize, c), i) <==> i == 0
  {
    ZoneHoldsChunks(zoneSize, n);
    ZoneIndexIsSmallestClass(n);
  }

  /** Takes a chunk: a never-used one while there is any, else the first on the free list. */
  function TakeChunk(zoneSize: nat, z: Zone): (Zone, nat)
    requires z.size > 0 && z.nfree > 0 && (z.uindex + 1 == NMax(zoneSize, z.size) ==> z.free != [])
  {
    if z.uindex + 1 != NMax(zoneSize, z.size) then (z.(nfree := z.nfree - 1, uindex := z.uindex + 1), z.uindex + 1)
    else (z.(nfree := z.nfree - 1, free := z.free[1..]), z.free[0])
  }

  lemma TakeChunkKeeps(zoneSize: nat, z: Zone)
    requires ZoneInv(zoneSize, z) && z.nfree > 0
    ensures z.uindex + 1 == NMax(zoneSize, z.size) ==> z.free != []
    ensures var (r, i) := TakeChunk(zoneSize, z);
            && ZoneInv(zoneSize, r) && r.index == z.index && r.size == z.size && r.nfree == z.nfree - 1
            && i < NMax(zoneSize, z.size) && !LiveChunk(z, i)
            && forall j: nat :: LiveChunk(r, j) <==> LiveChunk(z, j) || j == i
  {
    if z.uindex + 1 == NMax(zoneSize, z.size) {
      HeadOut(z.free);
    }
  }

  lemma HeadOut(q: seq<nat>)
    requires NoDup(q) && q != []
    ensures NoDup(q[1..]) && q[0] in q && forall x :: x in q[1..] <==> x in q && x != q[0]
  {
    assert q == [q[0]] + q[1..];
    assert q[0] !in q[1..];
  }

  /** Puts a chunk on the free list. */
  function GiveChunk(z: Zone, i: nat): Zone {
    z.(nfree := z.nfree + 1, free := [i] + z.free)
  }

  lemma GiveChunkKeeps(zoneSize: nat, z: Zone, i: nat)
    requires ZoneInv(zoneSize, z) && LiveChunk(z, i)
    ensures var r := GiveChunk(z, i);
            ZoneInv(zoneSize, r) && forall j: nat :: LiveChunk(r, j) <==> LiveChunk(z, j) && j != i
    ensures i < NMax(zoneSize, z.size)
  {
  }

  /** All chunks are free exactly if none is handed out. */
  lemma AllFreeIff(zoneSize: nat, z: Zone)
    requires ZoneInv(zoneSize, z)
    ensures z.nfree == NMax(zoneSize, z.size) <==> forall i: nat :: !LiveChunk(z, i)
  {
    if |z.free| == z.uindex + 1 {
      forall i: nat | i <= z.uindex
        ensures i in z.free
      {
        Pigeonhole(z.free, z.uindex + 1, i);
      }
    } else if forall i: nat :: !LiveChunk(z, i) {
      forall i: nat | i < z.uindex + 1
        ensures i in z.free
      {
        assert !LiveChunk(z, i);
      }
      ListOfAll(z.free, z.uindex + 1);
    }
  }

  /** A list without repetition of n numbers below n holds all of them. */
  lemma Pigeonhole(q: seq<nat>, n: nat, i: nat)
    requires NoDup(q) && |q| == n && (forall x <- q :: x < n) && i < n
    ensures i in q
  {
    if i !in q {
      AtMost(q, UpTo(n) - {i});
    }
  }

  lemma ListOfAll(q: seq<nat>, n: nat)
    requires NoDup(q) && (forall x <- q :: x < n) && forall i: nat | i < n :: i in q
    ensures |q| == n
  {
    AtMost(q, UpTo(n));
    AtLeast(q, n);
  }

  lemma {:induction false} AtLeast(q: seq<nat>, n: nat)
    requires forall i: nat | i < n :: i in q
    ensures n <= |q|
    decreases n
  {
    if n > 0 {
      assert n - 1 in q;
      var k :| 0 <= k < |q| && q[k] == n - 1;
      var r := q[..k] + q[k + 1..];
      forall i: nat | i < n - 1
        ensures i in r
      {
        assert i in q;
        var m :| 0 <= m < |q| && q[m] == i;
        assert r[if m < k then m else m - 1] == i;
      }
      AtLeast(r, n - 1);
    }
  }

  // ---------- the allocator ----------

  /** The type and size fields of a page's entry in memusage. */
  datatype Usage = FREE | SMALL(off: nat) | LARGE(count: nat)

  /** q and held are the page allocator's list and what it has handed out; zones are the zones in use; arrays is
      zone_array and spare is zone_free; usage is the page table. */
  datatype Slab = Slab(zoneSize: nat, q: seq<Pages.Run>, held: map<nat, nat>, zones: map<nat, Zone>,
                       arrays: seq<seq<nat>>, spare: seq<nat>, usage: map<nat, Usage>)

  function ZonePages(s: Slab): nat {
    s.zoneSize / PAGE
  }

  predicate IsZone(s: Slab, z: nat) {
    z in s.zones || z in s.spare
  }

  predicate IsLarge(s: Slab, p: nat) {
    p in s.held && !IsZone(s, p)
  }

  /** zone_array lists, for each index, the zones of that class that have a free chunk, each once. */
  ghost predicate ArraysOk(zones: map<nat, Zone>, arrays: seq<seq<nat>>) {
    && |arrays| == NZONES
    && (forall i | 0 <= i < NZONES :: NoDup(arrays[i]))
    && forall i, z | 0 <= i < NZONES :: z in arrays[i] <==> z in zones && zones[z].index == i && zones[z].nfree > 0
  }

  /** At most two zones are kept in reserve; they are not in use. */
  ghost predicate SpareOk(zones: map<nat, Zone>, spare: seq<nat>) {
    NoDup(spare) && |spare| <= 2 && forall z <- spare :: z !in zones
  }

  /** The page table leads from every page of a zone to the zone, and from a large block's first page to its length. */
  ghost predicate UsageOk(s: Slab) {
    && (forall z: nat, x: nat | IsZone(s, z) && Pages.InRun(z, ZonePages(s), x) :: x in s.usage && s.usage[x] == SMALL(x - z))
    && forall p: nat | IsLarge(s, p) :: p in s.usage && s.usage[p] == LARGE(s.held[p])
  }

  ghost predicate ZonesOk(s: Slab) {
    && (forall z <- s.zones :: ZoneInv(s.zoneSize, s.zones[z]))
    && forall z: nat | IsZone(s, z) :: z in s.held && s.held[z] == ZonePages(s)
  }

  ghost predicate Inv(s: Slab) {
    && ZoneSizeOk(s.zoneSize) && Pages.HeldOk(s.q, s.held)
    && ZonesOk(s) && ArraysOk(s.zones, s.arrays) && SpareOk(s.zones, s.spare) && UsageOk(s)
  }

  // ---------- what is handed out ----------

  /** A block handed out: a large block, or a chunk of a zone. */
  datatype Place = Large(p: nat) | Chunk(z: nat, i: nat)

  predicate Live(s: Slab, x: Place) {
    match x
    case Large(p) => IsLarge(s, p)
    case Chunk(z, i) => z in s.zones && LiveChunk(s.zones[z], i)
  }

  function ChunkAddr(z: nat, size: nat, i: nat): nat
    requires size > 0
  {
    z * PAGE + Base(size) + i * size
  }

  function Addr(s: Slab, x: Place): nat
    requires x.Chunk? ==> x.z in s.zones && s.zones[x.z].size > 0
  {
    match x
    case Large(p) => p * PAGE
    case Chunk(z, i) => ChunkAddr(z, s.zones[z].size, i)
  }

  function Length(s: Slab, x: Place): nat
    requires Live(s, x)
  {
    match x
    case Large(p) => s.held[p] * PAGE
    case Chunk(z, i) => s.zones[z].size
  }

  /** How rt_free finds the block of an address: by the page table entry of its page. */
  function Find(s: Slab, a: nat): Option<Place> {
    var page := a / PAGE;
    if page !in s.usage then None
    else match s.usage[page]
      case FREE => None
      case LARGE(_) => Some(Large(page))
      case SMALL(off) => if off <= page then FindInZone(s, page - off, a) else None
  }

  function FindInZone(s: Slab, z: nat, a: nat): Option<Place> {
    if z !in s.zones || s.zones[z].size == 0 then None
    else
      var size := s.zones[z].size;
      var first := z * PAGE + Base(size);
      if a < first then None else Some(Chunk(z, ChunkAt(a - first, size)))
  }

  /** The number of the chunk at a distance from the first. */
  function ChunkAt(d: nat, size: nat): nat
    requires size > 0
  {
    d / size
  }

  /** A chunk lies inside its zone, behind the header. */
  lemma ChunkInZone(zoneSize: nat, size: nat, z: nat, i: nat)
    requires ZoneSizeOk(zoneSize) && size > 0 && HEADER <= Base(size) && i < NMax(zoneSize, size)
    requires Base(size) + NMax(zoneSize, size) * size <= zoneSize
    ensures z * PAGE + HEADER <= ChunkAddr(z, size, i) && ChunkAddr(z, size, i) + size <= (z + zoneSize / PAGE) * PAGE
    ensures Pages.InRun(z, zoneSize / PAGE, ChunkAddr(z, size, i) / PAGE)
  {
    MulOrder(i, NMax(zoneSize, size), size);
    assert zoneSize / PAGE * PAGE == zoneSize;
  }

  lemma LiveChunkBound(s: Slab, z: nat, i: nat)
    requires Inv(s) && Live(s, Chunk(z, i))
    ensures ZoneInv(s.zoneSize, s.zones[z]) && i < NMax(s.zoneSize, s.zones[z].size) && IsZone(s, z)
    ensures z in s.held && s.held[z] == ZonePages(s)
  {
    assert IsZone(s, z);
  }

  /** The page table recovers every live block, zone and chunk number included, from its address. */
  lemma LiveIsFound(s: Slab, x: Place)
    requires Inv(s) && Live(s, x)
    ensures x.Chunk? ==> s.zones[x.z].size > 0
    ensures Find(s, Addr(s, x)) == Some(x)
  {
    match x
    case Large(p) => MulMod(p, PAGE);
    case Chunk(z, i) =>
      LiveChunkBound(s, z, i);
      ChunkInZone(s.zoneSize, s.zones[z].size, z, i);
      ChunkIsFound(s, z, s.zones[z].size, i, ChunkAddr(z, s.zones[z].size, i) / PAGE);
  }

  lemma ChunkIsFound(s: Slab, z: nat, size: nat, i: nat, page: nat)
    requires z in s.zones && s.zones[z].size == size > 0 && page == ChunkAddr(z, size, i) / PAGE
    requires page in s.usage && z <= page && s.usage[page] == SMALL(page - z)
    ensures Find(s, ChunkAddr(z, size, i)) == Some(Chunk(z, i))
  {
    ChunkNumber(z, size, i);
  }

  lemma ChunkNumber(z: nat, size: nat, i: nat)
    requires size > 0
    ensures ChunkAddr(z, size, i) >= z * PAGE + Base(size) && ChunkAt(ChunkAddr(z, size, i) - (z * PAGE + Base(size)), size) == i
  {
    MulMod(i, size);
    var a := ChunkAddr(z, size, i) - (z * PAGE + Base(size));
    assert a == i * size;
  }

  /** Live blocks do not overlap, and no chunk overlaps a zone header. */
  lemma LiveBlocksAreDisjoint(s: Slab, x: Place, y: Place)
    requires Inv(s) && Live(s, x) && Live(s, y) && x != y
    ensures (x.Chunk? ==> s.zones[x.z].size > 0) && (y.Chunk? ==> s.zones[y.z].size > 0)
    ensures Addr(s, x) + Length(s, x) <= Addr(s, y) || Addr(s, y) + Length(s, y) <= Addr(s, x)
    ensures x.Chunk? ==> x.z * PAGE + HEADER <= Addr(s, x)
  {
    WithinRegion(s, x);
    WithinRegion(s, y);
    if x.Chunk? && y.Chunk? && x.z == y.z {
      var size := s.zones[x.z].size;
      if x.i < y.i {
        MulOrder(x.i, y.i, size);
      } else {
        MulOrder(y.i, x.i, size);
      }
    } else {
      RegionsApart(s, Region(x), Region(y));
    }
  }

  /** The allocation of pages a block lies in. */
  function Region(x: Place): nat {
    match x
    case Large(p) => p
    case Chunk(z, _) => z
  }

  lemma WithinRegion(s: Slab, x: Place)
    requires Inv(s) && Live(s, x)
    ensures x.Chunk? ==> s.zones[x.z].size > 0 && x.z * PAGE + HEADER <= Addr(s, x)
    ensures var r := Region(x);
            && r in s.held && r * PAGE <= Addr(s, x) && Addr(s, x) + Length(s, x) <= (r + s.held[r]) * PAGE
  {
    match x
    case Large(p) =>
    case Chunk(z, i) =>
      LiveChunkBound(s, z, i);
      ChunkInZone(s.zoneSize, s.zones[z].size, z, i);
  }

  lemma RegionsApart(s: Slab, p: nat, r: nat)
    requires Inv(s) && p in s.held && r in s.held && p != r
    ensures p + s.held[p] <= r || r + s.held[r] <= p
  {
    if p < r < p + s.held[p] {
      assert Pages.InRun(p, s.held[p], r) && Pages.InRun(r, s.held[r], r);
    } else if r < p < r + s.held[r] {
      assert Pages.InRun(p, s.held[p], p) && Pages.InRun(r, s.held[r], p);
    }
  }

  // ---------- rt_malloc ----------

  /** The loop that makes n pages those of a zone at z. */
  function MarkSmall(usage: map<nat, Usage>, z: nat, n: nat): (r: map<nat, Usage>)
    ensures forall x: nat | Pages.InRun(z, n, x) :: x in r && r[x] == SMALL(x - z)
    ensures forall x: nat | !Pages.InRun(z, n, x) :: (x in r <==> x in usage) && (x in r ==> r[x] == usage[x])
  {
    if n == 0 then usage else MarkSmall(usage, z, n - 1)[z + n - 1 := SMALL(n - 1)]
  }

  /** The loop that clears the entries of n pages. */
  function MarkFree(usage: map<nat, Usage>, z: nat, n: nat): (r: map<nat, Usage>)
    ensures forall x: nat | Pages.InRun(z, n, x) :: x in r && r[x] == FREE
    ensures forall x: nat | !Pages.InRun(z, n, x) :: (x in r <==> x in usage) && (x in r ==> r[x] == usage[x])
  {
    if n == 0 then usage else MarkFree(usage, z, n - 1)[z + n - 1 := FREE]
  }

  function PagesFor(size: nat): nat {
    (size + PAGE - 1) / PAGE
  }

  /** A request of at least the zone limit takes whole pages. */
  function MallocLarge(s: Slab, size: nat): (Slab, Option<Place>) {
    var (q, p) := Pages.Alloc(s.q, PagesFor(size));
    if p.None? then (s, None)
    else
      (s.(q := q, held := s.held[p.value := PagesFor(size)], usage := s.usage[p.value := LARGE(PagesFor(size))]), Some(Large(p.value)))
  }

  /** A chunk from the first zone in the class's list; the zone leaves the list with its last free chunk. */
  function TakeFrom(s: Slab, i: nat): (Slab, Option<Place>)
    requires Inv(s) && i < NZONES && s.arrays[i] != []
  {
    var z := s.arrays[i][0];
    assert z in s.arrays[i];
    TakeChunkKeeps(s.zoneSize, s.zones[z]);
    var (zone, k) := TakeChunk(s.zoneSize, s.zones[z]);
    (s.(zones := s.zones[z := zone], arrays := if zone.nfree == 0 then s.arrays[i := s.arrays[i][1..]] else s.arrays),
     Some(Chunk(z, k)))
  }

  /** A new zone for the class, in reserved or in new pages, with its first chunk taken. */
  function AddZone(s: Slab, c: Class): (Slab, Option<Place>)
    requires |s.arrays| == NZONES && c.index < NZONES && c.size > 0 && NMax(s.zoneSize, c.size) > 0
  {
    var zone := NewZone(s.zoneSize, c);
    if s.spare != [] then
      var z := s.spare[0];
      (s.(spare := s.spare[1..], zones := s.zones[z := zone], arrays := s.arrays[c.index := [z] + s.arrays[c.index]]),
       Some(Chunk(z, 0)))
    else
      var (q, p) := Pages.Alloc(s.q, ZonePages(s));
      if p.None? then (s, None)
      else
        var z := p.value;
        (s.(q := q, held := s.held[z := ZonePages(s)], usage := MarkSmall(s.usage, z, ZonePages(s)),
            zones := s.zones[z := zone], arrays := s.arrays[c.index := [z] + s.arrays[c.index]]),
         Some(Chunk(z, 0)))
  }

  /** rt_malloc. */
  function Malloc(s: Slab, size: nat): (Slab, Option<Place>)
    requires Inv(s)
  {
    if size == 0 then (s, None)
    else if size >= ZoneLimit(s.zoneSize) then MallocLarge(s, size)
    else
      NewZoneKeeps(s.zoneSize, size);
      ZoneIndexIsSmallestClass(size);
      if s.arrays[ZoneIndex(size).index] != [] then TakeFrom(s, ZoneIndex(size).index) else AddZone(s, ZoneIndex(size))
  }

  /** What a step does to the blocks handed out: x is added, and nothing else changes. */
  ghost predicate OneMore(s: Slab, r: Slab, x: Place) {
    && !Live(s, x) && Live(r, x)
    && (forall y | y != x :: Live(r, y) <==> Live(s, y))
    && (forall y | Live(s, y) :: Live(r, y) && Length(r, y) == Length(s, y))
  }

  lemma MallocLargeKeeps(s: Slab, size: nat)
    requires Inv(s) && size > 0
    ensures var (r, x) := MallocLarge(s, size);
            && Inv(r) && r.zoneSize == s.zoneSize && (x.None? ==> r == s)
            && (x.Some? ==> OneMore(s, r, x.value) && Length(r, x.value) >= size)
  {
    hide NoDup, ArraysOk, UsageOk, ZonesOk, OneMore;
    var n := PagesFor(size);
    var (q, p) := Pages.Alloc(s.q, n);
    if p.Some? {
      Pages.AllocHeld(s.q, s.held, n);
      HeldNotUsed(s, q, p.value, n);
      LargeKeepsUsage(s, q, p.value, n);
    }
  }

  lemma LargeKeepsUsage(s: Slab, q: seq<Pages.Run>, p: nat, n: nat)
    requires ZonesOk(s) && UsageOk(s) && p !in s.held && !IsZone(s, p) && Pages.InRun(p, n, p)
    requires forall z: nat, x: nat | IsZone(s, z) && Pages.InRun(p, n, x) :: !Pages.InRun(z, ZonePages(s), x)
    ensures var r := s.(q := q, held := s.held[p := n], usage := s.usage[p := LARGE(n)]);
            ZonesOk(r) && UsageOk(r) && OneMore(s, r, Large(p))
  {
    hide ZoneInv, LiveChunk, Pages.InRun;
    var r := s.(q := q, held := s.held[p := n], usage := s.usage[p := LARGE(n)]);
    assert forall z: nat :: IsZone(r, z) <==> IsZone(s, z);
  }

  /** Another record for a zone in use, with the lists to match. */
  lemma ReplacedZoneKeeps(s: Slab, z: nat, zone: Zone, arrays: seq<seq<nat>>)
    requires Inv(s) && z in s.zones && ZoneInv(s.zoneSize, zone) && ArraysOk(s.zones[z := zone], arrays)
    ensures Inv(s.(zones := s.zones[z := zone], arrays := arrays))
  {
    hide ZoneInv, ArraysOk, Pages.HeldOk, NoDup, Pages.InRun;
    var r := s.(zones := s.zones[z := zone], arrays := arrays);
    assert forall y: nat :: IsZone(r, y) <==> IsZone(s, y);
  }

  /** Pages just handed out are in no zone. */
  lemma HeldNotUsed(s: Slab, q: seq<Pages.Run>, p: nat, n: nat)
    requires Inv(s) && n > 0 && p !in s.held && Pages.HeldOk(q, s.held[p := n])
    ensures forall z: nat, x: nat | IsZone(s, z) && Pages.InRun(p, n, x) :: !Pages.InRun(z, ZonePages(s), x)
    ensures !IsZone(s, p)
    ensures forall r: nat, x: nat | r in s.held && Pages.InRun(p, n, x) :: !Pages.InRun(r, s.held[r], x)
  {
    var held := s.held[p := n];
    forall r: nat, x: nat | r in s.held && Pages.InRun(p, n, x)
      ensures !Pages.InRun(r, s.held[r], x)
    {
      assert Pages.InRun(p, held[p], x) && held[r] == s.held[r];
    }
    forall z: nat, x: nat | IsZone(s, z) && Pages.InRun(p, n, x)
      ensures !Pages.InRun(z, ZonePages(s), x)
    {
      assert s.held[z] == ZonePages(s);
    }
  }

  lemma TakeFromKeeps(s: Slab, i: nat)
    requires Inv(s) && i < NZONES && s.arrays[i] != []
    ensures var (r, x) := TakeFrom(s, i);
            && Inv(r) && r.zoneSize == s.zoneSize
            && x.Some? && OneMore(s, r, x.value) && Length(r, x.value) == SizeOf(i)
  {
    hide Pages.HeldOk, NMax, NoDup, UsageOk, SpareOk, OneMore, LiveChunk;
    var z := s.arrays[i][0];
    assert z in s.arrays[i];
    TakeChunkKeeps(s.zoneSize, s.zones[z]);
    var (r, x) := TakeFrom(s, i);
    var (zone, k) := TakeChunk(s.zoneSize, s.zones[z]);
    ArraysAfterTake(s.zones, s.arrays, i, zone);
    ReplacedZoneKeeps(s, z, zone, r.arrays);
    OneMoreChunk(s, r, z, zone, k);
  }

  lemma OneMoreChunk(s: Slab, r: Slab, z: nat, zone: Zone, k: nat)
    requires z in s.zones && r.zones == s.zones[z := zone] && r.held == s.held && r.spare == s.spare
    requires !LiveChunk(s.zones[z], k) && zone.size == s.zones[z].size
    requires forall j: nat :: LiveChunk(zone, j) <==> LiveChunk(s.zones[z], j) || j == k
    ensures OneMore(s, r, Chunk(z, k))
  {
    assert forall y: nat :: IsZone(r, y) <==> IsZone(s, y);
  }

  lemma ArraysAfterTake(zones: map<nat, Zone>, arrays: seq<seq<nat>>, i: nat, zone: Zone)
    requires ArraysOk(zones, arrays) && i < NZONES && arrays[i] != [] && zone.index == i
    requires arrays[i][0] in zones && zone.nfree + 1 == zones[arrays[i][0]].nfree
    ensures ArraysOk(zones[arrays[i][0] := zone], if zone.nfree == 0 then arrays[i := arrays[i][1..]] else arrays)
  {
    var z := arrays[i][0];
    HeadOut(arrays[i]);
    assert zones[z].index == i;
  }

  lemma AddZoneKeeps(s: Slab, n: nat)
    requires Inv(s) && 0 < n < ZoneLimit(s.zoneSize)
    ensures var c := ZoneIndex(n);
            && c.index < NZONES && c.size > 0 && NMax(s.zoneSize, c.size) > 0
            && (s.arrays[c.index] == [] ==>
                  var (r, x) := AddZone(s, c);
                  && Inv(r) && r.zoneSize == s.zoneSize && (x.None? ==> r == s)
                  && (x.Some? ==> OneMore(s, r, x.value) && Length(r, x.value) == c.size))
  {
    var c := ZoneIndex(n);
    NewZoneKeeps(s.zoneSize, n);
    ZoneIndexIsSmallestClass(n);
    if s.arrays[c.index] == [] {
      if s.spare != [] {
        ReuseZoneKeeps(s, c);
      } else {
        NewPagesKeep(s, c);
      }
    }
  }

  lemma ReuseZoneKeeps(s: Slab, c: Class)
    requires Inv(s) && s.spare != [] && c.index < NZONES && c.size > 0 && NMax(s.zoneSize, c.size) > 0 && s.arrays[c.index] == []
    requires ZoneInv(s.zoneSize, NewZone(s.zoneSize, c)) && forall i: nat :: LiveChunk(NewZone(s.zoneSize, c), i) <==> i == 0
    ensures var (r, x) := AddZone(s, c);
            && Inv(r) && r.zoneSize == s.zoneSize && x.Some? && OneMore(s, r, x.value) && Length(r, x.value) == c.size
  {
    var z, zone := s.spare[0], NewZone(s.zoneSize, c);
    var (r, x) := AddZone(s, c);
    HeadOut(s.spare);
    ArraysAfterPush(s.zones, s.arrays, z, zone);
    assert forall y: nat :: IsZone(r, y) <==> IsZone(s, y);
    OneMoreZone(s, r, z, zone);
  }

  /** A zone with free chunks that is on no list is put in front of its class's list. */
  lemma ArraysAfterPush(zones: map<nat, Zone>, arrays: seq<seq<nat>>, z: nat, zone: Zone)
    requires ArraysOk(zones, arrays) && zone.index < NZONES && zone.nfree > 0
    requires z in zones ==> zones[z].nfree == 0
    ensures ArraysOk(zones[z := zone], arrays[zone.index := [z] + arrays[zone.index]])
  {
    assert forall i | 0 <= i < NZONES :: z !in arrays[i];
    assert forall y :: y in [z] + arrays[zone.index] <==> y == z || y in arrays[zone.index];
  }

  lemma NewPagesKeep(s: Slab, c: Class)
    requires Inv(s) && s.spare == [] && c.index < NZONES && c.size > 0 && NMax(s.zoneSize, c.size) > 0 && s.arrays[c.index] == []
    requires ZoneInv(s.zoneSize, NewZone(s.zoneSize, c)) && forall i: nat :: LiveChunk(NewZone(s.zoneSize, c), i) <==> i == 0
    ensures var (r, x) := AddZone(s, c);
            && Inv(r) && r.zoneSize == s.zoneSize && (x.None? ==> r == s)
            && (x.Some? ==> OneMore(s, r, x.value) && Length(r, x.value) == c.size)
  {
    hide NMax, NoDup, Pages.InRun, LiveChunk, MarkSmall, ZonesOk;
    var n := ZonePages(s);
    var (q, p) := Pages.Alloc(s.q, n);
    if p.Some? {
      var z, zone := p.value, NewZone(s.zoneSize, c);
      Pages.AllocHeld(s.q, s.held, n);
      HeldNotUsed(s, q, z, n);
      ArraysAfterPush(s.zones, s.arrays, z, zone);
      var (r, x) := AddZone(s, c);
      assert forall y: nat :: IsZone(r, y) <==> IsZone(s, y) || y == z;
      NewZoneUsage(s, r, z);
      NewZoneListed(s, r, z, zone);
      OneMoreZone(s, r, z, zone);
    }
  }

  lemma NewZoneListed(s: Slab, r: Slab, z: nat, zone: Zone)
    requires ZonesOk(s) && z !in s.held && ZoneInv(s.zoneSize, zone) && r.zoneSize == s.zoneSize
    requires r.zones == s.zones[z := zone] && r.held == s.held[z := ZonePages(s)] && r.spare == s.spare
    ensures ZonesOk(r)
    ensures forall p: nat :: IsLarge(r, p) <==> IsLarge(s, p)
    ensures forall p: nat | IsLarge(s, p) :: p in r.held && r.held[p] == s.held[p]
  {
    hide ZoneInv;
    assert forall y: nat :: IsZone(r, y) <==> IsZone(s, y) || y == z;
  }

  lemma OneMoreZone(s: Slab, r: Slab, z: nat, zone: Zone)
    requires z !in s.zones && r.zones == s.zones[z := zone] && forall i: nat :: LiveChunk(zone, i) <==> i == 0
    requires forall p: nat :: IsLarge(r, p) <==> IsLarge(s, p)
    requires forall p: nat | IsLarge(s, p) :: p in r.held && r.held[p] == s.held[p]
    ensures OneMore(s, r, Chunk(z, 0))
  {
  }

  lemma NewZoneUsage(s: Slab, r: Slab, z: nat)
    requires Inv(s) && z !in s.held && r.zoneSize == s.zoneSize
    requires r.held == s.held[z := ZonePages(s)] && r.usage == MarkSmall(s.usage, z, ZonePages(s))
    requires forall y: nat :: IsZone(r, y) <==> IsZone(s, y) || y == z
    requires forall y: nat, x: nat | IsZone(s, y) && Pages.InRun(z, ZonePages(s), x) :: !Pages.InRun(y, ZonePages(s), x)
    requires forall y: nat, x: nat | y in s.held && Pages.InRun(z, ZonePages(s), x) :: !Pages.InRun(y, s.held[y], x)
    ensures UsageOk(r)
  {
    forall y: nat | IsLarge(r, y)
      ensures y in r.usage && r.usage[y] == LARGE(r.held[y])
    {
      assert Pages.InRun(y, s.held[y], y);
    }
  }

  /** rt_malloc hands out one block that was not handed out, long enough, or changes nothing. */
  lemma MallocKeeps(s: Slab, size: nat)
    requires Inv(s)
    ensures var (r, x) := Malloc(s, size);
            && Inv(r) && r.zoneSize == s.zoneSize && (x.None? ==> r == s)
            && (x.Some? ==> OneMore(s, r, x.value) && Length(r, x.value) >= size)
  {
    if size == 0 {
    } else if size >= ZoneLimit(s.zoneSize) {
      MallocLargeKeeps(s, size);
    } else {
      var c := ZoneIndex(size);
      ZoneIndexIsSmallestClass(size);
      AddZoneKeeps(s, size);
      if s.arrays[c.index] != [] {
        TakeFromKeeps(s, c.index);
      }
    }
  }

  function PagesNeeded(s: Slab, size: nat): nat {
    if size >= ZoneLimit(s.zoneSize) then PagesFor(size) else ZonePages(s)
  }

  /** What rt_malloc hands out and when it fails: below the limit a chunk of exactly the smallest class that
      holds the request, from it upwards whole pages and less than a page too much; and it fails only
      for size zero or when no run of free pages is long enough for what it would need. */
  lemma MallocSizes(s: Slab, size: nat)
    requires Inv(s)
    ensures var (r, x) := Malloc(s, size);
            && (x.Some? && size < ZoneLimit(s.zoneSize) ==>
                  x.value.Chunk? && Live(r, x.value) && Length(r, x.value) == ZoneIndex(size).size)
            && (x.Some? && size >= ZoneLimit(s.zoneSize) ==>
                  x.value.Large? && Live(r, x.value) && Length(r, x.value) == PagesFor(size) * PAGE)
            && size <= PagesFor(size) * PAGE < size + PAGE
            && (x.None? && size != 0 ==> forall i | 0 <= i < |s.q| :: s.q[i].count < PagesNeeded(s, size))
            && (size >= ZoneLimit(s.zoneSize) && size != 0 ==>
                  (x.None? <==> forall i | 0 <= i < |s.q| :: s.q[i].count < PagesFor(size)))
  {
    RoundUpBounds(size, PAGE);
    if size == 0 {
    } else if size >= ZoneLimit(s.zoneSize) {
      MallocLargeKeeps(s, size);
      Pages.TakeKeeps(s.q, PagesFor(size), 0);
    } else {
      var c := ZoneIndex(size);
      ZoneIndexIsSmallestClass(size);
      AddZoneKeeps(s, size);
      if s.arrays[c.index] != [] {
        TakeFromKeeps(s, c.index);
      } else if s.spare == [] {
        Pages.TakeKeeps(s.q, ZonePages(s), 0);
      }
    }
  }

  // ---------- rt_free ----------

  function FreeLarge(s: Slab, p: nat): Slab
    requires p in s.held
  {
    s.(q := Pages.Free(s.q, p, s.held[p]), held := s.held - {p}, usage := s.usage[p := LARGE(0)])
  }

  /** The chunk goes to its zone's free list; a zone that had none free returns to its class's list. */
  function PutBack(s: Slab, z: nat, i: nat): Slab
    requires |s.arrays| == NZONES && z in s.zones && s.zones[z].index < NZONES
  {
    var zone := s.zones[z];
    s.(zones := s.zones[z := GiveChunk(zone, i)],
       arrays := if zone.nfree == 0 then s.arrays[zone.index := [z] + s.arrays[zone.index]] else s.arrays)
  }

  /** A zone that is entirely free goes into reserve unless it is the only one on its list; of more than two in reserve,
      the latest gives its pages back. */
  function Retire(s: Slab, z: nat): Slab
    requires |s.arrays| == NZONES && z in s.zones && s.zones[z].index < NZONES
  {
    var t := Reserve(s, z);
    if |t.spare| > 2 then Release(t, z) else t
  }

  function Reserve(s: Slab, z: nat): Slab
    requires |s.arrays| == NZONES && z in s.zones && s.zones[z].index < NZONES
  {
    var i := s.zones[z].index;
    s.(zones := s.zones - {z}, arrays := s.arrays[i := Without(s.arrays[i], z)], spare := [z] + s.spare)
  }

  function Release(t: Slab, z: nat): Slab
    requires t.spare != []
  {
    t.(spare := t.spare[1..], q := Pages.Free(t.q, z, ZonePages(t)), held := t.held - {z},
       usage := MarkFree(t.usage, z, ZonePages(t)))
  }

  predicate IsRetired(s: Slab, z: nat)
    requires |s.arrays| == NZONES && z in s.zones && s.zones[z].index < NZONES && s.zones[z].size > 0
  {
    s.zones[z].nfree == NMax(s.zoneSize, s.zones[z].size) && s.arrays[s.zones[z].index] != [z]
  }

  function FreeChunk(s: Slab, z: nat, i: nat): Slab
    requires |s.arrays| == NZONES && z in s.zones && s.zones[z].index < NZONES && s.zones[z].size > 0
  {
    var t := PutBack(s, z, i);
    if IsRetired(t, z) then Retire(t, z) else t
  }

  /** rt_free of a block handed out. */
  function Free(s: Slab, x: Place): Slab
    requires Inv(s) && Live(s, x)
  {
    match x
    case Large(p) => FreeLarge(s, p)
    case Chunk(z, i) =>
      LiveChunkBound(s, z, i);
      FreeChunk(s, z, i)
  }

  /** x is taken back, and nothing else changes. */
  ghost predicate OneLess(s: Slab, r: Slab, x: Place) {
    && !Live(r, x)
    && (forall y | y != x :: Live(r, y) <==> Live(s, y))
    && (forall y | Live(r, y) :: Live(s, y) && Length(r, y) == Length(s, y))
  }

  lemma FreeLargeKeeps(s: Slab, p: nat)
    requires Inv(s) && IsLarge(s, p)
    ensures var r := FreeLarge(s, p); Inv(r) && r.zoneSize == s.zoneSize && OneLess(s, r, Large(p))
  {
    Pages.FreeHeld(s.q, s.held, p);
    var r := FreeLarge(s, p);
    assert forall z: nat :: IsZone(r, z) <==> IsZone(s, z);
    forall z: nat, x: nat | IsZone(s, z) && Pages.InRun(z, ZonePages(s), x)
      ensures x != p
    {
      assert s.held[z] == ZonePages(s) && Pages.InRun(z, s.held[z], x) && Pages.InRun(p, s.held[p], p);
    }
  }

  lemma PutBackKeeps(s: Slab, z: nat, i: nat)
    requires Inv(s) && Live(s, Chunk(z, i))
    ensures ZoneInv(s.zoneSize, s.zones[z])
    ensures var r := PutBack(s, z, i);
            && Inv(r) && r.zoneSize == s.zoneSize && OneLess(s, r, Chunk(z, i))
            && z in r.zones && r.zones[z] == GiveChunk(s.zones[z], i) && r.spare == s.spare && r.held == s.held && r.q == s.q
  {
    hide Pages.HeldOk, NMax, NoDup, UsageOk, SpareOk;
    LiveChunkBound(s, z, i);
    GiveChunkKeeps(s.zoneSize, s.zones[z], i);
    var r := PutBack(s, z, i);
    if s.zones[z].nfree == 0 {
      ArraysAfterPush(s.zones, s.arrays, z, GiveChunk(s.zones[z], i));
    } else {
      ArraysAfterGive(s.zones, s.arrays, z, GiveChunk(s.zones[z], i));
    }
    ReplacedZoneKeeps(s, z, GiveChunk(s.zones[z], i), r.arrays);
  }

  lemma ArraysAfterGive(zones: map<nat, Zone>, arrays: seq<seq<nat>>, z: nat, zone: Zone)
    requires ArraysOk(zones, arrays) && z in zones && zone.index == zones[z].index && zone.nfree > 0 && zones[z].nfree > 0
    ensures ArraysOk(zones[z := zone], arrays)
  {
  }

  lemma ArraysAfterRetire(zones: map<nat, Zone>, arrays: seq<seq<nat>>, z: nat)
    requires ArraysOk(zones, arrays) && z in zones && zones[z].index < NZONES
    ensures var i := zones[z].index; ArraysOk(zones - {z}, arrays[i := Without(arrays[i], z)])
  {
    WithoutKeepsDistinct(arrays[zones[z].index], z);
  }

  /** Into reserve: no block was handed out from the zone, so none changes. */
  lemma RetireKeeps(s: Slab, z: nat)
    requires Inv(s) && z in s.zones && ZoneInv(s.zoneSize, s.zones[z]) && IsRetired(s, z)
    ensures var r := Retire(s, z);
            && Inv(r) && r.zoneSize == s.zoneSize
            && (forall y :: Live(r, y) <==> Live(s, y)) && forall y | Live(r, y) :: Length(r, y) == Length(s, y)
  {
    var t := Reserve(s, z);
    assert IsZone(s, z) && z in s.held;
    ReserveLive(s, z);
    NoDupPush(s.spare, z);
    ArraysAfterRetire(s.zones, s.arrays, z);
    if |t.spare| > 2 {
      ReleaseKeeps(s, t, z);
    } else {
      assert forall y: nat :: IsZone(t, y) <==> IsZone(s, y);
    }
  }

  lemma ReserveLive(s: Slab, z: nat)
    requires Inv(s) && z in s.zones && ZoneInv(s.zoneSize, s.zones[z]) && IsRetired(s, z)
    ensures var t := Reserve(s, z);
            (forall y :: Live(t, y) <==> Live(s, y)) && forall y | Live(t, y) :: Length(t, y) == Length(s, y)
  {
    AllFreeIff(s.zoneSize, s.zones[z]);
    WithoutDeadZone(s, Reserve(s, z), z);
  }

  lemma WithoutDeadZone(s: Slab, t: Slab, z: nat)
    requires z in s.zones && t.zones == s.zones - {z} && t.held == s.held && t.spare == [z] + s.spare
    requires forall i: nat :: !LiveChunk(s.zones[z], i)
    ensures (forall y :: Live(t, y) <==> Live(s, y)) && forall y | Live(t, y) :: Length(t, y) == Length(s, y)
  {
    assert forall y: nat :: IsZone(t, y) <==> IsZone(s, y);
  }

  lemma NoDupPush(q: seq<nat>, z: nat)
    requires NoDup(q) && z !in q
    ensures NoDup([z] + q) && forall x :: x in [z] + q <==> x == z || x in q
  {
  }

  /** The pages of the zone at the head of the reserve go back to the page allocator. */
  lemma ReleaseKeeps(s: Slab, t: Slab, z: nat)
    requires Inv(s) && IsZone(s, z) && z in s.held && s.held[z] == ZonePages(s)
    requires t.zoneSize == s.zoneSize && t.q == s.q && t.held == s.held && t.usage == s.usage
    requires t.spare == [z] + s.spare && z !in t.zones && z !in s.spare
    requires (forall y <- t.zones :: y in s.zones && t.zones[y] == s.zones[y]) && (forall y <- s.zones | y != z :: y in t.zones)
    requires ArraysOk(t.zones, t.arrays)
    ensures var r := Release(t, z);
            && Inv(r)
            && (forall y :: Live(r, y) <==> Live(t, y)) && forall y | Live(r, y) :: Length(r, y) == Length(t, y)
  {
    hide NMax, ZoneInv, NoDup, ArraysOk, Pages.InRun;
    var r := Release(t, z);
    Pages.FreeHeld(s.q, s.held, z);
    assert r.spare == s.spare;
    assert forall y: nat :: IsZone(r, y) <==> IsZone(s, y) && y != z;
    ReleaseUsage(s, r, z);
  }

  lemma ReleaseUsage(s: Slab, r: Slab, z: nat)
    requires Inv(s) && z in s.held && s.held[z] == ZonePages(s) && r.zoneSize == s.zoneSize
    requires r.held == s.held - {z} && r.usage == MarkFree(s.usage, z, ZonePages(s))
    requires forall y: nat :: IsZone(r, y) <==> IsZone(s, y) && y != z
    requires IsZone(s, z)
    ensures UsageOk(r)
  {
    forall y: nat, x: nat | y in s.held && y != z && Pages.InRun(y, s.held[y], x)
      ensures !Pages.InRun(z, ZonePages(s), x)
    {
    }
    forall y: nat | IsLarge(r, y)
      ensures y in r.usage && r.usage[y] == LARGE(r.held[y])
    {
      assert Pages.InRun(y, s.held[y], y);
    }
    forall y: nat, x: nat | IsZone(r, y) && Pages.InRun(y, ZonePages(r), x)
      ensures x in r.usage && r.usage[x] == SMALL(x - y)
    {
      assert s.held[y] == ZonePages(s);
    }
  }

  /** rt_free takes back exactly the block. */
  lemma FreeKeeps(s: Slab, x: Place)
    requires Inv(s) && Live(s, x)
    ensures var r := Free(s, x); Inv(r) && r.zoneSize == s.zoneSize && OneLess(s, r, x)
  {
    match x
    case Large(p) => FreeLargeKeeps(s, p);
    case Chunk(z, i) =>
      LiveChunkBound(s, z, i);
      PutBackKeeps(s, z, i);
      var t := PutBack(s, z, i);
      assert IsZone(t, z);
      if IsRetired(t, z) {
        RetireKeeps(t, z);
      }
  }

  // ---------- runs ----------

  /** The state of rt_system_heap_init: all pages on the page list, no zones. */
  function Initial(zoneSize: nat, start: nat, count: nat): Slab {
    Slab(zoneSize, [Pages.Run(start, count)], map[], map[], seq(NZONES, _ => []), [], map[])
  }

  lemma InitialKeeps(zoneSize: nat, start: nat, count: nat)
    requires ZoneSizeOk(zoneSize) && count > 0
    ensures Inv(Initial(zoneSize, start, count)) && forall x :: !Live(Initial(zoneSize, start, count), x)
  {
    assert [Pages.Run(start, count)][1..] == [];
  }

  datatype Op = DoMalloc(size: nat) | DoFree(x: Place)

  function Step(s: Slab, op: Op): Slab
    requires Inv(s) && (op.DoFree? ==> Live(s, op.x))
  {
    match op
    case DoMalloc(size) => Malloc(s, size).0
    case DoFree(x) => Free(s, x)
  }

  lemma StepKeeps(s: Slab, op: Op)
    requires Inv(s) && (op.DoFree? ==> Live(s, op.x))
    ensures Inv(Step(s, op))
  {
    match op
    case DoMalloc(size) => MallocKeeps(s, size);
    case DoFree(x) => FreeKeeps(s, x);
  }

  ghost predicate Runs(s: Slab, ops: seq<Op>)
    requires Inv(s)
    decreases |ops|
  {
    ops != [] ==> (ops[0].DoFree? ==> Live(s, ops[0].x)) && (StepKeeps(s, ops[0]); Runs(Step(s, ops[0]), ops[1..]))
  }

  function RunAll(s: Slab, ops: seq<Op>): (r: Slab)
    requires Inv(s) && Runs(s, ops)
    ensures Inv(r)
    decreases |ops|
  {
    if ops == [] then s else StepKeeps(s, ops[0]); RunAll(Step(s, ops[0]), ops[1..])
  }

  /** In every reachable state: each zone's count of free chunks is right, its free list holds used chunks once each; at
      most two zones are in reserve; and every block handed out is found from its address. */
  lemma ZonesAreSound(s: Slab, ops: seq<Op>)
    requires Inv(s) && Runs(s, ops)
    ensures var r := RunAll(s, ops);
            && |r.spare| <= 2
            && (forall z <- r.zones :: ZoneInv(r.zoneSize, r.zones[z]))
            && (forall x | Live(r, x) :: (x.Chunk? ==> r.zones[x.z].size > 0) && Find(r, Addr(r, x)) == Some(x))
  {
    var r := RunAll(s, ops);
    forall x | Live(r, x)
      ensures (x.Chunk? ==> r.zones[x.z].size > 0) && Find(r, Addr(r, x)) == Some(x)
    {
      LiveIsFound(r, x);
    }
  }

  // ---------- the allocator object ----------

  class SlabAllocator {
    const zoneSize: nat                    // zone_size
    const pages: Pages.PageAllocator
    var zones: map<nat, Zone>              // the zone headers, in the zones themselves
    var arrays: seq<seq<nat>>              // zone_array
    var spare: seq<nat>                    // zone_free
    var usage: map<nat, Usage>             // memusage
    ghost var held: map<nat, nat>

    ghost function State(): Slab
      reads this, pages
    {
      Slab(zoneSize, pages.runs, held, zones, arrays, spare, usage)
    }

    ghost predicate Valid()
      reads this, pages
    {
      pages.Valid() && Inv(State())
    }

    /** rt_system_heap_init, over count pages from start; the page table itself is not part of the pages. */
    constructor (zoneSize: nat, start: nat, count: nat)
      requires ZoneSizeOk(zoneSize) && count > 0
      ensures Valid() && fresh(pages) && State() == Initial(zoneSize, start, count)
    {
      this.zoneSize := zoneSize;
      pages := new Pages.PageAllocator(start, count);
      zones, arrays, spare, usage, held := map[], seq(NZONES, _ => []), [], map[], map[];
      new;
      InitialKeeps(zoneSize, start, count);
    }

    /** rt_malloc. */
    method MallocBytes(size: nat) returns (a: Option<nat>)
      requires Valid()
      modifies this, pages
      ensures Valid() && State() == Malloc(old(State()), size).0
      ensures var x := Malloc(old(State()), size).1;
              && a.Some? == x.Some?
              && (x.Some? ==> Live(State(), x.value) && (x.value.Chunk? ==> zones[x.value.z].size > 0)
                              && a.value == Addr(State(), x.value))
    {
      hide Pages.HeldOk, NMax, ZoneInv, NoDup, UsageOk;
      MallocKeeps(State(), size);
      if size == 0 {
        return None;
      }
      if size >= ZoneLimit(zoneSize) {
        a := MallocPages(size);
        return;
      }
      var c := ZoneIndex(size);
      ZoneIndexIsSmallestClass(size);
      NewZoneKeeps(zoneSize, size);
      if arrays[c.index] != [] {
        a := TakeFromZone(c.index);
      } else {
        a := LayOutZone(c);
      }
    }

    /** A large allocation. */
    method MallocPages(size: nat) returns (a: Option<nat>)
      requires Valid() && size > 0
      modifies this`usage, this`held, pages
      ensures pages.Valid() && State() == MallocLarge(old(State()), size).0
      ensures var x := MallocLarge(old(State()), size).1;
              a == if x.None? then None else Some(Addr(State(), x.value))
    {
      var n := (size + PAGE - 1) / PAGE;
      Pages.TakeKeeps(pages.runs, n, 0);
      var p := pages.AllocPages(n);
      if p.None? {
        return None;
      }
      usage := usage[p.value := LARGE(n)];
      held := held[p.value := n];
      return Some(p.value * PAGE);
    }

    /** A chunk of the first zone on a list. */
    method TakeFromZone(i: nat) returns (a: Option<nat>)
      requires Valid() && i < NZONES && arrays[i] != []
      modifies this`zones, this`arrays
      ensures State() == TakeFrom(old(State()), i).0
      ensures var x := TakeFrom(old(State()), i).1;
              && x.Some? && x.value.Chunk? && x.value.z in zones && zones[x.value.z].size > 0
              && a == Some(Addr(State(), x.value))
    {
      hide Pages.HeldOk, NMax, NoDup, UsageOk;
      var z := arrays[i][0];
      assert z in arrays[i];
      var zone := zones[z];
      TakeChunkKeeps(zoneSize, zone);
      zone := zone.(nfree := zone.nfree - 1);
      if zone.nfree == 0 {
        arrays := arrays[i := arrays[i][1..]];
      }
      var chunk: nat;
      if zone.uindex + 1 != NMax(zoneSize, zone.size) {
        zone := zone.(uindex := zone.uindex + 1);
        chunk := zone.uindex;
      } else {
        chunk := zone.free[0];
        zone := zone.(free := zone.free[1..]);
      }
      assert (zone, chunk) == TakeChunk(zoneSize, zones[z]);
      zones := zones[z := zone];
      a := Some(ChunkAddr(z, zone.size, chunk));
    }

    /** A new zone, from the reserve or from new pages. */
    method LayOutZone(c: Class) returns (a: Option<nat>)
      requires Valid() && c.index < NZONES && c.size > 0 && NMax(zoneSize, c.size) > 0
      modifies this, pages
      ensures pages.Valid() && State() == AddZone(old(State()), c).0
      ensures var x := AddZone(old(State()), c).1;
              && a.Some? == x.Some?
              && (x.Some? ==> x.value.Chunk? && x.value.z in zones && zones[x.value.z].size > 0
                              && a.value == Addr(State(), x.value))
    {
      var z: nat;
      if spare != [] {
        z, spare := spare[0], spare[1..];
      } else {
        Pages.TakeKeeps(pages.runs, zoneSize / PAGE, 0);
        var p := pages.AllocPages(zoneSize / PAGE);
        if p.None? {
          return None;
        }
        z := p.value;
        held := held[z := zoneSize / PAGE];
        SetSmall(z, zoneSize / PAGE);
      }
      var zone := NewZone(zoneSize, c);
      zones := zones[z := zone];
      arrays := arrays[c.index := [z] + arrays[c.index]];
      a := Some(ChunkAddr(z, c.size, 0));
    }

    method SetSmall(z: nat, n: nat)
      modifies this`usage
      ensures usage == MarkSmall(old(usage), z, n)
    {
      for off := 0 to n
        invariant usage == MarkSmall(old(usage), z, off)
      {
        usage := usage[z + off := SMALL(off)];
      }
    }

    method SetFree(z: nat, n: nat)
      modifies this`usage
      ensures usage == MarkFree(old(usage), z, n)
    {
      for i := 0 to n
        invariant usage == MarkFree(old(usage), z, i)
      {
        usage := usage[z + i := FREE];
      }
    }

    /** rt_free of the address of a block handed out. */
    method FreeAddress(a: nat, ghost x: Place)
      requires Valid() && Live(State(), x) && (x.Chunk? ==> zones[x.z].size > 0) && a == Addr(State(), x)
      modifies this, pages
      ensures Valid() && State() == Free(old(State()), x)
    {
      LiveIsFound(State(), x);
      FreeKeeps(State(), x);
      var page := a / PAGE;
      match usage[page]
      case LARGE(count) => FreePagesAt(page, count);
      case SMALL(off) =>
        var z := page - off;
        assert x == Chunk(z, x.i);
        LiveChunkBound(State(), z, x.i);
        FreeInZone(z, a, x.i);
    }

    method FreeInZone(z: nat, a: nat, ghost i: nat)
      requires Valid() && Live(State(), Chunk(z, i)) && ZoneInv(zoneSize, zones[z])
      requires zones[z].size > 0 && a == ChunkAddr(z, zones[z].size, i)
      modifies this, pages
      ensures pages.Valid() && State() == FreeChunk(old(State()), z, i)
    {
      ChunkNumber(z, zones[z].size, i);
      PutChunkBack(z, ChunkAt(a - (z * PAGE + Base(zones[z].size)), zones[z].size));
    }

    method FreePagesAt(page: nat, count: nat)
      requires Valid() && IsLarge(State(), page) && count == held[page]
      modifies this, pages
      ensures pages.Valid() && State() == FreeLarge(old(State()), page)
    {
      usage := usage[page := LARGE(0)];
      held := held - {page};
      pages.FreePages(page, count);
    }

    method PutChunkBack(z: nat, i: nat)
      requires Valid() && Live(State(), Chunk(z, i)) && ZoneInv(zoneSize, zones[z])
      modifies this, pages
      ensures pages.Valid() && State() == FreeChunk(old(State()), z, i)
    {
      hide Pages.HeldOk, NoDup, UsageOk, SpareOk, PutBack, OneLess;
      PutBackKeeps(State(), z, i);
      LinkChunk(z, i);
      if zones[z].nfree == NMax(zoneSize, zones[z].size) && arrays[zones[z].index] != [z] {
        RetireZone(z);
      }
    }

    /** The chunk in front of the zone's free list, and the zone in its class's list if it had left it. */
    method LinkChunk(z: nat, i: nat)
      requires |arrays| == NZONES && z in zones && zones[z].index < NZONES
      modifies this`zones, this`arrays
      ensures State() == PutBack(old(State()), z, i)
    {
      var zone := zones[z];
      if zone.nfree == 0 {
        arrays := arrays[zone.index := [z] + arrays[zone.index]];
      }
      zones := zones[z := zone.(free := [i] + zone.free, nfree := zone.nfree + 1)];
    }

    method RetireZone(z: nat)
      requires Valid() && z in zones && ZoneInv(zoneSize, zones[z])
      modifies this, pages
      ensures pages.Valid() && State() == Retire(old(State()), z)
    {
      assert IsZone(State(), z);
      var i := zones[z].index;
      arrays := arrays[i := Without(arrays[i], z)];
      zones := zones - {z};
      spare := [z] + spare;
      if |spare| > 2 {
        spare := spare[1..];
        SetFree(z, zoneSize / PAGE);
        held := held - {z};
        pages.FreePages(z, zoneSize / PAGE);
      }
    }
  }
}
