/** The memory heap object in memory: headers linked into a block ring and a free ring. The methods are proved to do
    what MemHeap says. The data of the blocks is not part of this state. */
module MemHeapObject {
  import opened Options
  import opened Seqs
  import opened Blocks
  import opened RtList
  import opened MemHeap
  import opened HeapData

  function Starts(bs: seq<Block>): (r: seq<nat>)
    ensures |r| == |bs|
  {
    seq(|bs|, i requires 0 <= i < |bs| => bs[i].start)
  }

  /** block_list: all headers in address order, then the tailer. */
  function HeaderRing(bs: seq<Block>, end: nat): seq<nat> {
    Starts(bs) + [end]
  }

  lemma RingAt(bs: seq<Block>, end: nat, k: nat)
    requires Tiled(bs, end, GAP) && k < |bs|
    ensures HeaderRing(bs, end)[k] == bs[k].start && Succ(HeaderRing(bs, end), k) == bs[k].next
    ensures Pred(HeaderRing(bs, end), k) == if k == 0 then end else bs[k - 1].start
    ensures bs[k].start < bs[k].next <= end
  {
    BySpread(bs, end, GAP);
    Apart(bs, end, k, k, GAP);
  }

  /** A header at mid, behind block k. */
  lemma RingSplit(bs: seq<Block>, end: nat, k: nat, mid: nat)
    requires Tiled(bs, end, GAP) && k < |bs| && bs[k].start < mid < bs[k].next
    ensures mid !in HeaderRing(bs, end)
    ensures InsertAt(HeaderRing(bs, end), k + 1, mid) == HeaderRing(Split(bs, k, mid), end)
  {
    var ring := HeaderRing(bs, end);
    Apart(bs, end, k, k, GAP);
    forall i | 0 <= i < |ring|
      ensures ring[i] != mid
    {
      if i < |bs| {
        Apart(bs, end, i, k, GAP);
      }
    }
    var r, s := InsertAt(ring, k + 1, mid), HeaderRing(Split(bs, k, mid), end);
    forall i | 0 <= i < |s|
      ensures r[i] == s[i]
    {
      if i <= |bs| {
        assert Split(bs, k, mid)[i] == SplitAt(bs, k, mid, i);
      }
    }
  }

  /** The header of block k + 1 goes. */
  lemma RingJoin(bs: seq<Block>, end: nat, k: nat)
    requires k + 1 < |bs| && NoDup(HeaderRing(bs, end))
    ensures Without(HeaderRing(bs, end), bs[k + 1].start) == HeaderRing(Join(bs, k), end)
  {
    var ring := HeaderRing(bs, end);
    WithoutAt(ring, k + 1);
    var r, s := ring[..k + 1] + ring[k + 2..], HeaderRing(Join(bs, k), end);
    forall i | 0 <= i < |s|
      ensures r[i] == s[i]
    {
      if i < |bs| - 1 {
        JoinIndex(bs, k, i);
      }
    }
  }

  class MemHeapObject {
    const poolSize: nat
    const ring: Links                      // next and prev of the headers
    const freeRing: Links                  // next_free and prev_free
    var used: map<nat, bool>               // the used bit of magic
    var available: int
    var maxUsed: int
    const data: array<nat>                 // the words of the pool, for the data of blocks in use
    ghost var blocks: seq<Block>
    ghost var free: seq<nat>

    function Tail(): nat
      requires HDR <= poolSize
    {
      poolSize - HDR
    }

    /** free_header, outside the pool. */
    function FreeHeader(): nat {
      poolSize
    }

    ghost function State(): Pool
      reads this
    {
      Pool(poolSize, blocks, free, available, maxUsed)
    }

    /** What holds between any two updates of the links. */
    ghost predicate Linked()
      reads this, ring, freeRing
    {
      && HDR <= poolSize == data.Length && ring != freeRing
      && Tiled(blocks, Tail(), GAP)
      && ring.IsRing(HeaderRing(blocks, Tail())) && freeRing.IsRing([FreeHeader()] + free)
      && Tail() in used && used[Tail()]
      && Flags(blocks, used)
      && forall a <- free :: a < poolSize
    }

    ghost predicate Valid()
      reads this, ring, freeRing
    {
      Linked() && Inv(State())
    }

    /** rt_memheap_init. */
    constructor (poolSize: nat)
      requires 2 * HDR + MIN <= poolSize
      ensures Valid() && fresh(ring) && fresh(freeRing) && fresh(data) && this.poolSize == poolSize && State() == Initial(poolSize)
    {
      hide Ring, NoTwoFree, FreeRoom, Tiled, Lists, Live;
      this.poolSize := poolSize;
      ring := new Links();
      freeRing := new Links();
      data := new nat[poolSize](i => 0);
      used := map[0 := false, poolSize - HDR := true];
      available, maxUsed := poolSize - 2 * HDR, 2 * HDR;
      blocks, free := [Block(0, poolSize - HDR, false)], [0];
      new;
      ring.Init(0);
      ring.InsertAfter(0, Tail(), [0], 0);
      freeRing.Init(FreeHeader());
      freeRing.InsertAfter(FreeHeader(), 0, [FreeHeader()], 0);
      assert HeaderRing(blocks, Tail()) == InsertAt([0], 1, Tail());
      assert [FreeHeader()] + free == InsertAt([FreeHeader()], 1, 0);
      InitialKeeps(poolSize);
    }

    /** Reads the header of block k. */
    method ReadHeader(a: nat, ghost k: nat) returns (isUsed: bool, next: nat, prev: nat)
      requires Linked() && k < |blocks| && a == blocks[k].start
      ensures isUsed == blocks[k].used && next == blocks[k].next && a < next <= Tail()
      ensures prev == if k == 0 then Tail() else blocks[k - 1].start
      ensures next in used && prev in used
      ensures used[next] <==> !NextFree(blocks, k)
      ensures used[prev] <==> !PrevFree(blocks, k)
      ensures k + 1 < |blocks| ==> blocks[k + 1].start == next
    {
      RingAt(blocks, Tail(), k);
      Neighbours(ring.next, ring.prev, HeaderRing(blocks, Tail()), k);
      NextIsAtEnd(blocks, Tail(), k, GAP);
      assert k > 0 ==> blocks[k - 1] in blocks;
      assert k + 1 < |blocks| ==> blocks[k + 1] in blocks;
      LastEnds(blocks, Tail());
      isUsed, next, prev := used[a], ring.next[a], ring.prev[a];
    }

    /** Sets or clears the used bit. */
    method SetUsed(a: nat, isUsed: bool, ghost k: nat)
      requires Linked() && k < |blocks| && a == blocks[k].start
      modifies this`used, this`blocks
      ensures Linked() && blocks == Mark(old(blocks), k, isUsed)
    {
      RingAt(blocks, Tail(), k);
      MarkTiled(blocks, k, isUsed, Tail(), GAP);
      MarkFlags(blocks, used, k, isUsed, Tail());
      assert Starts(Mark(blocks, k, isUsed)) == Starts(blocks);
      used := used[a := isUsed];
      blocks := Mark(blocks, k, isUsed);
    }

    /** Links a free header at mid into the block ring, behind block k. */
    method LinkHeader(a: nat, mid: nat, ghost k: nat)
      requires Linked() && k < |blocks| && a == blocks[k].start && a + GAP < mid && mid + GAP < blocks[k].next
      modifies this`used, this`blocks, ring, data
      ensures Linked() && blocks == Split(old(blocks), k, mid)
      ensures mid + HDR <= old(blocks)[k].next && OnlyWithin(old(data[..]), data[..], mid, mid + HDR)
    {
      RingAt(blocks, Tail(), k);
      RingSplit(blocks, Tail(), k, mid);
      SplitTiled(blocks, k, mid, Tail(), GAP);
      SplitFlags(blocks, used, k, mid, Tail());
      ring.InsertAfter(a, mid, HeaderRing(blocks, Tail()), k);
      WriteHeader(mid);
      used := used[mid := false];
      blocks := Split(blocks, k, mid);
    }

    /** The words of a new header, which hold what the rings and flags say, are lost to data. */
    method WriteHeader(mid: nat)
      requires mid + HDR <= data.Length
      modifies data
      ensures OnlyWithin(old(data[..]), data[..], mid, mid + HDR)
    {
      for j := 0 to HDR
        invariant OnlyWithin(old(data[..]), data[..], mid, mid + HDR)
      {
        data[mid + j] := 0;
      }
    }

    /** Takes the header of block k + 1 out of the block ring. */
    method UnlinkHeader(n: nat, ghost k: nat)
      requires Linked() && k + 1 < |blocks| && n == blocks[k + 1].start
      modifies this`blocks, ring
      ensures Linked() && blocks == Join(old(blocks), k)
    {
      RingAt(blocks, Tail(), k + 1);
      RingJoin(blocks, Tail(), k);
      JoinTiled(blocks, k, Tail(), GAP);
      JoinFlags(blocks, used, k);
      ring.Unlink(n, HeaderRing(blocks, Tail()), k + 1);
      blocks := Join(blocks, k);
    }

    /** Puts a at the front of the free list. */
    method LinkFree(a: nat)
      requires Linked() && a !in free && a < poolSize
      modifies this`free, freeRing
      ensures Linked() && free == [a] + old(free)
    {
      hide Flags, TiledFrom;
      BeforeEntryInserts(FreeHeader(), free, a, 0);
      assert InsertAt(free, 0, a) == [a] + free;
      freeRing.InsertAfter(FreeHeader(), a, [FreeHeader()] + free, 0);
      free := [a] + free;
    }

    method UnlinkFree(a: nat)
      requires Linked() && a in free
      modifies this`free, freeRing
      ensures Linked() && free == Without(old(free), a)
    {
      ghost var i := Seqs.IndexOf(free, a);
      RemovingEntry(FreeHeader(), free, i);
      freeRing.Unlink(a, [FreeHeader()] + free, i + 1);
      free := Without(free, a);
    }

    /** MEMITEM_SIZE of entry j of the free list. */
    method EntrySize(header: nat, ghost j: nat) returns (size: nat)
      requires Valid() && j < |free| && header == free[j]
      ensures size == RoomAt(blocks, header)
    {
      ListedIsFree(State(), free[j]);
      BySpread(blocks, Tail(), GAP);
      var _, next, _ := ReadHeader(header, HeaderIndex(blocks, header));
      size := next - header - HDR;
    }

    /** The first entry of the free list, or the one after entry j - 1; free_header at the end. */
    method NextEntry(header: nat, ghost j: nat) returns (next: nat)
      requires Linked() && j <= |free| && header == if j == 0 then FreeHeader() else free[j - 1]
      ensures next == if j < |free| then free[j] else FreeHeader()
      ensures next == FreeHeader() <==> j == |free|
    {
      ghost var list := [FreeHeader()] + free;
      Neighbours(freeRing.next, freeRing.prev, list, j);
      assert j < |free| ==> free[j] in free;
      next := freeRing.next[header];
    }

    /** The search loop of rt_memheap_alloc. */
    method Search(size: nat) returns (a: Option<nat>, freeSize: nat)
      requires Valid() && MIN <= size
      ensures a == FindFree(blocks, free, size)
      ensures a.Some? ==> freeSize == RoomAt(blocks, a.value)
    {
      ghost var j := 0;
      var header := NextEntry(FreeHeader(), 0);
      freeSize := 0;
      assert free[0..] == free;
      while header != FreeHeader() && freeSize < size
        invariant j <= |free| && header == if j < |free| then free[j] else FreeHeader()
        invariant header == FreeHeader() <==> j == |free|
        invariant freeSize >= size ==> j < |free| && freeSize == RoomAt(blocks, free[j]) && FindFree(blocks, free, size) == Some(free[j])
        invariant freeSize < size ==> FindFree(blocks, free, size) == FindFree(blocks, free[j..], size)
        decreases |free| - j, if freeSize < size then 1 else 0
      {
        freeSize := EntrySize(header, j);
        FindStep(blocks, free, j, size);
        if freeSize < size {
          header := NextEntry(header, j + 1);
          j := j + 1;
        }
      }
      assert free[|free|..] == [];
      a := if freeSize >= size then Some(header) else None;
    }

    method Record()
      modifies this`maxUsed
      ensures State() == Tally(old(State()))
    {
      if poolSize - available > maxUsed {
        maxUsed := poolSize - available;
      }
    }

    /** rt_memheap_alloc. */
    method AllocItem(bytes: nat) returns (p: Option<nat>)
      requires Valid()
      modifies this, ring, freeRing, data
      ensures Valid() && (State(), p) == Alloc(old(State()), bytes)
      ensures AllData(old(data[..]), data[..], Live(old(blocks)), HDR)
    {
      hide Ring, Flags, NoTwoFree, Idle, FreeRoom, AllData, SameData;
      NothingWritten(data[..], blocks, Tail());
      var size := if (bytes + 3) / 4 < MIN then MIN else (bytes + 3) / 4;
      if size >= available {
        return None;
      }
      var a, freeSize := Search(size);
      if a.None? {
        return None;
      }
      ListedIsFree(State(), a.value);
      ghost var k := HeaderIndex(blocks, a.value);
      ghost var before := blocks;
      ClaimItem(a.value, freeSize, size, k);
      WithinBlock(old(data[..]), data[..], before, Tail(), k, before[k].start, before[k].next, GAP, HDR);
      return Some(a.value + HDR);
    }

    method ClaimItem(a: nat, freeSize: nat, size: nat, ghost k: nat)
      requires Valid() && k < |blocks| && a == blocks[k].start && !blocks[k].used
      requires MIN <= size <= freeSize == Room(blocks[k])
      modifies this, ring, freeRing, data
      ensures Valid() && State() == Claim(old(State()), k, size)
      ensures OnlyWithin(old(data[..]), data[..], a, old(blocks)[k].next)
    {
      ClaimKeeps(State(), k, size);
      if freeSize >= size + HDR + MIN {
        ClaimFront(a, size, k);
      } else {
        ClaimAll(a, freeSize, k);
      }
    }

    /** The block is split: its front is taken, the rest goes to the front of the free list. */
    method ClaimFront(a: nat, size: nat, ghost k: nat)
      requires Linked() && Inv(State()) && k < |blocks| && a == blocks[k].start && !blocks[k].used
      requires MIN <= size && size + HDR + MIN <= Room(blocks[k])
      modifies this, ring, freeRing, data
      ensures Linked() && State() == Claim(old(State()), k, size)
      ensures OnlyWithin(old(data[..]), data[..], a, old(blocks)[k].next)
    {
      hide Ring, Flags, NoTwoFree, Idle, FreeRoom;
      ghost var before := blocks;
      var mid := a + HDR + size;
      FreeIsListed(State(), k);
      MidNotListed(State(), k, mid);
      LinkHeader(a, mid, k);
      UnlinkFree(a);
      LinkFree(mid);
      available := available - size - HDR;
      Record();
      assert Split(before, k, mid)[k] == SplitAt(before, k, mid, k);
      SetUsed(a, true, k);
      SplitThenMark(before, k, mid);
    }

    method ClaimAll(a: nat, freeSize: nat, ghost k: nat)
      requires Linked() && Inv(State()) && k < |blocks| && a == blocks[k].start && !blocks[k].used
      requires freeSize == Room(blocks[k])
      modifies this, ring, freeRing
      ensures Linked()
      ensures State() == Tally(old(State()).(blocks := Mark(old(blocks), k, true), free := Without(old(free), a), available := old(available) - freeSize))
    {
      hide Ring, Flags, NoTwoFree, Idle, FreeRoom;
      FreeIsListed(State(), k);
      available := available - freeSize;
      Record();
      UnlinkFree(a);
      SetUsed(a, true, k);
    }

    /** rt_memheap_free of a live pointer. */
    method FreeItem(p: nat)
      requires Valid() && IsLive(State(), p)
      modifies this, ring, freeRing
      ensures Valid() && State() == FreeAt(old(State()), p)
    {
      ghost var k := HeaderIndex(blocks, p - HDR);
      FreeKeeps(State(), k);
      ReleaseItem(p - HDR, k);
    }

    method ReleaseItem(a: nat, ghost k: nat)
      requires Linked() && Inv(State()) && k < |blocks| && a == blocks[k].start && blocks[k].used
      modifies this, ring, freeRing
      ensures Linked() && State() == Free(old(State()), k)
    {
      hide Ring, Flags, NoTwoFree, Idle, FreeRoom;
      MarkFreeKeeps(State(), k);
      UsedNotListed(State(), k);
      SetUsed(a, false, k);
      var _, next, prev := ReadHeader(a, k);
      available := available + (next - a - HDR);
      assert State() == MarkFree(old(State()), k);
      LooseListed(State(), k, false);
      if !used[prev] {
        MergePrevKeeps(State(), k);
        available := available + HDR;
        UnlinkHeader(a, k - 1);
        LooseListed(State(), k - 1, true);
        MergeWithNext(prev, k - 1);
      } else {
        MergeWithNext(a, k);
        LinkFree(a);
      }
    }

    /** Merges block k with its successor if that is free. */
    method MergeWithNext(a: nat, ghost k: nat)
      requires Linked() && k < |blocks| && a == blocks[k].start && !blocks[k].used
      requires forall i | 0 <= i < |blocks| && i != k && !blocks[i].used :: blocks[i].start in free
      modifies this`blocks, this`free, this`available, ring, freeRing
      ensures Linked() && State() == if NextFree(old(blocks), k) then MergeNext(old(State()), k) else old(State())
    {
      var _, n, _ := ReadHeader(a, k);
      if !used[n] {
        available := available + HDR;
        UnlinkHeader(n, k);
        UnlinkFree(n);
      }
    }

    /** rt_memheap_realloc of NULL or a live pointer. */
    method ReallocItem(p: Option<nat>, bytes: nat) returns (q: Option<nat>)
      requires Valid() && (p.Some? ==> IsLive(State(), p.value))
      modifies this, ring, freeRing, data
      ensures Valid() && (State(), q) == Realloc(old(State()), p, bytes)
      ensures AllData(old(data[..]), data[..], Live(old(blocks)) * Live(blocks), HDR)
      ensures p.Some? && q.Some? ==>
                Carried(old(data[..]), data[..], p.value, q.value, Room(BlockAt(old(State()), p.value)), Wanted(bytes))
    {
      NothingWritten(data[..], blocks, Tail());
      if bytes == 0 {
        if p.Some? {
          FreeItem(p.value);
        }
        return None;
      }
      var size := if (bytes + 3) / 4 < MIN then MIN else (bytes + 3) / 4;
      if p.None? {
        q := AllocItem(4 * size);
        return;
      }
      q := ResizeItem(p.value, size);
    }

    method ResizeItem(p: nat, size: nat) returns (q: Option<nat>)
      requires Valid() && IsLive(State(), p) && MIN <= size
      modifies this, ring, freeRing, data
      ensures Valid() && (State(), q) == Resize(old(State()), p, size)
      ensures AllData(old(data[..]), data[..], Live(old(blocks)) * Live(blocks), HDR)
      ensures q.Some? ==> Carried(old(data[..]), data[..], p, q.value, Room(BlockAt(old(State()), p)), size)
    {
      hide Ring, Flags, NoTwoFree, Idle, FreeRoom;
      ghost var k := HeaderIndex(blocks, p - HDR);
      BySpread(blocks, Tail(), GAP);
      var _, next, _ := ReadHeader(p - HDR, k);
      var oldSize := next - p;
      if size > oldSize {
        q := EnlargeItem(p, size, oldSize);
      } else {
        ReduceKeeps(State(), p, size);
        ReduceItem(p - HDR, size, oldSize, k);
        ReducedData(old(State()), old(data[..]), data[..], p, size);
        q := Some(p);
      }
    }

    method EnlargeItem(p: nat, size: nat, oldSize: nat) returns (q: Option<nat>)
      requires Valid() && IsLive(State(), p) && MIN <= size && oldSize == Room(BlockAt(State(), p)) < size
      modifies this, ring, freeRing, data
      ensures Valid() && (State(), q) == Enlarge(old(State()), p, size)
      ensures AllData(old(data[..]), data[..], Live(old(blocks)) * Live(blocks), HDR)
      ensures q.Some? ==> Carried(old(data[..]), data[..], p, q.value, oldSize, size)
    {
      hide Ring, Flags, NoTwoFree, Idle, FreeRoom;
      ghost var k := HeaderIndex(blocks, p - HDR);
      var a := p - HDR;
      var fits := CheckNext(a, size, oldSize, k);
      if fits {
        GrowKeeps(State(), k, size);
        ghost var before := blocks;
        GrowItem(a, size, oldSize, k);
        GrownData(old(data[..]), data[..], before, Tail(), k, p, size);
        return Some(p);
      }
      q := MoveItem(p, size, oldSize);
    }

    /** The block is moved: a new one, the copy, and the free of the old one. */
    method MoveItem(p: nat, size: nat, oldSize: nat) returns (q: Option<nat>)
      requires Valid() && IsLive(State(), p) && MIN <= size && oldSize == Room(BlockAt(State(), p)) < size
      modifies this, ring, freeRing, data
      ensures IsLive(Alloc(old(State()), 4 * size).0, p)
      ensures Valid() && q == Alloc(old(State()), 4 * size).1
      ensures State() == if q.None? then Alloc(old(State()), 4 * size).0 else FreeAt(Alloc(old(State()), 4 * size).0, p)
      ensures AllData(old(data[..]), data[..], Live(old(blocks)) * Live(blocks), HDR)
      ensures q.Some? ==> Carried(old(data[..]), data[..], p, q.value, oldSize, size)
    {
      hide Ring, Flags, NoTwoFree, Idle, FreeRoom;
      NewBlock(State(), p, size);
      ghost var b, before := BlockAt(State(), p), Live(blocks);
      ghost var c := if Alloc(State(), 4 * size).1.Some? then Given(State(), size) else b;
      q := AllocItem(4 * size);
      ghost var mid := data[..];
      if q.Some? {
        CopyItem(p, q.value, oldSize, b, c);
        FreeKeeps(State(), HeaderIndex(blocks, p - HDR));
        FreeItem(p);
        MoveCarries(old(data[..]), mid, data[..], before, Live(blocks), b, c, p, q.value, oldSize, size, oldSize, HDR);
      }
    }

    /** The copy of the data of block b to block c. */
    method CopyItem(from: nat, to: nat, n: nat, ghost b: Block, ghost c: Block)
      requires Valid() && b in Live(blocks) && c in Live(blocks) && b != c
      requires from == b.start + HDR && to == c.start + HDR && n <= Room(b) && n <= Room(c)
      modifies data
      ensures Linked() && AllData(old(data[..]), data[..], Live(blocks) - {c}, HDR)
      ensures Carried(old(data[..]), data[..], from, to, n, n)
    {
      ghost var i := LiveIndex(blocks, b);
      ghost var j := LiveIndex(blocks, c);
      Apart(blocks, Tail(), i, j, GAP);
      Apart(blocks, Tail(), j, i, GAP);
      CopyWords(data, to, from, n);
      CopyCarries(old(data[..]), data[..], from, to, n);
      WithinBlock(old(data[..]), data[..], blocks, Tail(), j, to, to + n, GAP, HDR);
    }

    /** Whether the following free space is enough to expand. */
    method CheckNext(a: nat, size: nat, oldSize: nat, ghost k: nat) returns (fits: bool)
      requires Linked() && k < |blocks| && a == blocks[k].start && oldSize == Room(blocks[k])
      ensures fits == CanGrow(blocks, k, size)
    {
      var _, n, _ := ReadHeader(a, k);
      if used[n] {
        return false;
      }
      var _, after, _ := ReadHeader(n, k + 1);
      fits := after - n - HDR + oldSize > size + MIN;
    }

    method GrowItem(a: nat, size: nat, oldSize: nat, ghost k: nat)
      requires Linked() && Inv(State()) && k < |blocks| && a == blocks[k].start && blocks[k].used
      requires oldSize == Room(blocks[k]) < size && CanGrow(blocks, k, size)
      modifies this, ring, freeRing, data
      ensures Linked() && State() == Grow(old(State()), k, size)
      ensures OnlyWithin(old(data[..]), data[..], a + HDR + size, a + HDR + size + HDR)
    {
      hide Ring, Flags, NoTwoFree, Idle, FreeRoom, Join, Split;
      var mid := a + HDR + size;
      BySpread(blocks, Tail(), GAP);
      NextIsAtEnd(blocks, Tail(), k, GAP);
      MidNotListed(State(), k + 1, mid);
      FreeIsListed(State(), k + 1);
      available := available - (size - oldSize);
      Record();
      var _, n, _ := ReadHeader(a, k);
      UnlinkFree(n);
      MoveHeader(a, n, mid, k);
      LinkFree(mid);
    }

    /** The header behind block k moves up to mid. */
    method MoveHeader(a: nat, n: nat, mid: nat, ghost k: nat)
      requires Linked() && k + 1 < |blocks| && a == blocks[k].start && n == blocks[k + 1].start
      requires a + GAP < mid && mid + GAP < blocks[k + 1].next
      modifies this`used, this`blocks, ring, data
      ensures Linked() && blocks == Split(Join(old(blocks), k), k, mid)
      ensures OnlyWithin(old(data[..]), data[..], mid, mid + HDR)
    {
      hide Ring, Flags;
      JoinIndex(blocks, k, k);
      UnlinkHeader(n, k);
      LinkHeader(a, mid, k);
    }

    /** Keeps the block as it is, or splits off what it does not need. */
    method ReduceItem(a: nat, size: nat, oldSize: nat, ghost k: nat)
      requires Linked() && Inv(State()) && k < |blocks| && a == blocks[k].start && blocks[k].used
      requires MIN <= size <= oldSize == Room(blocks[k])
      modifies this, ring, freeRing, data
      ensures Linked()
      ensures State() == if size + HDR + MIN >= oldSize then old(State()) else Shrink(old(State()), k, size)
      ensures if size + HDR + MIN >= oldSize then data[..] == old(data[..])
              else OnlyWithin(old(data[..]), data[..], a + HDR + size, a + HDR + size + HDR)
    {
      hide Ring, Flags, NoTwoFree, Idle, FreeRoom;
      if size + HDR + MIN >= oldSize {
        return;
      }
      ghost var before := blocks;
      var mid := a + HDR + size;
      if NextFree(blocks, k) {
        FreeIsListed(State(), k + 1);
      }
      MidNotListed(State(), k, mid);
      LinkHeader(a, mid, k);
      SplitNext(before, k, mid);
      MergeSplit(mid, k + 1);
      LinkFree(mid);
    }

    /** Merges the split-off header k with a free successor, and accounts for it. */
    method MergeSplit(mid: nat, ghost k: nat)
      requires Linked() && k < |blocks| && mid == blocks[k].start && !blocks[k].used
      requires NextFree(blocks, k) ==> blocks[k + 1].start in free
      modifies this, ring, freeRing
      ensures Linked() && maxUsed == old(maxUsed)
      ensures if NextFree(old(blocks), k)
              then blocks == Join(old(blocks), k) && free == Without(old(free), old(blocks)[k + 1].start)
                   && available == old(available) - Room(old(blocks)[k + 1]) + (old(blocks)[k + 1].next - mid - HDR)
              else blocks == old(blocks) && free == old(free) && available == old(available) + Room(old(blocks)[k])
    {
      var _, n, _ := ReadHeader(mid, k);
      var next := n;
      if !used[n] {
        var _, after, _ := ReadHeader(n, k + 1);
        available := available - (after - n - HDR);
        UnlinkHeader(n, k);
        UnlinkFree(n);
        next := after;
      }
      available := available + (next - mid - HDR);
    }
  }

  lemma NothingWritten(d: seq<nat>, bs: seq<Block>, end: nat)
    requires Tiled(bs, end, GAP) && end <= |d|
    ensures AllData(d, d, Live(bs), HDR) && forall s | s <= Live(bs) :: AllData(d, d, s, HDR)
  {
    forall x | x in Live(bs)
      ensures SameData(d, d, x, HDR)
    {
      var i := LiveIndex(bs, x);
      Apart(bs, end, i, i, GAP);
    }
  }

  /** Cutting a block down to size words: other blocks keep their data, and it keeps its first size words. */
  lemma ReducedData(h: Pool, d: seq<nat>, d': seq<nat>, p: nat, size: nat)
    requires Inv(h) && IsLive(h, p) && MIN <= size <= Room(BlockAt(h, p)) && h.poolSize <= |d|
    requires if size + HDR + MIN >= Room(BlockAt(h, p)) then d' == d else OnlyWithin(d, d', p + size, p + size + HDR)
    ensures AllData(d, d', Live(h.blocks) * Live(Reduce(h, p, size).blocks), HDR)
    ensures Carried(d, d', p, p, Room(BlockAt(h, p)), size)
  {
    hide NoTwoFree, Idle, FreeRoom, Lists;
    var bs, end, k := h.blocks, h.poolSize - HDR, HeaderIndex(h.blocks, p - HDR);
    Apart(bs, end, k, k, GAP);
    NothingWritten(d, bs, end);
    if size + HDR + MIN < Room(bs[k]) {
      ShrinkInPlace(h, p, size);
      WithinBlock(d, d', bs, end, k, p + size, p + size + HDR, GAP, HDR);
      assert d'[p..p + size] == d[p..p + size];
    }
  }

  /** The block that a moving reallocation gets. */
  ghost function Given(h: Pool, size: nat): Block
    requires Inv(h) && Alloc(h, 4 * size).1.Some?
  {
    AllocKeeps(h, 4 * size);
    BlockAt(Alloc(h, 4 * size).0, Alloc(h, 4 * size).1.value)
  }

  /** It is another one than p's, large enough, and neither is anybody else's. */
  lemma NewBlock(h: Pool, p: nat, size: nat)
    requires Inv(h) && IsLive(h, p) && MIN <= size && Room(BlockAt(h, p)) < size
    ensures var (h1, q) := Alloc(h, 4 * size);
            var b := BlockAt(h, p);
            && IsLive(h1, p) && BlockAt(h1, p) == b && b in Live(h.blocks) && p == b.start + HDR
            && 0 <= Room(b) && b.next <= h.poolSize - HDR
            && (q.Some? ==>
                  var c := Given(h, size);
                  && b in Live(h1.blocks) && c in Live(h1.blocks) && c !in Live(h.blocks) && b != c
                  && q.value == c.start + HDR && size <= Room(c))
  {
    hide NoTwoFree, Idle, FreeRoom, Lists, Alloc;
    var k := HeaderIndex(h.blocks, p - HDR);
    Apart(h.blocks, h.poolSize - HDR, k, k, GAP);
    AllocKeeps(h, 4 * size);
    LiveStaysLive(h, 4 * size, p);
    LiveView(h.blocks);
    assert h.blocks[k] in h.blocks;
    var h1 := Alloc(h, 4 * size).0;
    LiveView(h1.blocks);
    assert BlockAt(h1, p) in h1.blocks;
    if Alloc(h, 4 * size).1.Some? {
      assert Given(h, size) in h1.blocks;
    }
  }

  /** The new header lies behind the data of block k, in what was its free neighbour. */
  lemma GrownData(d: seq<nat>, d': seq<nat>, bs: seq<Block>, end: nat, k: nat, p: nat, size: nat)
    requires Tiled(bs, end, GAP) && end <= |d| && k + 1 < |bs| && bs[k].used && !bs[k + 1].used
    requires p == bs[k].start + HDR && Room(bs[k]) < size && CanGrow(bs, k, size)
    requires OnlyWithin(d, d', p + size, p + size + HDR)
    ensures forall s | s <= Live(bs) :: AllData(d, d', s, HDR)
    ensures Carried(d, d', p, p, Room(bs[k]), size)
  {
    NextApart(bs, end, k, k, GAP);
    Apart(bs, end, k, k + 1, GAP);
    WithinBlock(d, d', bs, end, k + 1, p + size, p + size + HDR, GAP, HDR);
    LiveView(bs);
    assert bs[k] in bs;
    SameDataCarried(d, d', bs[k], p, Room(bs[k]), size, HDR);
  }

  ghost predicate Flags(bs: seq<Block>, used: map<nat, bool>) {
    forall b <- bs :: b.start in used && used[b.start] == b.used
  }

  lemma LastEnds(bs: seq<Block>, end: nat)
    requires Tiled(bs, end, GAP)
    ensures bs[|bs| - 1].next == end
  {
    BySpread(bs, end, GAP);
  }

  lemma MarkFlags(bs: seq<Block>, used: map<nat, bool>, k: nat, isUsed: bool, end: nat)
    requires Tiled(bs, end, GAP) && Flags(bs, used) && k < |bs|
    ensures Flags(Mark(bs, k, isUsed), used[bs[k].start := isUsed]) && bs[k].start < end
  {
    Apart(bs, end, k, k, GAP);
    forall i | 0 <= i < |bs| && i != k
      ensures bs[i].start != bs[k].start
    {
      StartsDiffer(bs, end, i, k, GAP);
    }
  }

  lemma SplitFlags(bs: seq<Block>, used: map<nat, bool>, k: nat, mid: nat, end: nat)
    requires Tiled(bs, end, GAP) && Flags(bs, used) && k < |bs| && bs[k].start < mid < bs[k].next
    ensures Flags(Split(bs, k, mid), used[mid := false]) && mid < end
  {
    var r := Split(bs, k, mid);
    Apart(bs, end, k, k, GAP);
    forall i | 0 <= i < |r|
      ensures r[i].start in used[mid := false] && used[mid := false][r[i].start] == r[i].used
    {
      assert r[i] == SplitAt(bs, k, mid, i);
      if i != k + 1 {
        var i' := if i <= k then i else i - 1;
        Apart(bs, end, i', k, GAP);
        assert bs[i'] in bs;
      }
    }
  }

  lemma JoinFlags(bs: seq<Block>, used: map<nat, bool>, k: nat)
    requires Flags(bs, used) && k + 1 < |bs|
    ensures Flags(Join(bs, k), used)
  {
    var r := Join(bs, k);
    forall i | 0 <= i < |r|
      ensures r[i].start in used && used[r[i].start] == r[i].used
    {
      JoinIndex(bs, k, i);
      assert bs[if i <= k then i else i + 1] in bs;
    }
  }

  lemma SplitThenMark(bs: seq<Block>, k: nat, mid: nat)
    requires k < |bs|
    ensures Mark(Split(bs, k, mid), k, true) == Split(Mark(bs, k, true), k, mid)
  {
  }

  /** No free block starts inside another block. */
  lemma MidNotListed(h: Pool, k: nat, mid: nat)
    requires Inv(h) && k < |h.blocks| && h.blocks[k].start < mid < h.blocks[k].next
    ensures mid !in h.free && mid < h.poolSize
  {
    Apart(h.blocks, h.poolSize - HDR, k, k, GAP);
    if mid in h.free {
      ListedIsFree(h, mid);
      Apart(h.blocks, h.poolSize - HDR, HeaderIndex(h.blocks, mid), k, GAP);
    }
  }

  lemma UsedNotListed(h: Pool, k: nat)
    requires Inv(h) && k < |h.blocks| && h.blocks[k].used
    ensures h.blocks[k].start !in h.free
  {
    if h.blocks[k].start in h.free {
      ListedIsFree(h, h.blocks[k].start);
      IndexUnique(h.blocks, h.poolSize - HDR, k, GAP);
    }
  }

  lemma FindStep(bs: seq<Block>, free: seq<nat>, j: nat, size: nat)
    requires j < |free|
    ensures FindFree(bs, free[j..], size) == if RoomAt(bs, free[j]) >= size then Some(free[j]) else FindFree(bs, free[j + 1..], size)
  {
    assert free[j..][0] == free[j] && free[j..][1..] == free[j + 1..];
  }

  /** While block k is being freed, all other free blocks are on the list. */
  lemma LooseListed(h: Pool, k: nat, listed: bool)
    requires Loose(h, k, listed)
    ensures forall i | 0 <= i < |h.blocks| && i != k && !h.blocks[i].used :: h.blocks[i].start in h.free
  {
    ListsView(h.free, if listed then Idle(h.blocks) else Idle(h.blocks) - {h.blocks[k].start});
    IdleView(h.blocks);
    forall i | 0 <= i < |h.blocks| && i != k && !h.blocks[i].used
      ensures h.blocks[i].start in h.free
    {
      StartsDiffer(h.blocks, h.poolSize - HDR, i, k, GAP);
      assert h.blocks[i] in h.blocks;
    }
  }

  /** What follows a split-off header is what followed the block. */
  lemma SplitNext(bs: seq<Block>, k: nat, mid: nat)
    requires k < |bs|
    ensures var s := Split(bs, k, mid);
            && s[k + 1] == Block(mid, bs[k].next, false)
            && (k + 1 < |bs| ==> s[k + 2] == bs[k + 1])
            && (NextFree(s, k + 1) <==> NextFree(bs, k))
  {
    if k + 1 < |bs| {
      assert Split(bs, k, mid)[k + 2] == SplitAt(bs, k, mid, k + 2);
    }
  }
}
