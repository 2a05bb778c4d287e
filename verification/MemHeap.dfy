/** The memory heap object: a pool of blocks with a free list, boundary tags and running statistics. Addresses and
    sizes are in 32-bit words: with RT_ALIGN_SIZE 4 all are multiples of four bytes, and a header is six words. */
module MemHeap {
  import opened Options
  import opened Seqs
  import opened Blocks

  const HDR: nat := 6           // RT_MEMHEAP_SIZE
  const MIN: nat := 3           // RT_MEMHEAP_MINIALLOC
  const GAP: nat := HDR + MIN - 1

  /** blocks are all headers but the tailer, in address order; free is the free list from its header on. */
  datatype Pool = Pool(poolSize: nat, blocks: seq<Block>, free: seq<nat>, available: int, maxUsed: int)

  /** MEMITEM_SIZE. */
  function Room(b: Block): int {
    b.next - b.start - HDR
  }

  // ---------- the invariant ----------

  /** The addresses of the free blocks. */
  ghost function Idle(bs: seq<Block>): set<nat> {
    if bs == [] then {} else (if bs[0].used then {} else {bs[0].start}) + Idle(bs[1..])
  }

  lemma {:induction false} IdleView(bs: seq<Block>)
    ensures Idle(bs) == set b | b in bs && !b.used :: b.start
  {
    if bs != [] {
      IdleView(bs[1..]);
      assert bs == [bs[0]] + bs[1..];
    }
  }

  /** The list holds exactly the given addresses, each once. */
  ghost predicate Lists(free: seq<nat>, idle: set<nat>) {
    if free == [] then idle == {} else free[0] in idle && Lists(free[1..], idle - {free[0]})
  }

  lemma {:induction false} ListsView(free: seq<nat>, idle: set<nat>)
    ensures Lists(free, idle) <==> NoDup(free) && forall a :: a in free <==> a in idle
  {
    if free != [] {
      var t := free[1..];
      ListsView(t, idle - {free[0]});
      assert free == [free[0]] + t;
      if NoDup(free) && forall a :: a in free <==> a in idle {
        assert free[0] in free;
        NoDupTail(free);
      }
      if Lists(t, idle - {free[0]}) && free[0] in idle {
        NoDupMore(free);
      }
    }
  }

  lemma NoDupTail(q: seq<nat>)
    requires NoDup(q) && q != []
    ensures NoDup(q[1..]) && q[0] !in q[1..]
  {
  }

  lemma NoDupMore(q: seq<nat>)
    requires q != [] && NoDup(q[1..]) && q[0] !in q[1..]
    ensures NoDup(q)
  {
    forall i, j | 0 <= i < j < |q|
      ensures q[i] != q[j]
    {
      assert q[j] == q[1..][j - 1];
      assert i > 0 ==> q[i] == q[1..][i - 1];
    }
  }

  function FreeRoom(bs: seq<Block>): int {
    SumOf(bs, false, HDR)
  }

  /** The blocks tile the pool up to the tailer, each with at least the minimal room; no two neighbours are both
      free; the free list holds exactly the free blocks; and the statistics are what they say. */
  ghost predicate Inv(h: Pool) {
    && HDR <= h.poolSize
    && Tiled(h.blocks, h.poolSize - HDR, GAP) && NoTwoFree(h.blocks)
    && Lists(h.free, Idle(h.blocks))
    && h.available == FreeRoom(h.blocks) && h.poolSize - h.available <= h.maxUsed
  }

  // ---------- operations ----------

  function Max(a: int, b: int): int {
    if a < b then b else a
  }

  function Wanted(bytes: nat): nat {
    if (bytes + 3) / 4 < MIN then MIN else (bytes + 3) / 4
  }

  function Tally(h: Pool): Pool {
    h.(maxUsed := Max(h.maxUsed, h.poolSize - h.available))
  }

  function RoomAt(bs: seq<Block>, a: nat): int {
    if HeaderIndex(bs, a) < |bs| then Room(bs[HeaderIndex(bs, a)]) else 0
  }

  /** The search of rt_memheap_alloc: the first block on the free list that is large enough. */
  function FindFree(bs: seq<Block>, free: seq<nat>, size: nat): (r: Option<nat>)
    ensures r.Some? ==> r.value in free && RoomAt(bs, r.value) >= size
    ensures r.None? ==> forall a <- free :: RoomAt(bs, a) < size
  {
    if free == [] then None
    else if RoomAt(bs, free[0]) >= size then Some(free[0])
    else FindFree(bs, free[1..], size)
  }

  /** Block k is taken; the rest is split off if it can hold a header and the minimum. */
  function Claim(h: Pool, k: nat, size: nat): Pool
    requires k < |h.blocks|
  {
    var b := h.blocks[k];
    var marked, left := Mark(h.blocks, k, true), Without(h.free, b.start);
    if Room(b) >= size + HDR + MIN then
      var mid := b.start + HDR + size;
      Tally(h.(blocks := Split(marked, k, mid), free := [mid] + left, available := h.available - size - HDR))
    else
      Tally(h.(blocks := marked, free := left, available := h.available - Room(b)))
  }

  /** The block rt_memheap_alloc chooses. */
  function Chosen(h: Pool, bytes: nat): Option<nat> {
    if Wanted(bytes) < h.available then FindFree(h.blocks, h.free, Wanted(bytes)) else None
  }

  /** rt_memheap_alloc; the result is the address of the user data. */
  function Alloc(h: Pool, bytes: nat): (Pool, Option<nat>)
    requires Inv(h)
  {
    var a := Chosen(h, bytes);
    if a.None? then (h, None)
    else
      ListedIsFree(h, a.value);
      (Claim(h, HeaderIndex(h.blocks, a.value), Wanted(bytes)), Some(a.value + HDR))
  }

  /** rt_memheap_free of block k, in its three steps. */
  function MarkFree(h: Pool, k: nat): Pool
    requires k < |h.blocks|
  {
    h.(blocks := Mark(h.blocks, k, false), available := h.available + Room(h.blocks[k]))
  }

  predicate PrevFree(bs: seq<Block>, k: nat) {
    0 < k < |bs| && !bs[k - 1].used
  }

  predicate NextFree(bs: seq<Block>, k: nat) {
    k + 1 < |bs| && !bs[k + 1].used
  }

  /** Merging block k into its predecessor, which stays on the free list. */
  function MergePrev(h: Pool, k: nat): Pool
    requires PrevFree(h.blocks, k)
  {
    h.(blocks := Join(h.blocks, k - 1), available := h.available + HDR)
  }

  /** Merging the successor of block k into it; the successor leaves the free list. */
  function MergeNext(h: Pool, k: nat): Pool
    requires NextFree(h.blocks, k)
  {
    h.(blocks := Join(h.blocks, k), free := Without(h.free, h.blocks[k + 1].start), available := h.available + HDR)
  }

  function Free(h: Pool, k: nat): Pool
    requires k < |h.blocks|
  {
    var h1 := MarkFree(h, k);
    if PrevFree(h1.blocks, k) then
      var h2 := MergePrev(h1, k);
      if NextFree(h2.blocks, k - 1) then MergeNext(h2, k - 1) else h2
    else
      var h3 := if NextFree(h1.blocks, k) then MergeNext(h1, k) else h1;
      h3.(free := [h.blocks[k].start] + h3.free)
  }

  /** The in-place growth of rt_memheap_realloc: the header of the free successor moves up to make room. */
  function Grow(h: Pool, k: nat, size: nat): Pool
    requires NextFree(h.blocks, k)
  {
    var b, mid := h.blocks[k], h.blocks[k].start + HDR + size;
    Tally(h.(blocks := Split(Join(h.blocks, k), k, mid),
             free := [mid] + Without(h.free, h.blocks[k + 1].start),
             available := h.available - (size - Room(b))))
  }

  /** The split of rt_memheap_realloc. */
  function Shrink(h: Pool, k: nat, size: nat): Pool
    requires k < |h.blocks|
  {
    var b, mid := h.blocks[k], h.blocks[k].start + HDR + size;
    var split := Split(h.blocks, k, mid);
    if NextFree(h.blocks, k) then
      h.(blocks := Join(split, k + 1),
         free := [mid] + Without(h.free, h.blocks[k + 1].start),
         available := h.available - Room(h.blocks[k + 1]) + (h.blocks[k + 1].next - mid - HDR))
    else
      h.(blocks := split, free := [mid] + h.free, available := h.available + (b.next - mid - HDR))
  }

  // ---------- pointers ----------

  /** p is the user data of a block in use. */
  predicate IsLive(h: Pool, p: nat) {
    HDR <= p && var k := HeaderIndex(h.blocks, p - HDR); k < |h.blocks| && h.blocks[k].used
  }

  function BlockAt(h: Pool, p: nat): (b: Block)
    requires IsLive(h, p)
    ensures b in Live(h.blocks) && b.start + HDR == p
  {
    LiveView(h.blocks);
    h.blocks[HeaderIndex(h.blocks, p - HDR)]
  }

  lemma LiveIsIndexed(h: Pool, b: Block)
    requires Inv(h) && b in Live(h.blocks)
    ensures IsLive(h, b.start + HDR) && h.blocks[HeaderIndex(h.blocks, b.start)] == b
  {
    LiveView(h.blocks);
    var i :| 0 <= i < |h.blocks| && h.blocks[i] == b;
    IndexUnique(h.blocks, h.poolSize - HDR, i, GAP);
  }

  lemma ListedIsFree(h: Pool, a: nat)
    requires Inv(h) && a in h.free
    ensures HeaderIndex(h.blocks, a) < |h.blocks| && !h.blocks[HeaderIndex(h.blocks, a)].used
  {
    ListsView(h.free, Idle(h.blocks));
    IdleView(h.blocks);
    var i :| 0 <= i < |h.blocks| && h.blocks[i].start == a && !h.blocks[i].used;
    IndexUnique(h.blocks, h.poolSize - HDR, i, GAP);
  }

  lemma FreeIsListed(h: Pool, k: nat)
    requires Inv(h) && k < |h.blocks| && !h.blocks[k].used
    ensures h.blocks[k].start in h.free && HeaderIndex(h.blocks, h.blocks[k].start) == k
  {
    ListsView(h.free, Idle(h.blocks));
    IdleView(h.blocks);
    IndexUnique(h.blocks, h.poolSize - HDR, k, GAP);
  }

  // ---------- the free list follows the blocks ----------

  lemma MarkIdle(bs: seq<Block>, k: nat, used: bool, end: nat)
    requires Tiled(bs, end, GAP) && k < |bs| && bs[k].used != used
    ensures Idle(Mark(bs, k, used)) == if used then Idle(bs) - {bs[k].start} else Idle(bs) + {bs[k].start}
    ensures !used ==> bs[k].start !in Idle(bs)
  {
    var r := Mark(bs, k, used);
    IdleView(bs);
    IdleView(r);
    assert r[k] in r;
    forall i | 0 <= i < |bs| && i != k
      ensures r[i] == bs[i] && bs[i].start != bs[k].start && bs[i] in r
    {
      StartsDiffer(bs, end, i, k, GAP);
      assert r[i] in r;
    }
  }

  lemma SplitIdle(bs: seq<Block>, k: nat, mid: nat, end: nat)
    requires Tiled(bs, end, GAP) && k < |bs| && bs[k].used && bs[k].start < mid < bs[k].next
    ensures Idle(Split(bs, k, mid)) == Idle(bs) + {mid} && mid !in Idle(bs)
  {
    var r := Split(bs, k, mid);
    IdleView(bs);
    IdleView(r);
    BySpread(bs, end, GAP);
    assert r[k + 1] in r;
    forall i | 0 <= i < |bs|
      ensures bs[i].start != mid && (i != k ==> bs[i] in r)
    {
      var i' := if i < k then i else i + 1;
      assert i != k ==> r[i'] == bs[i] && r[i'] in r;
    }
    forall i | 0 <= i < |r|
      ensures r[i] in bs || i == k || i == k + 1
    {
      assert r[i] == SplitAt(bs, k, mid, i);
    }
    assert forall b | b in r && !b.used :: b in bs || b == r[k + 1];
  }

  lemma JoinIdle(bs: seq<Block>, k: nat, end: nat)
    requires Tiled(bs, end, GAP) && k + 1 < |bs| && !bs[k + 1].used
    ensures Idle(Join(bs, k)) == Idle(bs) - {bs[k + 1].start} && bs[k + 1].start in Idle(bs)
  {
    hide TiledFrom, Idle, NoTwoFree;
    var r := Join(bs, k);
    IdleView(bs);
    IdleView(r);
    forall i | 0 <= i < |bs| && i != k + 1
      ensures bs[i].start != bs[k + 1].start
      ensures exists b <- r :: b.start == bs[i].start && b.used == bs[i].used
    {
      StartsDiffer(bs, end, i, k + 1, GAP);
      var i' := if i <= k then i else i - 1;
      JoinIndex(bs, k, i');
      assert r[i'] in r;
    }
    forall i | 0 <= i < |r|
      ensures exists b <- bs :: b.start == r[i].start && b.used == r[i].used && b.start != bs[k + 1].start
    {
      JoinIndex(bs, k, i);
      var i' := if i <= k then i else i + 1;
      StartsDiffer(bs, end, i', k + 1, GAP);
      assert bs[i'] in bs;
    }
  }

  lemma ListsWithout(free: seq<nat>, idle: set<nat>, a: nat)
    requires Lists(free, idle)
    ensures Lists(Without(free, a), idle - {a})
  {
    ListsView(free, idle);
    WithoutKeepsDistinct(free, a);
    ListsView(Without(free, a), idle - {a});
  }

  lemma ListsWith(free: seq<nat>, idle: set<nat>, a: nat)
    requires Lists(free, idle) && a !in idle
    ensures Lists([a] + free, idle + {a})
  {
    assert ([a] + free)[1..] == free && idle + {a} - {a} == idle;
  }

  // ---------- the invariant is kept ----------

  lemma ClaimKeeps(h: Pool, k: nat, size: nat)
    requires Inv(h) && k < |h.blocks| && !h.blocks[k].used && MIN <= size <= Room(h.blocks[k])
    ensures var r := Claim(h, k, size);
            && Inv(r) && r.poolSize == h.poolSize && k < |r.blocks|
            && r.blocks[k].start == h.blocks[k].start && Room(r.blocks[k]) >= size && r.blocks[k].next <= h.blocks[k].next
            && Live(r.blocks) == Live(h.blocks) + {r.blocks[k]} && r.blocks[k] !in Live(h.blocks)
  {
    hide Live;
    var bs, end, b := h.blocks, h.poolSize - HDR, h.blocks[k];
    var marked := Mark(bs, k, true);
    MarkedKeeps(bs, end, k, GAP);
    MarkIdle(bs, k, true, end);
    MarkSum(bs, k, true, false, HDR);
    ListsWithout(h.free, Idle(bs), b.start);
    if Room(b) >= size + HDR + MIN {
      ClaimPart(h, k, size, marked, Without(h.free, b.start));
    }
  }

  lemma ClaimPart(h: Pool, k: nat, size: nat, marked: seq<Block>, left: seq<nat>)
    requires Inv(h) && k < |h.blocks| && !h.blocks[k].used && MIN <= size && size + HDR + MIN <= Room(h.blocks[k])
    requires |marked| == |h.blocks| && Tiled(marked, h.poolSize - HDR, GAP) && NoTwoFree(marked)
    requires marked[k] == h.blocks[k].(used := true) && (k + 1 < |marked| ==> marked[k + 1].used)
    requires FreeRoom(marked) == h.available - Room(h.blocks[k]) && Lists(left, Idle(marked))
    requires Live(marked) == Live(h.blocks) + {marked[k]} && marked[k] !in Live(h.blocks)
    ensures var mid := h.blocks[k].start + HDR + size;
            var bs := Split(marked, k, mid);
            && Tiled(bs, h.poolSize - HDR, GAP) && NoTwoFree(bs) && Lists([mid] + left, Idle(bs))
            && FreeRoom(bs) == h.available - size - HDR
            && bs[k] == marked[k].(next := mid) && bs[k] !in Live(h.blocks) && Live(bs) == Live(h.blocks) + {bs[k]}
  {
    var end, mid := h.poolSize - HDR, h.blocks[k].start + HDR + size;
    SplitKeeps(marked, end, k, mid, GAP);
    SplitIdle(marked, k, mid, end);
    SplitSum(marked, k, mid, false, HDR);
    ListsWith(left, Idle(marked), mid);
    StartNotLive(h.blocks, end, k, GAP);
    Exchange(Live(h.blocks), marked[k], marked[k].(next := mid));
  }

  /** In the middle of rt_memheap_free: block k is free, may have free neighbours, and is on the free list or not. */
  ghost predicate Loose(h: Pool, k: nat, listed: bool) {
    && HDR <= h.poolSize && k < |h.blocks| && !h.blocks[k].used
    && Tiled(h.blocks, h.poolSize - HDR, GAP) && NoTwoFreeBut(h.blocks, k)
    && Lists(h.free, if listed then Idle(h.blocks) else Idle(h.blocks) - {h.blocks[k].start})
    && h.available == FreeRoom(h.blocks) && h.poolSize - h.available <= h.maxUsed
  }

  lemma MarkFreeKeeps(h: Pool, k: nat)
    requires Inv(h) && k < |h.blocks| && h.blocks[k].used
    ensures var r := MarkFree(h, k);
            && Loose(r, k, false) && Live(r.blocks) == Live(h.blocks) - {h.blocks[k]}
            && r.poolSize == h.poolSize && r.maxUsed == h.maxUsed
  {
    var bs, end := h.blocks, h.poolSize - HDR;
    NoTwoFreeAlternates(bs);
    MarkTiled(bs, k, false, end, GAP);
    MarkLive(bs, k, end, GAP);
    MarkIdle(bs, k, false, end);
    MarkSum(bs, k, false, false, HDR);
    TakeBack(Idle(bs), bs[k].start);
    BySpread(bs, end, GAP);
  }

  lemma TakeBack(s: set<nat>, a: nat)
    requires a !in s
    ensures s + {a} - {a} == s
  {
  }

  lemma MergePrevKeeps(h: Pool, k: nat)
    requires Loose(h, k, false) && PrevFree(h.blocks, k)
    ensures var r := MergePrev(h, k);
            && Loose(r, k - 1, true) && Live(r.blocks) == Live(h.blocks) && r.poolSize == h.poolSize && r.maxUsed == h.maxUsed
            && (k > 1 ==> r.blocks[k - 2].used)
  {
    var bs, end := h.blocks, h.poolSize - HDR;
    JoinTiled(bs, k - 1, end, GAP);
    JoinNoTwoFree(bs, k - 1, k);
    JoinIdle(bs, k - 1, end);
    JoinSum(bs, k - 1, false, HDR);
    JoinLive(bs, k - 1);
    JoinIndex(bs, k - 1, k - 1);
    NextIsAtEnd(bs, end, k - 1, GAP);
  }

  lemma MergeNextKeeps(h: Pool, k: nat, listed: bool)
    requires Loose(h, k, listed) && NextFree(h.blocks, k)
    ensures var r := MergeNext(h, k);
            && Loose(r, k, listed) && Live(r.blocks) == Live(h.blocks) && r.poolSize == h.poolSize && r.maxUsed == h.maxUsed
            && r.blocks[k].start == h.blocks[k].start
            && (k > 0 ==> r.blocks[k - 1] == h.blocks[k - 1]) && (k + 1 < |r.blocks| ==> r.blocks[k + 1].used)
  {
    var bs, end := h.blocks, h.poolSize - HDR;
    var a, n := bs[k].start, bs[k + 1].start;
    JoinTiled(bs, k, end, GAP);
    JoinNoTwoFree(bs, k, k);
    JoinIdle(bs, k, end);
    JoinSum(bs, k, false, HDR);
    JoinLive(bs, k);
    JoinIndex(bs, k, k);
    NextIsAtEnd(bs, end, k, GAP);
    ListsWithout(h.free, if listed then Idle(bs) else Idle(bs) - {a}, n);
    BothOut(Idle(bs), a, n);
  }

  lemma BothOut(s: set<nat>, a: nat, b: nat)
    ensures s - {a} - {b} == s - {b} - {a}
  {
  }

  lemma Closed(h: Pool, k: nat)
    requires Loose(h, k, true)
    requires k + 1 < |h.blocks| ==> h.blocks[k + 1].used
    requires k > 0 ==> h.blocks[k - 1].used
    ensures Inv(h)
  {
    NoTwoFreeClosed(h.blocks, k);
  }

  lemma Listed(h: Pool, k: nat)
    requires Loose(h, k, false)
    ensures Loose(h.(free := [h.blocks[k].start] + h.free), k, true)
  {
    IdleView(h.blocks);
    ListsWith(h.free, Idle(h.blocks) - {h.blocks[k].start}, h.blocks[k].start);
    assert h.blocks[k] in h.blocks;
    assert Idle(h.blocks) - {h.blocks[k].start} + {h.blocks[k].start} == Idle(h.blocks);
  }

  /** rt_memheap_free takes exactly one block out of use. */
  lemma FreeKeeps(h: Pool, k: nat)
    requires Inv(h) && k < |h.blocks| && h.blocks[k].used
    ensures var r := Free(h, k);
            && Inv(r) && r.poolSize == h.poolSize && r.maxUsed == h.maxUsed
            && Live(r.blocks) == Live(h.blocks) - {h.blocks[k]}
  {
    MarkFreeKeeps(h, k);
    var h1 := MarkFree(h, k);
    if PrevFree(h1.blocks, k) {
      MergePrevKeeps(h1, k);
      AfterPrev(MergePrev(h1, k), k - 1);
    } else {
      NotAfterPrev(h1, k);
    }
  }

  lemma AfterPrev(h: Pool, k: nat)
    requires Loose(h, k, true) && (k > 0 ==> h.blocks[k - 1].used)
    ensures var r := if NextFree(h.blocks, k) then MergeNext(h, k) else h;
            Inv(r) && r.poolSize == h.poolSize && r.maxUsed == h.maxUsed && Live(r.blocks) == Live(h.blocks)
  {
    if NextFree(h.blocks, k) {
      MergeNextKeeps(h, k, true);
      Closed(MergeNext(h, k), k);
    } else {
      Closed(h, k);
    }
  }

  lemma NotAfterPrev(h: Pool, k: nat)
    requires Loose(h, k, false) && (k > 0 ==> h.blocks[k - 1].used)
    ensures var h3 := if NextFree(h.blocks, k) then MergeNext(h, k) else h;
            var r := h3.(free := [h.blocks[k].start] + h3.free);
            Inv(r) && r.poolSize == h.poolSize && r.maxUsed == h.maxUsed && Live(r.blocks) == Live(h.blocks)
  {
    if NextFree(h.blocks, k) {
      MergeNextKeeps(h, k, false);
      Listed(MergeNext(h, k), k);
      Closed(MergeNext(h, k).(free := [h.blocks[k].start] + MergeNext(h, k).free), k);
    } else {
      Listed(h, k);
      Closed(h.(free := [h.blocks[k].start] + h.free), k);
    }
  }

  /** The successor of block k may take the space up to mid, from which a free block remains. */
  lemma GrowKeeps(h: Pool, k: nat, size: nat)
    requires Inv(h) && k < |h.blocks| && h.blocks[k].used && NextFree(h.blocks, k)
    requires Room(h.blocks[k]) < size && size + MIN < Room(h.blocks[k + 1]) + Room(h.blocks[k])
    ensures var r, b := Grow(h, k, size), h.blocks[k];
            && Inv(r) && r.poolSize == h.poolSize
            && Live(r.blocks) == Live(h.blocks) - {b} + {b.(next := b.start + HDR + size)}
  {
    var bs, end, b, n := h.blocks, h.poolSize - HDR, h.blocks[k], h.blocks[k + 1];
    var mid := b.start + HDR + size;
    var joined := Join(bs, k);
    NextIsAtEnd(bs, end, k, GAP);
    BySpread(bs, end, GAP);
    JoinUsedNext(bs, end, k);
    SplitKeeps(joined, end, k, mid, GAP);
    SplitIdle(joined, k, mid, end);
    SplitSum(joined, k, mid, false, HDR);
    ListsWithout(h.free, Idle(bs), n.start);
    ListsWith(Without(h.free, n.start), Idle(joined), mid);
    TwiceExchanged(Live(bs), b, joined[k], b.(next := mid));
  }

  lemma TwiceExchanged(s: set<Block>, a: Block, b: Block, c: Block)
    requires b !in s
    ensures s - {a} + {b} - {b} + {c} == s - {a} + {c}
  {
  }

  /** A block in use swallows its free successor. */
  lemma JoinUsedNext(bs: seq<Block>, end: nat, k: nat)
    requires Tiled(bs, end, GAP) && NoTwoFree(bs) && k + 1 < |bs| && bs[k].used && !bs[k + 1].used
    ensures var r := Join(bs, k);
            && Tiled(r, end, GAP) && NoTwoFree(r) && r[k] == bs[k].(next := bs[k + 1].next)
            && (k + 1 < |r| ==> r[k + 1].used)
            && Idle(r) == Idle(bs) - {bs[k + 1].start}
            && FreeRoom(r) == FreeRoom(bs) - Room(bs[k + 1])
            && Live(r) == Live(bs) - {bs[k]} + {r[k]} && r[k] !in Live(bs)
  {
    var r := Join(bs, k);
    NoTwoFreeAlternates(bs);
    JoinTiled(bs, k, end, GAP);
    JoinIdle(bs, k, end);
    JoinSum(bs, k, false, HDR);
    JoinLiveUsed(bs, k, end, GAP);
    forall i, j | 0 <= i < j < |r| && j <= i + 1
      ensures r[i].used || r[j].used
    {
      JoinIndex(bs, k, i);
      JoinIndex(bs, k, j);
    }
    NoTwoFreeAlternates(r);
    JoinIndex(bs, k, k);
    if k + 1 < |r| {
      JoinIndex(bs, k, k + 1);
      assert bs[k + 1].used || bs[k + 2].used;
    }
  }

  lemma ShrinkKeeps(h: Pool, k: nat, size: nat)
    requires Inv(h) && k < |h.blocks| && h.blocks[k].used && MIN <= size && size + HDR + MIN < Room(h.blocks[k])
    ensures var r, b := Shrink(h, k, size), h.blocks[k];
            && Inv(r) && r.poolSize == h.poolSize && r.maxUsed == h.maxUsed
            && Live(r.blocks) == Live(h.blocks) - {b} + {b.(next := b.start + HDR + size)}
  {
    var bs, end, b := h.blocks, h.poolSize - HDR, h.blocks[k];
    var mid := b.start + HDR + size;
    var split := Split(bs, k, mid);
    SplitTiled(bs, k, mid, end, GAP);
    SplitLive(bs, k, mid, end, GAP);
    SplitNoTwoFree(bs, k, mid);
    SplitIdle(bs, k, mid, end);
    SplitSum(bs, k, mid, false, HDR);
    ListsWith(h.free, Idle(bs), mid);
    assert split[k] == SplitAt(bs, k, mid, k) && split[k + 1] == SplitAt(bs, k, mid, k + 1);
    if NextFree(bs, k) {
      assert split[k + 2] == SplitAt(bs, k, mid, k + 2);
      ShrinkMerges(h, k, mid, split);
    }
  }

  lemma ShrinkMerges(h: Pool, k: nat, mid: nat, split: seq<Block>)
    requires Inv(h) && k < |h.blocks| && NextFree(h.blocks, k) && h.blocks[k].start + HDR + MIN <= mid < h.blocks[k].next
    requires k + 2 < |split| && Tiled(split, h.poolSize - HDR, GAP) && NoTwoFreeBut(split, k + 1)
    requires split[k].used && split[k + 1] == Block(mid, h.blocks[k].next, false) && split[k + 2] == h.blocks[k + 1]
    requires Idle(split) == Idle(h.blocks) + {mid} && mid !in Idle(h.blocks)
    requires FreeRoom(split) == h.available + (h.blocks[k].next - mid - HDR)
    ensures var n, joined := h.blocks[k + 1], Join(split, k + 1);
            && Tiled(joined, h.poolSize - HDR, GAP) && NoTwoFree(joined) && Live(joined) == Live(split)
            && Lists([mid] + Without(h.free, n.start), Idle(joined))
            && FreeRoom(joined) == h.available - Room(n) + (n.next - mid - HDR)
            && FreeRoom(joined) >= h.available
  {
    var n, end := h.blocks[k + 1], h.poolSize - HDR;
    JoinTiled(split, k + 1, end, GAP);
    JoinNoTwoFree(split, k + 1, k + 1);
    JoinIdle(split, k + 1, end);
    JoinSum(split, k + 1, false, HDR);
    JoinLive(split, k + 1);
    NoTwoFreeClosed(Join(split, k + 1), k + 1);
    ListsWithout(h.free, Idle(h.blocks), n.start);
    NextIsAtEnd(h.blocks, end, k, GAP);
    assert Idle(h.blocks) + {mid} - {n.start} == Idle(h.blocks) - {n.start} + {mid};
    ListsWith(Without(h.free, n.start), Idle(h.blocks) - {n.start}, mid);
  }

  // ---------- rt_memheap_alloc ----------

  /** rt_memheap_alloc fails exactly if the size is not below available_size or no free block is large enough;
      otherwise a block that was not in use comes into use, large enough, and no other is touched. */
  lemma AllocKeeps(h: Pool, bytes: nat)
    requires Inv(h)
    ensures var (r, p) := Alloc(h, bytes);
            && Inv(r) && r.poolSize == h.poolSize
            && (p.None? <==> h.available <= Wanted(bytes)
                             || forall b <- h.blocks :: !b.used ==> Room(b) < Wanted(bytes))
            && (p.None? ==> r == h)
            && (p.Some? ==> IsLive(r, p.value) && Room(BlockAt(r, p.value)) >= Wanted(bytes)
                            && BlockAt(r, p.value) !in Live(h.blocks)
                            && Live(r.blocks) == Live(h.blocks) + {BlockAt(r, p.value)})
  {
    var a := Chosen(h, bytes);
    if Wanted(bytes) < h.available {
      if a.Some? {
        var k := HeaderIndex(h.blocks, a.value);
        ListedIsFree(h, a.value);
        ClaimKeeps(h, k, Wanted(bytes));
        LiveIsIndexed(Claim(h, k, Wanted(bytes)), Claim(h, k, Wanted(bytes)).blocks[k]);
        assert h.blocks[k] in h.blocks && !h.blocks[k].used && Room(h.blocks[k]) >= Wanted(bytes);
      } else {
        forall b | b in h.blocks && !b.used
          ensures Room(b) < Wanted(bytes)
        {
          var i :| 0 <= i < |h.blocks| && h.blocks[i] == b;
          FreeIsListed(h, i);
          assert b.start in h.free;
        }
      }
    }
  }

  /** It refuses although a block fits exactly when that block's room is all that is available, to the word. */
  lemma AllocRefusesAFitIff(h: Pool, bytes: nat)
    requires Inv(h)
    ensures Alloc(h, bytes).1.None? && (exists b <- h.blocks :: !b.used && Room(b) >= Wanted(bytes))
            <==> exists b <- h.blocks :: !b.used && Room(b) == Wanted(bytes) == h.available
  {
    AllocKeeps(h, bytes);
    forall b | b in h.blocks && !b.used
      ensures Room(b) <= h.available
    {
      RoomIsPart(h.blocks, 0, h.poolSize - HDR, b);
    }
  }

  /** So an empty pool refuses a request for exactly the room of its one block. */
  lemma WholePoolIsRefused(poolSize: nat, bytes: nat)
    requires 2 * HDR + MIN <= poolSize && Wanted(bytes) == poolSize - 2 * HDR
    ensures Inv(Initial(poolSize)) && Alloc(Initial(poolSize), bytes).1.None?
    ensures exists b <- Initial(poolSize).blocks :: !b.used && Room(b) >= Wanted(bytes)
  {
    InitialKeeps(poolSize);
    var h := Initial(poolSize);
    assert h.blocks[0] in h.blocks && Room(h.blocks[0]) == Wanted(bytes) == h.available;
    AllocRefusesAFitIff(h, bytes);
  }

  lemma {:induction false} RoomIsPart(bs: seq<Block>, a: nat, end: nat, b: Block)
    requires TiledFrom(bs, a, end, GAP) && b in bs && !b.used
    ensures 0 <= Room(b) <= FreeRoom(bs)
  {
    if b == bs[0] {
      FreeRoomIsNat(bs[1..], bs[0].next, end);
    } else {
      assert b in bs[1..];
      RoomIsPart(bs[1..], bs[0].next, end, b);
    }
  }

  lemma {:induction false} FreeRoomIsNat(bs: seq<Block>, a: nat, end: nat)
    requires TiledFrom(bs, a, end, GAP)
    ensures 0 <= FreeRoom(bs)
  {
    if bs != [] {
      FreeRoomIsNat(bs[1..], bs[0].next, end);
    }
  }

  lemma LiveStaysLive(h: Pool, bytes: nat, p: nat)
    requires Inv(h) && IsLive(h, p)
    ensures var r := Alloc(h, bytes).0; IsLive(r, p) && BlockAt(r, p) == BlockAt(h, p)
  {
    AllocKeeps(h, bytes);
    LiveIsIndexed(Alloc(h, bytes).0, BlockAt(h, p));
  }

  // ---------- rt_memheap_realloc ----------

  function FreeAt(h: Pool, p: nat): Pool
    requires IsLive(h, p)
  {
    Free(h, HeaderIndex(h.blocks, p - HDR))
  }

  /** Whether the free successor of block k has enough to spare. */
  predicate CanGrow(bs: seq<Block>, k: nat, size: nat) {
    NextFree(bs, k) && Room(bs[k + 1]) + Room(bs[k]) > size + MIN
  }

  /** rt_memheap_realloc of a live block, or of NULL. */
  function Realloc(h: Pool, p: Option<nat>, bytes: nat): (Pool, Option<nat>)
    requires Inv(h) && (p.Some? ==> IsLive(h, p.value))
  {
    if bytes == 0 then (if p.None? then h else FreeAt(h, p.value), None)
    else if p.None? then Alloc(h, 4 * Wanted(bytes))
    else Resize(h, p.value, Wanted(bytes))
  }

  /** Its way to a size that is not larger: nothing is split off that could not hold a block. */
  function Reduce(h: Pool, p: nat, size: nat): Pool
    requires IsLive(h, p)
  {
    var k := HeaderIndex(h.blocks, p - HDR);
    if size + HDR + MIN >= Room(h.blocks[k]) then h else Shrink(h, k, size)
  }

  /** A live block on its way to another size. */
  function Resize(h: Pool, p: nat, size: nat): (Pool, Option<nat>)
    requires Inv(h) && IsLive(h, p)
  {
    if Room(BlockAt(h, p)) < size then Enlarge(h, p, size) else (Reduce(h, p, size), Some(p))
  }

  /** Its way to a larger size: in place, or to another block. */
  function Enlarge(h: Pool, p: nat, size: nat): (Pool, Option<nat>)
    requires Inv(h) && IsLive(h, p)
  {
    var k := HeaderIndex(h.blocks, p - HDR);
    if CanGrow(h.blocks, k, size) then (Grow(h, k, size), Some(p))
    else
      var (h1, q) := Alloc(h, 4 * size);
      if q.None? then (h1, None)
      else
        LiveStaysLive(h, 4 * size, p);
        (FreeAt(h1, p), q)
  }

  lemma MoveKeeps(h: Pool, p: nat, size: nat)
    requires Inv(h) && IsLive(h, p) && MIN <= size
    ensures var (h1, q) := Alloc(h, 4 * size);
            && IsLive(h1, p) && (q.None? ==> h1 == h)
            && (q.Some? ==>
                  var r := FreeAt(h1, p);
                  && Inv(r) && r.poolSize == h.poolSize && IsLive(r, q.value) && Room(BlockAt(r, q.value)) >= size
                  && BlockAt(r, q.value) !in Live(h.blocks)
                  && Live(r.blocks) == Live(h.blocks) - {BlockAt(h, p)} + {BlockAt(r, q.value)})
  {
    hide Alloc, NoTwoFree, Idle, FreeRoom, Lists, Free;
    var (h1, q) := Alloc(h, 4 * size);
    AllocKeeps(h, 4 * size);
    LiveStaysLive(h, 4 * size, p);
    if q.Some? {
      var b, c := BlockAt(h, p), BlockAt(h1, q.value);
      FreeKeeps(h1, HeaderIndex(h1.blocks, p - HDR));
      Replaced(Live(h.blocks), b, c);
      LiveIsIndexed(FreeAt(h1, p), c);
    }
  }

  lemma EnlargeKeeps(h: Pool, p: nat, size: nat)
    requires Inv(h) && IsLive(h, p) && MIN <= size && Room(BlockAt(h, p)) < size
    ensures var (r, q) := Enlarge(h, p, size);
            && Inv(r) && r.poolSize == h.poolSize
            && (q.None? ==> r == h)
            && (q.Some? ==>
                  && IsLive(r, q.value) && Room(BlockAt(r, q.value)) >= size
                  && Live(r.blocks) == Live(h.blocks) - {BlockAt(h, p)} + {BlockAt(r, q.value)}
                  && (q.value != p ==> BlockAt(r, q.value) !in Live(h.blocks)))
  {
    if CanGrow(h.blocks, HeaderIndex(h.blocks, p - HDR), size) {
      GrowInPlace(h, p, size);
    } else {
      MoveKeeps(h, p, size);
    }
  }

  lemma ReduceKeeps(h: Pool, p: nat, size: nat)
    requires Inv(h) && IsLive(h, p) && MIN <= size <= Room(BlockAt(h, p))
    ensures var r := Reduce(h, p, size);
            && Inv(r) && r.poolSize == h.poolSize && IsLive(r, p) && Room(BlockAt(r, p)) >= size
            && Live(r.blocks) == Live(h.blocks) - {BlockAt(h, p)} + {BlockAt(r, p)}
  {
    if size + HDR + MIN >= Room(BlockAt(h, p)) {
      PutBack(Live(h.blocks), BlockAt(h, p));
    } else {
      ShrinkInPlace(h, p, size);
    }
  }

  lemma ResizeKeeps(h: Pool, p: nat, size: nat)
    requires Inv(h) && IsLive(h, p) && MIN <= size
    ensures var (r, q) := Resize(h, p, size);
            && Inv(r) && r.poolSize == h.poolSize
            && (q.None? ==> r == h)
            && (q.Some? ==>
                  && IsLive(r, q.value) && Room(BlockAt(r, q.value)) >= size
                  && Live(r.blocks) == Live(h.blocks) - {BlockAt(h, p)} + {BlockAt(r, q.value)}
                  && (q.value != p ==> BlockAt(r, q.value) !in Live(h.blocks)))
  {
    if Room(BlockAt(h, p)) < size {
      EnlargeKeeps(h, p, size);
    } else {
      ReduceKeeps(h, p, size);
    }
  }

  /** rt_memheap_realloc fails without a change, frees, keeps, grows or shrinks in place, or moves to a block that was
      not in use; no other block in use is touched. */
  lemma ReallocKeeps(h: Pool, p: nat, bytes: nat)
    requires Inv(h) && IsLive(h, p)
    ensures var (r, q) := Realloc(h, Some(p), bytes);
            && Inv(r) && r.poolSize == h.poolSize
            && (q.None? ==> if bytes == 0 then Live(r.blocks) == Live(h.blocks) - {BlockAt(h, p)} else r == h)
            && (q.Some? ==>
                  && IsLive(r, q.value) && Room(BlockAt(r, q.value)) >= Wanted(bytes)
                  && Live(r.blocks) == Live(h.blocks) - {BlockAt(h, p)} + {BlockAt(r, q.value)}
                  && (q.value != p ==> BlockAt(r, q.value) !in Live(h.blocks)))
  {
    if bytes == 0 {
      FreeKeeps(h, HeaderIndex(h.blocks, p - HDR));
    } else {
      ResizeKeeps(h, p, Wanted(bytes));
    }
  }

  lemma GrowInPlace(h: Pool, p: nat, size: nat)
    requires Inv(h) && IsLive(h, p) && Room(BlockAt(h, p)) < size && CanGrow(h.blocks, HeaderIndex(h.blocks, p - HDR), size)
    ensures var r, b := Grow(h, HeaderIndex(h.blocks, p - HDR), size), BlockAt(h, p);
            && Inv(r) && r.poolSize == h.poolSize && IsLive(r, p) && BlockAt(r, p) == b.(next := b.start + HDR + size)
            && Live(r.blocks) == Live(h.blocks) - {b} + {BlockAt(r, p)}
  {
    var b := BlockAt(h, p);
    GrowKeeps(h, HeaderIndex(h.blocks, p - HDR), size);
    LiveIsIndexed(Grow(h, HeaderIndex(h.blocks, p - HDR), size), b.(next := b.start + HDR + size));
  }

  lemma ShrinkInPlace(h: Pool, p: nat, size: nat)
    requires Inv(h) && IsLive(h, p) && MIN <= size && size + HDR + MIN < Room(BlockAt(h, p))
    ensures var r, b := Shrink(h, HeaderIndex(h.blocks, p - HDR), size), BlockAt(h, p);
            && Inv(r) && r.poolSize == h.poolSize && IsLive(r, p) && BlockAt(r, p) == b.(next := b.start + HDR + size)
            && Live(r.blocks) == Live(h.blocks) - {b} + {BlockAt(r, p)}
  {
    var b := BlockAt(h, p);
    ShrinkKeeps(h, HeaderIndex(h.blocks, p - HDR), size);
    LiveIsIndexed(Shrink(h, HeaderIndex(h.blocks, p - HDR), size), b.(next := b.start + HDR + size));
  }

  // ---------- no more than asked for ----------

  /** The block at a live data address is the one whose header lies below it. */
  lemma BlockAtIs(h: Pool, b: Block)
    requires Inv(h) && b in Live(h.blocks)
    ensures IsLive(h, b.start + HDR) && BlockAt(h, b.start + HDR) == b
  {
    LiveIsIndexed(h, b);
  }

  /** A block is cut down to the size asked for unless what is left over could not hold a block of its own. */
  lemma AllocWastesLittle(h: Pool, bytes: nat)
    requires Inv(h) && Alloc(h, bytes).1.Some?
    ensures var (r, p) := Alloc(h, bytes);
            IsLive(r, p.value) && Wanted(bytes) <= Room(BlockAt(r, p.value)) < Wanted(bytes) + HDR + MIN
  {
    var a, size := Chosen(h, bytes), Wanted(bytes);
    ListedIsFree(h, a.value);
    var k := HeaderIndex(h.blocks, a.value);
    ClaimKeeps(h, k, size);
    ClaimedBlock(h, k, size);
    BlockAtIs(Claim(h, k, size), Claim(h, k, size).blocks[k]);
  }

  lemma ClaimedBlock(h: Pool, k: nat, size: nat)
    requires k < |h.blocks| && size <= Room(h.blocks[k])
    ensures k < |Claim(h, k, size).blocks| && Room(Claim(h, k, size).blocks[k]) < size + HDR + MIN
  {
  }

  lemma MoveWastesLittle(h: Pool, p: nat, size: nat)
    requires Inv(h) && IsLive(h, p) && MIN <= size
    ensures var (h1, q) := Alloc(h, 4 * size);
            && IsLive(h1, p)
            && (q.Some? ==> IsLive(FreeAt(h1, p), q.value)
                            && size <= Room(BlockAt(FreeAt(h1, p), q.value)) < size + HDR + MIN)
  {
    var (h1, q) := Alloc(h, 4 * size);
    AllocKeeps(h, 4 * size);
    LiveStaysLive(h, 4 * size, p);
    if q.Some? {
      MoveKeeps(h, p, size);
      AllocWastesLittle(h, 4 * size);
      FreeKeeps(h1, HeaderIndex(h1.blocks, p - HDR));
      BlockAtIs(h1, BlockAt(FreeAt(h1, p), q.value));
    }
  }

  lemma ReallocWastesLittle(h: Pool, p: nat, bytes: nat)
    requires Inv(h) && IsLive(h, p) && Realloc(h, Some(p), bytes).1.Some?
    ensures var (r, q) := Realloc(h, Some(p), bytes);
            IsLive(r, q.value) && Wanted(bytes) <= Room(BlockAt(r, q.value)) <= Wanted(bytes) + HDR + MIN
  {
    var size, k := Wanted(bytes), HeaderIndex(h.blocks, p - HDR);
    assert Realloc(h, Some(p), bytes) == Resize(h, p, size);
    if size <= Room(BlockAt(h, p)) {
      if size + HDR + MIN < Room(BlockAt(h, p)) {
        ShrinkInPlace(h, p, size);
      }
    } else if CanGrow(h.blocks, k, size) {
      GrowInPlace(h, p, size);
    } else {
      MoveWastesLittle(h, p, size);
      assert Enlarge(h, p, size) == (FreeAt(Alloc(h, 4 * size).0, p), Alloc(h, 4 * size).1);
    }
  }

  /** The pool of rt_memheap_init: one free block between the first header and the tailer. */
  function Initial(poolSize: nat): Pool
    requires HDR <= poolSize
  {
    Pool(poolSize, [Block(0, poolSize - HDR, false)], [0], poolSize - 2 * HDR, 2 * HDR)
  }

  lemma InitialKeeps(poolSize: nat)
    requires 2 * HDR + MIN <= poolSize
    ensures Inv(Initial(poolSize)) && Live(Initial(poolSize).blocks) == {} && Idle(Initial(poolSize).blocks) == {0}
  {
    var h := Initial(poolSize);
    TiledIsSpread(h.blocks, 0, poolSize - HDR, GAP);
    SumOfPair(h.blocks[0], h.blocks[0], false, HDR);
    assert h.blocks[1..] == [] && Idle(h.blocks) == {0} && h.free[1..] == [];
  }

  datatype Op = DoAlloc(bytes: nat) | DoFree(p: nat) | DoRealloc(rmem: Option<nat>, bytes: nat)

  /** Only live pointers are freed or reallocated. */
  predicate Enabled(h: Pool, op: Op) {
    match op
    case DoAlloc(_) => true
    case DoFree(p) => IsLive(h, p)
    case DoRealloc(p, _) => p.Some? ==> IsLive(h, p.value)
  }

  function Step(h: Pool, op: Op): Pool
    requires Inv(h) && Enabled(h, op)
  {
    match op
    case DoAlloc(bytes) => Alloc(h, bytes).0
    case DoFree(p) => FreeAt(h, p)
    case DoRealloc(p, bytes) => Realloc(h, p, bytes).0
  }

  lemma StepKeeps(h: Pool, op: Op)
    requires Inv(h) && Enabled(h, op)
    ensures Inv(Step(h, op)) && Step(h, op).poolSize == h.poolSize
  {
    match op
    case DoAlloc(bytes) => AllocKeeps(h, bytes);
    case DoFree(p) => FreeKeeps(h, HeaderIndex(h.blocks, p - HDR));
    case DoRealloc(p, bytes) =>
      if p.Some? {
        ReallocKeeps(h, p.value, bytes);
      } else {
        AllocKeeps(h, 4 * Wanted(bytes));
      }
  }

  ghost predicate Runs(h: Pool, ops: seq<Op>)
    requires Inv(h)
    decreases |ops|
  {
    ops != [] ==> Enabled(h, ops[0]) && (StepKeeps(h, ops[0]); Runs(Step(h, ops[0]), ops[1..]))
  }

  function Run(h: Pool, ops: seq<Op>): (r: Pool)
    requires Inv(h) && Runs(h, ops)
    ensures Inv(r) && r.poolSize == h.poolSize
    decreases |ops|
  {
    if ops == [] then h else StepKeeps(h, ops[0]); Run(Step(h, ops[0]), ops[1..])
  }

  /** In every reachable state of the pool: the blocks are the pool, in address order and without gaps; the free list
      holds exactly the free ones, once each; no two neighbours are free; and available_size is their room. */
  lemma PoolIsAccountedFor(poolSize: nat, ops: seq<Op>)
    requires 2 * HDR + MIN <= poolSize && Inv(Initial(poolSize)) && Runs(Initial(poolSize), ops)
    ensures var r := Run(Initial(poolSize), ops);
            var bs := r.blocks;
            && bs != [] && bs[0].start == 0 && bs[|bs| - 1].next == poolSize - HDR
            && (forall i, j | 0 <= i < j < |bs| && j <= i + 1 :: bs[i].next == bs[j].start && (bs[i].used || bs[j].used))
            && (forall b <- bs :: Room(b) >= MIN)
            && NoDup(r.free) && (forall a :: a in r.free <==> exists b <- bs :: !b.used && b.start == a)
            && r.available == SumOf(bs, false, HDR)
  {
    Accounted(Run(Initial(poolSize), ops));
  }

  lemma Accounted(r: Pool)
    requires Inv(r)
    ensures var bs := r.blocks;
            && bs != [] && bs[0].start == 0 && bs[|bs| - 1].next == r.poolSize - HDR
            && (forall i, j | 0 <= i < j < |bs| && j <= i + 1 :: bs[i].next == bs[j].start && (bs[i].used || bs[j].used))
            && (forall b <- bs :: Room(b) >= MIN)
            && NoDup(r.free) && (forall a :: a in r.free <==> exists b <- bs :: !b.used && b.start == a)
            && r.available == SumOf(bs, false, HDR)
  {
    BySpread(r.blocks, r.poolSize - HDR, GAP);
    NoTwoFreeAlternates(r.blocks);
    IdleView(r.blocks);
    ListsView(r.free, Idle(r.blocks));
    assert forall i | 0 <= i < |r.blocks| :: r.blocks[i].start + GAP < r.blocks[i].next;
  }

  /** The most words that are not available during a step: a realloc that moves holds both blocks for a while. */
  function StepPeak(h: Pool, op: Op): int
    requires Inv(h) && Enabled(h, op)
  {
    var r := Step(h, op);
    if Moves(h, op) then
      h.poolSize - Alloc(h, 4 * Wanted(op.bytes)).0.available
    else r.poolSize - r.available
  }

  predicate Moves(h: Pool, op: Op)
    requires Inv(h) && Enabled(h, op)
  {
    && op.DoRealloc? && op.rmem.Some? && op.bytes != 0
    && var k := HeaderIndex(h.blocks, op.rmem.value - HDR);
       Room(h.blocks[k]) < Wanted(op.bytes) && !CanGrow(h.blocks, k, Wanted(op.bytes))
  }

  function Peak(h: Pool, ops: seq<Op>): int
    requires Inv(h) && Runs(h, ops)
    decreases |ops|
  {
    if ops == [] then h.poolSize - h.available
    else
      StepKeeps(h, ops[0]);
      Max(Max(h.poolSize - h.available, StepPeak(h, ops[0])), Peak(Step(h, ops[0]), ops[1..]))
  }

  lemma AllocTallies(h: Pool, bytes: nat)
    requires Inv(h)
    ensures var r := Alloc(h, bytes).0; r.maxUsed == Max(h.maxUsed, h.poolSize - r.available)
  {
  }

  lemma StepTallies(h: Pool, op: Op)
    requires Inv(h) && Enabled(h, op)
    ensures Step(h, op).maxUsed == Max(h.maxUsed, StepPeak(h, op))
  {
    match op
    case DoAlloc(bytes) => AllocTallies(h, bytes);
    case DoFree(p) => FreeTallies(h, p);
    case DoRealloc(p, bytes) =>
      if p.None? {
        AllocTallies(h, 4 * Wanted(bytes));
      } else if bytes == 0 {
        FreeTallies(h, p.value);
      } else {
        ReallocTallies(h, p.value, bytes);
      }
  }

  lemma FreeTallies(h: Pool, p: nat)
    requires Inv(h) && IsLive(h, p)
    ensures var r := FreeAt(h, p); r.maxUsed == Max(h.maxUsed, h.poolSize - r.available) == h.maxUsed
  {
    FreeKeeps(h, HeaderIndex(h.blocks, p - HDR));
  }

  lemma ReallocTallies(h: Pool, p: nat, bytes: nat)
    requires Inv(h) && IsLive(h, p) && bytes != 0
    ensures Realloc(h, Some(p), bytes).0.maxUsed == Max(h.maxUsed, StepPeak(h, DoRealloc(Some(p), bytes)))
  {
    hide NoTwoFree, Idle, FreeRoom, Tiled, Live, HeaderIndex, Lists;
    var size := Wanted(bytes);
    assert Realloc(h, Some(p), bytes) == Resize(h, p, size);
    if Room(BlockAt(h, p)) >= size {
      ReduceTallies(h, p, size);
    } else {
      EnlargeTallies(h, p, size);
    }
  }

  lemma EnlargeTallies(h: Pool, p: nat, size: nat)
    requires Inv(h) && IsLive(h, p) && MIN <= size
    ensures var r := Enlarge(h, p, size).0;
            && (if CanGrow(h.blocks, HeaderIndex(h.blocks, p - HDR), size) then r.maxUsed == Max(h.maxUsed, h.poolSize - r.available)
                else r.maxUsed == Max(h.maxUsed, h.poolSize - Alloc(h, 4 * size).0.available))
  {
    if !CanGrow(h.blocks, HeaderIndex(h.blocks, p - HDR), size) {
      AllocTallies(h, 4 * size);
      MoveTallies(h, p, size);
    }
  }

  lemma ReduceTallies(h: Pool, p: nat, size: nat)
    requires Inv(h) && IsLive(h, p) && MIN <= size
    ensures var r := Reduce(h, p, size); r.maxUsed == Max(h.maxUsed, h.poolSize - r.available)
  {
    if size + HDR + MIN < Room(BlockAt(h, p)) {
      ShrinkKeeps(h, HeaderIndex(h.blocks, p - HDR), size);
    }
  }

  lemma MoveTallies(h: Pool, p: nat, size: nat)
    requires Inv(h) && IsLive(h, p) && MIN <= size
    ensures var (h1, q) := Alloc(h, 4 * size); IsLive(h1, p) && FreeAt(h1, p).maxUsed == h1.maxUsed
  {
    AllocKeeps(h, 4 * size);
    LiveStaysLive(h, 4 * size, p);
    FreeKeeps(Alloc(h, 4 * size).0, HeaderIndex(Alloc(h, 4 * size).0.blocks, p - HDR));
  }

  /** max_used_size is the most that was ever unavailable. */
  lemma {:induction false} MaxUsedIsPeak(h: Pool, ops: seq<Op>)
    requires Inv(h) && Runs(h, ops) && h.maxUsed == h.poolSize - h.available
    ensures Run(h, ops).maxUsed == Peak(h, ops)
  {
    MaxUsedGrowsToPeak(h, ops);
  }

  lemma {:induction false} MaxUsedGrowsToPeak(h: Pool, ops: seq<Op>)
    requires Inv(h) && Runs(h, ops)
    ensures Run(h, ops).maxUsed == Max(h.maxUsed, Peak(h, ops))
    decreases |ops|
  {
    if ops != [] {
      StepKeeps(h, ops[0]);
      StepTallies(h, ops[0]);
      MaxUsedGrowsToPeak(Step(h, ops[0]), ops[1..]);
    }
  }

  /** Whatever was taken and given back in whatever order, the blocks depend only on what is in use. */
  lemma RunsAgree(poolSize: nat, ops: seq<Op>, ops': seq<Op>)
    requires HDR <= poolSize && Inv(Initial(poolSize)) && Runs(Initial(poolSize), ops) && Runs(Initial(poolSize), ops')
    requires Live(Run(Initial(poolSize), ops).blocks) == Live(Run(Initial(poolSize), ops').blocks)
    ensures var g, h := Run(Initial(poolSize), ops), Run(Initial(poolSize), ops');
            g.blocks == h.blocks && g.available == h.available && forall a :: a in g.free <==> a in h.free
  {
    LiveDeterminesPool(Run(Initial(poolSize), ops), Run(Initial(poolSize), ops'));
  }

  lemma LiveDeterminesPool(g: Pool, h: Pool)
    requires Inv(g) && Inv(h) && g.poolSize == h.poolSize && Live(g.blocks) == Live(h.blocks)
    ensures g.blocks == h.blocks && g.available == h.available && forall a :: a in g.free <==> a in h.free
  {
    LiveDeterminesBlocks(g.blocks, h.blocks, 0, h.poolSize - HDR, GAP);
    ListsView(g.free, Idle(g.blocks));
    ListsView(h.free, Idle(h.blocks));
  }

  /** With nothing in use the pool is one free block again, and all of it is available. */
  lemma AllFreedIsInitial(h: Pool)
    requires Inv(h) && 2 * HDR + MIN <= h.poolSize && Live(h.blocks) == {}
    ensures h == Initial(h.poolSize).(maxUsed := h.maxUsed)
  {
    var g := Initial(h.poolSize);
    InitialKeeps(h.poolSize);
    LiveDeterminesBlocks(h.blocks, g.blocks, 0, h.poolSize - HDR, GAP);
    OneListed(h.free, 0);
  }

  lemma OneListed(free: seq<nat>, a: nat)
    requires Lists(free, {a})
    ensures free == [a]
  {
    assert {a} - {a} == {};
  }
}
