/** The small-memory heap: block headers laid out in the heap itself, first fit from the lowest free
    header, and coalescing of neighbours. Addresses and sizes are in 32-bit words: with RT_ALIGN_SIZE 4
    every one of them is a multiple of four bytes. A header is three words: magic and used flag, next, prev. */
module SmallHeap {
  import opened Options
  import opened Blocks

  const HDR: nat := 3           // SIZEOF_STRUCT_MEM
  const MIN: nat := 3           // MIN_SIZE_ALIGNED

  /** blocks are all headers but heap_end, in address order; lfree, used and max are the static variables. */
  datatype Heap = Heap(memSize: nat, blocks: seq<Block>, lfree: nat, used: int, max: int)

  /** The user data size of a block. */
  function Room(b: Block): int {
    b.next - (b.start + HDR)
  }

  function HeapEnd(memSize: nat): nat {
    memSize + HDR
  }

  // ---------- the invariant ----------

  /** The words in used blocks, headers included. */
  function UsedWords(bs: seq<Block>): int {
    SumOf(bs, true, 0)
  }

  /** lfree is a free header or heap_end. */
  ghost predicate LfreeOk(bs: seq<Block>, lfree: nat, end: nat) {
    lfree == end || exists i | 0 <= i < |bs| :: bs[i].start == lfree && !bs[i].used
  }

  /** No free header lies below lfree. */
  ghost predicate LowestFree(bs: seq<Block>, lfree: nat) {
    forall i | 0 <= i < |bs| :: !bs[i].used ==> lfree <= bs[i].start
  }

  ghost predicate Inv(h: Heap) {
    && MIN <= h.memSize
    && Tiled(h.blocks, HeapEnd(h.memSize), HDR) && NoTwoFree(h.blocks)
    && LfreeOk(h.blocks, h.lfree, HeapEnd(h.memSize))
    && h.used == UsedWords(h.blocks) <= h.max
  }

  // ---------- surgery on the block list ----------

  lemma MarkUsed(bs: seq<Block>, k: nat, used: bool)
    requires k < |bs| && bs[k].used != used
    ensures UsedWords(Mark(bs, k, used)) == if used then UsedWords(bs) + (bs[k].next - bs[k].start) else UsedWords(bs) - (bs[k].next - bs[k].start)
  {
    MarkSum(bs, k, used, true, 0);
  }

  lemma SplitUsed(bs: seq<Block>, k: nat, mid: nat)
    requires k < |bs| && bs[k].used && bs[k].start <= mid <= bs[k].next
    ensures UsedWords(Split(bs, k, mid)) == UsedWords(bs) - (bs[k].next - mid)
  {
    SplitSum(bs, k, mid, true, 0);
  }

  lemma JoinUsed(bs: seq<Block>, k: nat)
    requires k + 1 < |bs| && !bs[k].used && !bs[k + 1].used
    ensures UsedWords(Join(bs, k)) == UsedWords(bs)
  {
    JoinSum(bs, k, true, 0);
  }

  // ---------- the operations on the block list ----------

  /** RT_ALIGN to whole words. */
  function Words(bytes: nat): nat {
    (bytes + 3) / 4
  }

  predicate Fits(b: Block, size: nat) {
    !b.used && Room(b) >= size
  }

  /** The search of rt_malloc from header i: it stops at memSize - size. */
  function FirstFit(bs: seq<Block>, limit: nat, size: nat, i: nat): (k: Option<nat>)
    requires i <= |bs|
    ensures k.Some? ==> i <= k.value < |bs| && bs[k.value].start < limit && Fits(bs[k.value], size)
    decreases |bs| - i
  {
    if i == |bs| || limit <= bs[i].start then None
    else if Fits(bs[i], size) then Some(i)
    else FirstFit(bs, limit, size, i + 1)
  }

  /** The first free header from i on, or heap_end. */
  function NextFree(bs: seq<Block>, i: nat, end: nat): nat
    requires i <= |bs|
    decreases |bs| - i
  {
    if i == |bs| then end else if !bs[i].used then bs[i].start else NextFree(bs, i + 1, end)
  }

  function Max(a: int, b: int): int {
    if a < b then b else a
  }

  /** Block k is taken for size words; the rest is split off if it can hold a header and MIN words. */
  function Taken(bs: seq<Block>, k: nat, size: nat): (r: seq<Block>)
    requires k < |bs|
    ensures k < |r|
  {
    var marked := Mark(bs, k, true);
    if Room(bs[k]) >= size + HDR + MIN then Split(marked, k, bs[k].start + HDR + size) else marked
  }

  function Take(h: Heap, k: nat, size: nat): Heap
    requires k < |h.blocks|
  {
    var bs := Taken(h.blocks, k, size);
    var used := h.used + bs[k].next - bs[k].start;
    h.(blocks := bs, used := used, max := Max(h.max, used),
       lfree := if h.blocks[k].start == h.lfree then NextFree(bs, k, HeapEnd(h.memSize)) else h.lfree)
  }

  function AtLeastMin(size: nat): nat {
    if size < MIN then MIN else size
  }

  /** The block rt_malloc chooses for a number of bytes. */
  function Chosen(h: Heap, bytes: nat): (k: Option<nat>)
    ensures k.Some? ==> k.value < |h.blocks|
  {
    if bytes == 0 || h.memSize < Words(bytes) || h.memSize < MIN then None
    else FirstFit(h.blocks, h.memSize - AtLeastMin(Words(bytes)), AtLeastMin(Words(bytes)), HeaderIndex(h.blocks, h.lfree))
  }

  /** rt_malloc; the result is the address of the user data. */
  function Malloc(h: Heap, bytes: nat): (Heap, Option<nat>) {
    var k := Chosen(h, bytes);
    if k.None? then (h, None)
    else (Take(h, k.value, AtLeastMin(Words(bytes))), Some(h.blocks[k.value].start + HDR))
  }

  /** plug_holes on the free block k. */
  function PlugForward(h: Heap, k: nat): (r: Heap)
    requires k < |h.blocks|
    ensures k < |r.blocks|
  {
    if k + 1 < |h.blocks| && !h.blocks[k + 1].used then
      h.(blocks := Join(h.blocks, k), lfree := if h.lfree == h.blocks[k + 1].start then h.blocks[k].start else h.lfree)
    else h
  }

  function PlugBackward(h: Heap, k: nat): Heap
    requires k < |h.blocks|
  {
    if k > 0 && !h.blocks[k - 1].used then
      h.(blocks := Join(h.blocks, k - 1), lfree := if h.lfree == h.blocks[k].start then h.blocks[k - 1].start else h.lfree)
    else h
  }

  function PlugHoles(h: Heap, k: nat): Heap
    requires k < |h.blocks|
  {
    PlugBackward(PlugForward(h, k), k)
  }

  /** rt_free of block k, up to plug_holes. */
  function Freed(h: Heap, k: nat): Heap
    requires k < |h.blocks|
  {
    var b := h.blocks[k];
    h.(blocks := Mark(h.blocks, k, false),
       lfree := if b.start < h.lfree then b.start else h.lfree,
       used := h.used - (b.next - b.start))
  }

  function Free(h: Heap, k: nat): Heap
    requires k < |h.blocks|
  {
    PlugHoles(Freed(h, k), k)
  }

  function BeforePlug(h: Heap, k: nat, size: nat): Heap
    requires k < |h.blocks|
  {
    h.(blocks := Split(h.blocks, k, h.blocks[k].start + HDR + size), used := h.used - (Room(h.blocks[k]) - size))
  }

  /** The split of rt_realloc: block k keeps size words. */
  function Shrink(h: Heap, k: nat, size: nat): Heap
    requires k < |h.blocks|
  {
    PlugHoles(BeforePlug(h, k, size), k + 1)
  }

  /** rt_free of the block whose user data is at p. */
  function FreeAt(h: Heap, p: nat): Heap
    requires HDR <= p && HeaderIndex(h.blocks, p - HDR) < |h.blocks|
  {
    Free(h, HeaderIndex(h.blocks, p - HDR))
  }

  /** p is the user data of a block in use. */
  predicate IsLive(h: Heap, p: nat) {
    HDR <= p && var k := HeaderIndex(h.blocks, p - HDR); k < |h.blocks| && h.blocks[k].used
  }

  /** rt_realloc of a live block, or of NULL. */
  function Realloc(h: Heap, p: Option<nat>, bytes: nat): (Heap, Option<nat>)
    requires Inv(h) && (p.Some? ==> IsLive(h, p.value))
  {
    var size := Words(bytes);
    if h.memSize < size then (h, None)
    else if size == 0 then (if p.None? then h else FreeAt(h, p.value), None)
    else if p.None? then Malloc(h, 4 * size)
    else
      var k := HeaderIndex(h.blocks, p.value - HDR);
      if Room(h.blocks[k]) == size then (h, p)
      else if size + HDR + MIN < Room(h.blocks[k]) then (Shrink(h, k, size), p)
      else
        var (h1, q) := Malloc(h, 4 * size);
        if q.None? then (h1, None)
        else
          LiveStaysLive(h, 4 * size, p.value);
          (FreeAt(h1, p.value), q)
  }

  // ---------- addresses and indices ----------

  /** The search starts at lfree: every header before it lies below lfree. */
  lemma LfreeIndex(h: Heap)
    requires Inv(h)
    ensures var k := HeaderIndex(h.blocks, h.lfree);
            && (k < |h.blocks| ==> !h.blocks[k].used)
            && forall i | 0 <= i < |h.blocks| :: i < k <==> h.blocks[i].start < h.lfree
  {
    BySpread(h.blocks, HeapEnd(h.memSize), HDR);
    var bs, end := h.blocks, HeapEnd(h.memSize);
    EndHasNoIndex(bs, end, HDR);
    if h.lfree != end {
      var i :| 0 <= i < |bs| && bs[i].start == h.lfree && !bs[i].used;
      IndexUnique(bs, end, i, HDR);
      forall j | 0 <= j < |bs|
        ensures j < i <==> bs[j].start < h.lfree
      {
        if j < i {
          assert bs[j].next <= bs[i].start;
        } else if i < j {
          assert bs[i].next <= bs[j].start;
        }
      }
    }
  }

  // ---------- first fit ----------

  /** First fit finds a block exactly if one fits below the limit, and then the lowest. */
  lemma {:induction false} FirstFitIsLowest(bs: seq<Block>, end: nat, limit: nat, size: nat, i: nat)
    requires Tiled(bs, end, HDR) && i <= |bs|
    ensures var k := FirstFit(bs, limit, size, i);
            && (k.None? ==> forall j | i <= j < |bs| :: bs[j].start < limit ==> !Fits(bs[j], size))
            && (k.Some? ==> forall j | i <= j < k.value :: !Fits(bs[j], size))
    decreases |bs| - i
  {
    BySpread(bs, end, HDR);
    if i < |bs| {
      if limit <= bs[i].start {
        forall j | i <= j < |bs|
          ensures limit <= bs[j].start
        {
          assert i < j ==> bs[i].next <= bs[j].start;
        }
      } else {
        FirstFitIsLowest(bs, end, limit, size, i + 1);
      }
    }
  }

  lemma {:induction false} NextFreeIsFree(bs: seq<Block>, i: nat, end: nat)
    requires Tiled(bs, end, HDR) && i <= |bs|
    ensures var a := NextFree(bs, i, end);
            && LfreeOk(bs, a, end)
            && (i < |bs| ==> bs[i].start <= a)
            && forall j | i <= j < |bs| :: !bs[j].used ==> a <= bs[j].start
    decreases |bs| - i
  {
    BySpread(bs, end, HDR);
    EndHasNoIndex(bs, end, HDR);
    if i < |bs| {
      if bs[i].used {
        NextFreeIsFree(bs, i + 1, end);
        if i + 1 < |bs| {
          assert bs[i].next <= bs[i + 1].start;
        }
      } else {
        forall j | i <= j < |bs|
          ensures bs[i].start <= bs[j].start
        {
          assert i < j ==> bs[i].next <= bs[j].start;
        }
      }
    }
  }

  // ---------- the invariant is kept ----------

  /** Before plug_holes: block k is free and may have free neighbours. */
  ghost predicate InvBut(h: Heap, k: nat) {
    && MIN <= h.memSize && k < |h.blocks| && !h.blocks[k].used
    && Tiled(h.blocks, HeapEnd(h.memSize), HDR) && NoTwoFreeBut(h.blocks, k)
    && LfreeOk(h.blocks, h.lfree, HeapEnd(h.memSize))
    && h.used == UsedWords(h.blocks) <= h.max
  }

  lemma JoinLfree(bs: seq<Block>, k: nat, lfree: nat, end: nat)
    requires Tiled(bs, end, HDR) && k + 1 < |bs| && !bs[k].used && LfreeOk(bs, lfree, end)
    ensures var lfree' := if lfree == bs[k + 1].start then bs[k].start else lfree;
            LfreeOk(Join(bs, k), lfree', end) && (LowestFree(bs, lfree) ==> LowestFree(Join(bs, k), lfree'))
  {
    BySpread(bs, end, HDR);
    var r := Join(bs, k);
    var lfree' := if lfree == bs[k + 1].start then bs[k].start else lfree;
    JoinIndex(bs, k, k);
    if lfree != end && lfree != bs[k + 1].start {
      var i :| 0 <= i < |bs| && bs[i].start == lfree && !bs[i].used;
      JoinIndex(bs, k, if i <= k then i else i - 1);
    }
    if LowestFree(bs, lfree) {
      forall i | 0 <= i < |r| && !r[i].used
        ensures lfree' <= r[i].start
      {
        JoinIndex(bs, k, i);
        assert bs[k].next <= bs[k + 1].start;
      }
    }
  }

  lemma PlugForwardKeeps(h: Heap, k: nat)
    requires InvBut(h, k)
    ensures var r := PlugForward(h, k);
            && InvBut(r, k) && (k + 1 < |r.blocks| ==> r.blocks[k + 1].used)
            && Live(r.blocks) == Live(h.blocks)
            && (LowestFree(h.blocks, h.lfree) ==> LowestFree(r.blocks, r.lfree))
  {
    var bs, end := h.blocks, HeapEnd(h.memSize);
    if k + 1 < |bs| && !bs[k + 1].used {
      JoinTiled(bs, k, end, HDR);
      JoinNoTwoFree(bs, k, k);
      JoinLfree(bs, k, h.lfree, end);
      JoinUsed(bs, k);
      JoinLive(bs, k);
    }
  }

  lemma PlugBackwardKeeps(h: Heap, k: nat)
    requires InvBut(h, k) && (k + 1 < |h.blocks| ==> h.blocks[k + 1].used)
    ensures var r := PlugBackward(h, k);
            && Inv(r)
            && Live(r.blocks) == Live(h.blocks)
            && (LowestFree(h.blocks, h.lfree) ==> LowestFree(r.blocks, r.lfree))
  {
    var bs, end := h.blocks, HeapEnd(h.memSize);
    if k > 0 && !bs[k - 1].used {
      JoinTiled(bs, k - 1, end, HDR);
      JoinNoTwoFree(bs, k - 1, k);
      JoinLfree(bs, k - 1, h.lfree, end);
      JoinUsed(bs, k - 1);
      JoinLive(bs, k - 1);
      NoTwoFreeClosed(Join(bs, k - 1), k - 1);
    } else {
      NoTwoFreeClosed(bs, k);
    }
  }

  /** plug_holes restores the invariant, and no block in use is touched. */
  lemma PlugHolesKeeps(h: Heap, k: nat)
    requires InvBut(h, k)
    ensures var r := PlugHoles(h, k);
            && Inv(r)
            && Live(r.blocks) == Live(h.blocks)
            && (LowestFree(h.blocks, h.lfree) ==> LowestFree(r.blocks, r.lfree))
  {
    PlugForwardKeeps(h, k);
    PlugBackwardKeeps(PlugForward(h, k), k);
  }

  /** Up to plug_holes, rt_free leaves block k free among neighbours that may be free. */
  lemma FreedBlock(h: Heap, k: nat)
    requires Inv(h) && k < |h.blocks| && h.blocks[k].used
    ensures InvBut(Freed(h, k), k)
    ensures LowestFree(h.blocks, h.lfree) ==> LowestFree(Freed(h, k).blocks, Freed(h, k).lfree)
  {
    NoTwoFreeAlternates(h.blocks);
    var bs, end := h.blocks, HeapEnd(h.memSize);
    var marked, lfree := Freed(h, k).blocks, Freed(h, k).lfree;
    BySpread(bs, end, HDR);
    MarkTiled(bs, k, false, end, HDR);
    MarkUsed(bs, k, false);
    if lfree == bs[k].start {
      assert marked[k].start == lfree && !marked[k].used;
    } else if lfree != end {
      var i :| 0 <= i < |bs| && bs[i].start == lfree && !bs[i].used;
      assert marked[i] == bs[i];
    }
  }

  lemma FreeKeeps(h: Heap, k: nat)
    requires Inv(h) && k < |h.blocks| && h.blocks[k].used
    ensures var r := Free(h, k);
            && Inv(r) && r.memSize == h.memSize
            && Live(r.blocks) == Live(h.blocks) - {h.blocks[k]}
            && (LowestFree(h.blocks, h.lfree) ==> LowestFree(r.blocks, r.lfree))
  {
    FreedBlock(h, k);
    MarkLive(h.blocks, k, HeapEnd(h.memSize), HDR);
    PlugHolesKeeps(Freed(h, k), k);
  }

  // ---------- taking and shrinking ----------

  lemma SplitLfree(bs: seq<Block>, k: nat, mid: nat, lfree: nat, end: nat)
    requires k < |bs| && bs[k].used && LfreeOk(bs, lfree, end)
    ensures LfreeOk(Split(bs, k, mid), lfree, end)
  {
    if lfree != end {
      var i :| 0 <= i < |bs| && bs[i].start == lfree && !bs[i].used;
      var i' := if i < k then i else i + 1;
      assert Split(bs, k, mid)[i'] == SplitAt(bs, k, mid, i');
    }
  }

  /** What taking block k does to the list. */
  lemma TakenKeeps(bs: seq<Block>, end: nat, k: nat, size: nat)
    requires Tiled(bs, end, HDR) && NoTwoFree(bs) && k < |bs| && Fits(bs[k], size) && MIN <= size
    ensures var r := Taken(bs, k, size);
            && Tiled(r, end, HDR) && NoTwoFree(r)
            && r[k].start == bs[k].start && r[k].used && Room(r[k]) >= size && r[k].next <= bs[k].next
            && UsedWords(r) == UsedWords(bs) + (r[k].next - r[k].start)
            && Live(r) == Live(bs) + {r[k]} && r[k] !in Live(bs)
  {
    TakenUsed(bs, k, size);
    TakenLive(bs, end, k, size);
  }

  lemma TakenUsed(bs: seq<Block>, k: nat, size: nat)
    requires k < |bs| && Fits(bs[k], size)
    ensures var r := Taken(bs, k, size); UsedWords(r) == UsedWords(bs) + (r[k].next - r[k].start)
  {
    TakenAt(bs, k, size);
    MarkUsed(bs, k, true);
    if Room(bs[k]) >= size + HDR + MIN {
      SplitUsed(Mark(bs, k, true), k, bs[k].start + HDR + size);
    }
  }

  lemma TakenAt(bs: seq<Block>, k: nat, size: nat)
    requires k < |bs|
    ensures Taken(bs, k, size)[k] ==
              bs[k].(used := true, next := if Room(bs[k]) >= size + HDR + MIN then bs[k].start + HDR + size else bs[k].next)
  {
  }

  lemma TakenLive(bs: seq<Block>, end: nat, k: nat, size: nat)
    requires Tiled(bs, end, HDR) && NoTwoFree(bs) && k < |bs| && Fits(bs[k], size) && MIN <= size
    ensures var r := Taken(bs, k, size);
            && Tiled(r, end, HDR) && NoTwoFree(r)
            && r[k].start == bs[k].start && r[k].used && Room(r[k]) >= size && r[k].next <= bs[k].next
            && Live(r) == Live(bs) + {r[k]} && r[k] !in Live(bs)
  {
    MarkedKeeps(bs, end, k, HDR);
    if Room(bs[k]) >= size + HDR + MIN {
      var marked := Mark(bs, k, true);
      SplitKeeps(marked, end, k, bs[k].start + HDR + size, HDR);
      StartNotLive(bs, end, k, HDR);
      Exchange(Live(bs), marked[k], Taken(bs, k, size)[k]);
    }
  }

  lemma TakenLfree(bs: seq<Block>, end: nat, k: nat, size: nat, lfree: nat)
    requires Tiled(bs, end, HDR) && k < |bs| && LfreeOk(bs, lfree, end) && lfree != bs[k].start
    ensures LfreeOk(Taken(bs, k, size), lfree, end)
  {
    if lfree != end {
      var i :| 0 <= i < |bs| && bs[i].start == lfree && !bs[i].used;
      assert Mark(bs, k, true)[i] == bs[i];
    }
    if Room(bs[k]) >= size + HDR + MIN {
      SplitLfree(Mark(bs, k, true), k, bs[k].start + HDR + size, lfree, end);
    }
  }

  /** No free block appears below block k when it is taken. */
  lemma TakenBelow(bs: seq<Block>, k: nat, size: nat)
    requires k < |bs|
    ensures var r := Taken(bs, k, size); forall i | 0 <= i < k :: r[i] == bs[i]
    ensures |Taken(bs, k, size)| >= |bs|
    ensures var r := Taken(bs, k, size); forall i | k < i < |r| :: r[i] in bs || (r[i].start == bs[k].start + HDR + size && !r[i].used)
  {
    var marked, mid := Mark(bs, k, true), bs[k].start + HDR + size;
    var r := Taken(bs, k, size);
    forall i | 0 <= i < |r|
      ensures (i < k ==> r[i] == bs[i]) && (k < i ==> r[i] in bs || (r[i].start == mid && !r[i].used))
    {
      if Room(bs[k]) >= size + HDR + MIN {
        assert r[i] == SplitAt(marked, k, mid, i);
        assert i > k + 1 ==> r[i] == bs[i - 1];
      }
    }
  }

  lemma TakeKeeps(h: Heap, k: nat, size: nat)
    requires Inv(h) && k < |h.blocks| && Fits(h.blocks[k], size) && MIN <= size && h.lfree <= h.blocks[k].start
    ensures var r := Take(h, k, size);
            && Inv(r) && r.memSize == h.memSize && k < |r.blocks|
            && r.blocks[k].start == h.blocks[k].start && Room(r.blocks[k]) >= size && r.blocks[k].next <= h.blocks[k].next
            && Live(r.blocks) == Live(h.blocks) + {r.blocks[k]} && r.blocks[k] !in Live(h.blocks)
  {
    var end := HeapEnd(h.memSize);
    TakenKeeps(h.blocks, end, k, size);
    if h.blocks[k].start == h.lfree {
      NextFreeIsFree(Taken(h.blocks, k, size), k, end);
    } else {
      TakenLfree(h.blocks, end, k, size, h.lfree);
    }
  }

  lemma TakeKeepsLowest(h: Heap, k: nat, size: nat)
    requires Inv(h) && LowestFree(h.blocks, h.lfree) && k < |h.blocks| && Fits(h.blocks[k], size) && MIN <= size
    ensures var r := Take(h, k, size); LowestFree(r.blocks, r.lfree)
  {
    var bs, end := h.blocks, HeapEnd(h.memSize);
    var r := Take(h, k, size);
    TakenKeeps(bs, end, k, size);
    TakenBelow(bs, k, size);
    NextFreeIsFree(Taken(bs, k, size), k, end);
    BySpread(bs, end, HDR);
    forall i | 0 <= i < |r.blocks| && !r.blocks[i].used
      ensures r.lfree <= r.blocks[i].start
    {
      assert i < k ==> r.blocks[i] == bs[i];
    }
  }

  /** The split of rt_realloc leaves its remainder free among neighbours that may be free. */
  lemma ShrunkBlock(bs: seq<Block>, end: nat, k: nat, mid: nat, lfree: nat)
    requires Tiled(bs, end, HDR) && NoTwoFree(bs) && LfreeOk(bs, lfree, end)
    requires k < |bs| && bs[k].used && bs[k].start + HDR < mid && mid + HDR < bs[k].next
    ensures var r := Split(bs, k, mid);
            && Tiled(r, end, HDR) && NoTwoFreeBut(r, k + 1) && LfreeOk(r, lfree, end) && r[k + 1] == Block(mid, bs[k].next, false)
            && UsedWords(r) == UsedWords(bs) - (bs[k].next - mid)
  {
    SplitTiled(bs, k, mid, end, HDR);
    SplitUsed(bs, k, mid);
    SplitNoTwoFree(bs, k, mid);
    SplitLfree(bs, k, mid, lfree, end);
  }

  lemma ShrinkKeeps(h: Heap, k: nat, size: nat)
    requires Inv(h) && k < |h.blocks| && h.blocks[k].used && 0 < size && size + HDR < Room(h.blocks[k])
    ensures var r := Shrink(h, k, size);
            && Inv(r) && r.memSize == h.memSize
            && Live(r.blocks) == Live(h.blocks) - {h.blocks[k]} + {h.blocks[k].(next := h.blocks[k].start + HDR + size)}
  {
    var g := BeforePlug(h, k, size);
    ShrunkBlock(h.blocks, HeapEnd(h.memSize), k, h.blocks[k].start + HDR + size, h.lfree);
    PlugHolesKeeps(g, k + 1);
    ShrunkLive(h, g, k, size);
  }

  lemma ShrunkLive(h: Heap, g: Heap, k: nat, size: nat)
    requires Inv(h) && k < |h.blocks| && h.blocks[k].used && g.blocks == Split(h.blocks, k, h.blocks[k].start + HDR + size)
    ensures Live(g.blocks) == Live(h.blocks) - {h.blocks[k]} + {h.blocks[k].(next := h.blocks[k].start + HDR + size)}
  {
    SplitLive(h.blocks, k, h.blocks[k].start + HDR + size, HeapEnd(h.memSize), HDR);
  }

  // ---------- rt_malloc ----------

  /** The size rt_malloc searches for. */
  function Wanted(bytes: nat): nat {
    AtLeastMin(Words(bytes))
  }

  /** rt_malloc fails exactly if it is asked for nothing, for more than the heap, or if no free block from lfree
      on and starting below memSize - size is large enough; otherwise it takes the lowest such block. */
  lemma MallocIsFirstFit(h: Heap, bytes: nat)
    requires Inv(h)
    ensures var bs, k := h.blocks, Chosen(h, bytes);
            && (k.None? <==> bytes == 0 || h.memSize < Words(bytes)
                             || forall i | 0 <= i < |bs| ::
                                  h.lfree <= bs[i].start < h.memSize - Wanted(bytes) ==> !Fits(bs[i], Wanted(bytes)))
            && (k.Some? ==>
                  && Fits(bs[k.value], Wanted(bytes)) && h.lfree <= bs[k.value].start < h.memSize - Wanted(bytes)
                  && forall i | 0 <= i < |bs| :: h.lfree <= bs[i].start < bs[k.value].start ==> !Fits(bs[i], Wanted(bytes)))
  {
    var bs, k := h.blocks, Chosen(h, bytes);
    LfreeIndex(h);
    if bytes != 0 && Words(bytes) <= h.memSize {
      FirstFitIsLowest(bs, HeapEnd(h.memSize), h.memSize - Wanted(bytes), Wanted(bytes), HeaderIndex(bs, h.lfree));
      if k.Some? {
        forall i | 0 <= i < |bs| && h.lfree <= bs[i].start < bs[k.value].start
          ensures !Fits(bs[i], Wanted(bytes))
        {
          LowerIsEarlier(bs, HeapEnd(h.memSize), i, k.value, HDR);
        }
      }
    }
  }

  /** A block that was not there comes into use, large enough, within one that was free; no other block in
      use is touched. */
  lemma MallocKeeps(h: Heap, bytes: nat)
    requires Inv(h)
    ensures var (r, p) := Malloc(h, bytes);
            && Inv(r) && r.memSize == h.memSize
            && (LowestFree(h.blocks, h.lfree) ==> LowestFree(r.blocks, r.lfree))
            && (p.None? ==> r == h)
            && (p.Some? ==> var b := Allotted(h, bytes);
                  && b.used && b.start + HDR == p.value && Room(b) >= Wanted(bytes)
                  && b !in Live(h.blocks) && Live(r.blocks) == Live(h.blocks) + {b} && IsLive(r, p.value))
  {
    MallocIsFirstFit(h, bytes);
    var k := Chosen(h, bytes);
    if k.Some? {
      TakeKeeps(h, k.value, Wanted(bytes));
      if LowestFree(h.blocks, h.lfree) {
        TakeKeepsLowest(h, k.value, Wanted(bytes));
      }
      var r := Take(h, k.value, Wanted(bytes));
      IndexUnique(r.blocks, HeapEnd(h.memSize), k.value, HDR);
    }
  }

  /** The block a successful rt_malloc puts into use. */
  function Allotted(h: Heap, bytes: nat): Block
    requires Chosen(h, bytes).Some?
  {
    Taken(h.blocks, Chosen(h, bytes).value, Wanted(bytes))[Chosen(h, bytes).value]
  }

  lemma LiveIsIndexed(h: Heap, b: Block)
    requires Inv(h) && b in Live(h.blocks)
    ensures IsLive(h, b.start + HDR) && h.blocks[HeaderIndex(h.blocks, b.start)] == b
  {
    LiveView(h.blocks);
    var i :| 0 <= i < |h.blocks| && h.blocks[i] == b;
    IndexUnique(h.blocks, HeapEnd(h.memSize), i, HDR);
  }

  /** The block in use whose user data is at p. */
  function BlockAt(h: Heap, p: nat): (b: Block)
    requires IsLive(h, p)
    ensures b in Live(h.blocks) && b.start + HDR == p
  {
    LiveView(h.blocks);
    h.blocks[HeaderIndex(h.blocks, p - HDR)]
  }

  lemma LiveStaysLive(h: Heap, bytes: nat, p: nat)
    requires Inv(h) && IsLive(h, p)
    ensures var r := Malloc(h, bytes).0; IsLive(r, p) && BlockAt(r, p) == BlockAt(h, p)
  {
    MallocKeeps(h, bytes);
    LiveIsIndexed(Malloc(h, bytes).0, BlockAt(h, p));
  }

  // ---------- rt_realloc ----------

  /** A shrinking realloc splits off free space without lowering lfree: lfree stays the lowest free header exactly
      if it already lay below the block, or the split-off space joins a free block that follows. */
  lemma ShrinkKeepsLowestIff(h: Heap, k: nat, size: nat)
    requires Inv(h) && LowestFree(h.blocks, h.lfree)
    requires k < |h.blocks| && h.blocks[k].used && 0 < size && size + HDR < Room(h.blocks[k])
    ensures var r := Shrink(h, k, size);
            LowestFree(r.blocks, r.lfree) <==>
              h.lfree < h.blocks[k].start || (k + 1 < |h.blocks| && !h.blocks[k + 1].used)
  {
    var bs, mid := h.blocks, h.blocks[k].start + HDR + size;
    var r := Shrink(h, k, size);
    SplitPlugged(h, k, size);
    ShrunkAt(h, k, size, 0);
    LfreeIsNotUsed(h, k);
    forall i | 0 <= i < |r.blocks|
      ensures ShrunkFrom(bs, k, mid, r.blocks[i], i)
    {
      ShrunkAt(h, k, size, i);
    }
    if bs[k].start < h.lfree {
      LfreeAfterUsed(h, k);
    }
    NextIsAtEnd(bs, HeapEnd(h.memSize), k, HDR);
    LowestAfterShrink(bs, r.blocks, k, mid, h.lfree, r.lfree);
  }

  lemma LfreeIsNotUsed(h: Heap, k: nat)
    requires Inv(h) && k < |h.blocks| && h.blocks[k].used
    ensures h.lfree != h.blocks[k].start
  {
    EndHasNoIndex(h.blocks, HeapEnd(h.memSize), HDR);
    if h.lfree != HeapEnd(h.memSize) {
      var i :| 0 <= i < |h.blocks| && h.blocks[i].start == h.lfree && !h.blocks[i].used;
      StartsDiffer(h.blocks, HeapEnd(h.memSize), i, k, HDR);
    }
  }

  /** How header i stands after the block k of bs has been cut at mid. */
  ghost predicate ShrunkFrom(bs: seq<Block>, k: nat, mid: nat, b: Block, i: nat)
    requires k < |bs|
  {
    && (i < k ==> b == bs[i])
    && (i == k ==> b.used)
    && (i == k + 1 ==> b.start == mid && !b.used)
    && (i > k + 1 ==> b in bs && mid <= b.start)
  }

  lemma LowestAfterShrink(bs: seq<Block>, r: seq<Block>, k: nat, mid: nat, lfree: nat, lfree': nat)
    requires k < |bs| && bs[k].used && k + 1 < |r| && bs[k].start < mid < bs[k].next
    requires LowestFree(bs, lfree) && lfree != bs[k].start && (bs[k].start < lfree ==> bs[k].next <= lfree)
    requires forall i | 0 <= i < |r| :: ShrunkFrom(bs, k, mid, r[i], i)
    requires k + 1 < |bs| ==> bs[k + 1].start == bs[k].next
    requires lfree' == if k + 1 < |bs| && !bs[k + 1].used && lfree == bs[k + 1].start then mid else lfree
    ensures LowestFree(r, lfree') <==> lfree < bs[k].start || (k + 1 < |bs| && !bs[k + 1].used)
  {
    assert ShrunkFrom(bs, k, mid, r[k + 1], k + 1);
    if lfree < bs[k].start || (k + 1 < |bs| && !bs[k + 1].used) {
      forall i | 0 <= i < |r| && !r[i].used
        ensures lfree' <= r[i].start
      {
        assert ShrunkFrom(bs, k, mid, r[i], i);
        assert lfree' <= mid;
      }
    }
  }

  /** The remainder is merged forward only: the block before it is in use. */
  lemma SplitPlugged(h: Heap, k: nat, size: nat)
    requires Inv(h) && k < |h.blocks| && h.blocks[k].used && size + HDR < Room(h.blocks[k])
    ensures var bs, mid := h.blocks, h.blocks[k].start + HDR + size;
            var s, r, merge := Split(bs, k, mid), Shrink(h, k, size), k + 1 < |bs| && !bs[k + 1].used;
            && r.blocks == (if merge then Join(s, k + 1) else s)
            && r.lfree == if merge && h.lfree == bs[k + 1].start then mid else h.lfree
  {
    var bs, mid := h.blocks, h.blocks[k].start + HDR + size;
    var s := Split(bs, k, mid);
    assert s[k] == SplitAt(bs, k, mid, k) && s[k + 1] == SplitAt(bs, k, mid, k + 1);
    if k + 1 < |bs| {
      assert s[k + 2] == SplitAt(bs, k, mid, k + 2);
      if !bs[k + 1].used {
        JoinIndex(s, k + 1, k);
      }
    }
  }

  lemma ShrunkAt(h: Heap, k: nat, size: nat, i: nat)
    requires Inv(h) && k < |h.blocks| && h.blocks[k].used && size + HDR < Room(h.blocks[k]) && i < |Shrink(h, k, size).blocks|
    ensures ShrunkFrom(h.blocks, k, h.blocks[k].start + HDR + size, Shrink(h, k, size).blocks[i], i)
    ensures k + 1 < |Shrink(h, k, size).blocks|
  {
    hide Shrink, LfreeOk, NoTwoFree, UsedWords, ShrunkFrom;
    var bs, mid := h.blocks, h.blocks[k].start + HDR + size;
    SplitPlugged(h, k, size);
    if k + 1 < |bs| && !bs[k + 1].used {
      ShrunkAndJoined(bs, HeapEnd(h.memSize), k, mid, i);
    } else {
      ShrunkOnly(bs, HeapEnd(h.memSize), k, mid, i);
    }
  }

  lemma ShrunkAndJoined(bs: seq<Block>, end: nat, k: nat, mid: nat, i: nat)
    requires Tiled(bs, end, HDR) && k + 1 < |bs| && bs[k].start < mid < bs[k].next && bs[k].used && !bs[k + 1].used
    requires k + 2 < |Split(bs, k, mid)| && i < |Join(Split(bs, k, mid), k + 1)|
    ensures ShrunkFrom(bs, k, mid, Join(Split(bs, k, mid), k + 1)[i], i)
  {
    var s := Split(bs, k, mid);
    BySpread(bs, end, HDR);
    JoinIndex(s, k + 1, i);
    var i' := if i <= k + 1 then i else i + 1;
    assert s[i'] == SplitAt(bs, k, mid, i');
    assert i > k + 1 ==> bs[k].next <= bs[i].start;
  }

  lemma ShrunkOnly(bs: seq<Block>, end: nat, k: nat, mid: nat, i: nat)
    requires Tiled(bs, end, HDR) && k < |bs| && bs[k].start < mid < bs[k].next && bs[k].used && i < |Split(bs, k, mid)|
    ensures ShrunkFrom(bs, k, mid, Split(bs, k, mid)[i], i)
  {
    BySpread(bs, end, HDR);
    assert Split(bs, k, mid)[i] == SplitAt(bs, k, mid, i);
    assert i > k + 1 ==> bs[k].next <= bs[i - 1].start;
  }

  /** A free header above the block in use lies at or after its end. */
  lemma LfreeAfterUsed(h: Heap, k: nat)
    requires Inv(h) && k < |h.blocks| && h.blocks[k].used && h.blocks[k].start < h.lfree
    ensures h.blocks[k].next <= h.lfree
  {
    var bs := h.blocks;
    BySpread(bs, HeapEnd(h.memSize), HDR);
    if h.lfree == HeapEnd(h.memSize) {
      assert k < |bs| - 1 ==> bs[k].next <= bs[|bs| - 1].start;
    } else {
      var i :| 0 <= i < |bs| && bs[i].start == h.lfree && !bs[i].used;
      LowerIsEarlier(bs, HeapEnd(h.memSize), k, i, HDR);
    }
  }

  /** rt_realloc on a live block: it fails without a change, frees, keeps or shrinks in place, or moves to a block
      that was not in use; no other block in use is touched. */
  lemma ReallocKeeps(h: Heap, p: nat, bytes: nat)
    requires Inv(h) && IsLive(h, p)
    ensures var (r, q) := Realloc(h, Some(p), bytes);
            && Inv(r) && r.memSize == h.memSize
            && (q.None? ==> if bytes == 0 then Live(r.blocks) == Live(h.blocks) - {BlockAt(h, p)} else r == h)
            && (q.Some? ==>
                  && IsLive(r, q.value) && Room(BlockAt(r, q.value)) >= Words(bytes)
                  && Live(r.blocks) == Live(h.blocks) - {BlockAt(h, p)} + {BlockAt(r, q.value)}
                  && (q.value != p ==> BlockAt(r, q.value) !in Live(h.blocks)))
  {
    hide NoTwoFree, LfreeOk, UsedWords, Shrink, Take, Free;
    var size, b := Words(bytes), BlockAt(h, p);
    var k := HeaderIndex(h.blocks, p - HDR);
    if size <= h.memSize {
      if size == 0 {
        FreeKeeps(h, k);
      } else if Room(b) == size {
        PutBack(Live(h.blocks), b);
      } else if size + HDR + MIN < Room(b) {
        ShrinkInPlace(h, p, size);
      } else {
        MoveKeeps(h, p, size);
      }
    }
  }

  lemma ShrinkInPlace(h: Heap, p: nat, size: nat)
    requires Inv(h) && IsLive(h, p) && 0 < size && size + HDR < Room(BlockAt(h, p))
    ensures var r, b := Shrink(h, HeaderIndex(h.blocks, p - HDR), size), BlockAt(h, p);
            && Inv(r) && r.memSize == h.memSize
            && IsLive(r, p) && BlockAt(r, p) == b.(next := b.start + HDR + size)
            && Live(r.blocks) == Live(h.blocks) - {b} + {BlockAt(r, p)}
  {
    var b := BlockAt(h, p);
    ShrinkKeeps(h, HeaderIndex(h.blocks, p - HDR), size);
    LiveIsIndexed(Shrink(h, HeaderIndex(h.blocks, p - HDR), size), b.(next := b.start + HDR + size));
  }

  lemma MoveKeeps(h: Heap, p: nat, size: nat)
    requires Inv(h) && IsLive(h, p) && size > 0
    ensures var (h1, q) := Malloc(h, 4 * size);
            q.Some? ==>
              && IsLive(h1, p)
              && var r := FreeAt(h1, p);
              && Inv(r) && r.memSize == h.memSize && IsLive(r, q.value) && Room(BlockAt(r, q.value)) >= size
              && q.value != p && BlockAt(r, q.value) !in Live(h.blocks)
              && Live(r.blocks) == Live(h.blocks) - {BlockAt(h, p)} + {BlockAt(r, q.value)}
  {
    hide NoTwoFree, LfreeOk, UsedWords, Chosen, Free, Take;
    var (h1, q) := Malloc(h, 4 * size);
    MallocKeeps(h, 4 * size);
    LiveStaysLive(h, 4 * size, p);
    if q.Some? {
      var b, b' := BlockAt(h, p), Allotted(h, 4 * size);
      var k := HeaderIndex(h1.blocks, p - HDR);
      FreeKeeps(h1, k);
      assert h1.blocks[k] == b && b != b';
      SameStart(h1, b, b');
      Replaced(Live(h.blocks), b, b');
      LiveIsIndexed(FreeAt(h1, p), b');
    }
  }

  /** A block is cut down to the size asked for unless what is left over could not hold a block of its own. */
  lemma MallocWastesLittle(h: Heap, bytes: nat)
    requires Inv(h) && Malloc(h, bytes).1.Some?
    ensures IsLive(Malloc(h, bytes).0, Malloc(h, bytes).1.value)
    ensures var (r, p) := Malloc(h, bytes);
            && BlockAt(r, p.value) == Allotted(h, bytes)
            && Wanted(bytes) <= Room(BlockAt(r, p.value)) < Wanted(bytes) + HDR + MIN
  {
    var (r, p) := Malloc(h, bytes);
    MallocKeeps(h, bytes);
    TakenAt(h.blocks, Chosen(h, bytes).value, Wanted(bytes));
    SameStart(r, BlockAt(r, p.value), Allotted(h, bytes));
  }

  lemma ReallocWastesLittle(h: Heap, p: nat, bytes: nat)
    requires Inv(h) && IsLive(h, p) && Realloc(h, Some(p), bytes).1.Some?
    ensures var (r, q) := Realloc(h, Some(p), bytes);
            && IsLive(r, q.value)
            && Words(bytes) <= Room(BlockAt(r, q.value)) < Wanted(bytes) + HDR + MIN
  {
    hide Inv, FreeAt, Malloc, Shrink;
    var size, b := Words(bytes), BlockAt(h, p);
    if Room(b) == size {
    } else if size + HDR + MIN < Room(b) {
      assert Realloc(h, Some(p), bytes) == (Shrink(h, HeaderIndex(h.blocks, p - HDR), size), Some(p));
      ShrinkInPlace(h, p, size);
    } else {
      MoveWastesLittle(h, p, size);
      assert Realloc(h, Some(p), bytes) == (FreeAt(Malloc(h, 4 * size).0, p), Malloc(h, 4 * size).1);
    }
  }

  lemma MoveWastesLittle(h: Heap, p: nat, size: nat)
    requires Inv(h) && IsLive(h, p) && size > 0
    ensures var (h1, q) := Malloc(h, 4 * size);
            && IsLive(h1, p)
            && (q.Some? ==> IsLive(FreeAt(h1, p), q.value)
                            && size <= Room(BlockAt(FreeAt(h1, p), q.value)) < AtLeastMin(size) + HDR + MIN)
  {
    var (h1, q) := Malloc(h, 4 * size);
    MallocKeeps(h, 4 * size);
    LiveStaysLive(h, 4 * size, p);
    if q.Some? {
      MoveKeeps(h, p, size);
      MallocWastesLittle(h, 4 * size);
      FreeKeeps(h1, HeaderIndex(h1.blocks, p - HDR));
      SameStart(h1, BlockAt(FreeAt(h1, p), q.value), BlockAt(h1, q.value));
    }
  }

  /** Two blocks of one heap with the same address are the same. */
  lemma SameStart(h: Heap, a: Block, b: Block)
    requires Inv(h) && a in Live(h.blocks) && b in Live(h.blocks)
    ensures a.start == b.start ==> a == b
  {
    LiveIsIndexed(h, a);
    LiveIsIndexed(h, b);
  }

  // ---------- the heap is determined by what is in use ----------

  lemma LowestIsUnique(bs: seq<Block>, a: nat, b: nat, end: nat)
    requires Tiled(bs, end, HDR) && LfreeOk(bs, a, end) && LowestFree(bs, a) && LfreeOk(bs, b, end) && LowestFree(bs, b)
    ensures a == b
  {
    EndHasNoIndex(bs, end, HDR);
  }

  /** Two heaps of one size with the same blocks in use are the same, whatever led to them, but for the maximum. */
  lemma LiveDeterminesHeap(g: Heap, h: Heap)
    requires Inv(g) && Inv(h) && g.memSize == h.memSize && Live(g.blocks) == Live(h.blocks)
    requires LowestFree(g.blocks, g.lfree) && LowestFree(h.blocks, h.lfree)
    ensures g.(max := h.max) == h
  {
    LiveDeterminesBlocks(g.blocks, h.blocks, 0, HeapEnd(h.memSize), HDR);
    LowestIsUnique(h.blocks, g.lfree, h.lfree, HeapEnd(h.memSize));
  }

  /** Freeing what was just allocated restores the heap. */
  lemma FreeUndoesMalloc(h: Heap, bytes: nat)
    requires Inv(h) && LowestFree(h.blocks, h.lfree) && Malloc(h, bytes).1.Some?
    ensures var (r, p) := Malloc(h, bytes);
            IsLive(r, p.value) && FreeAt(r, p.value).(max := h.max) == h
  {
    hide NoTwoFree, LfreeOk, UsedWords, Chosen, Free, Take, LowestFree;
    var (r, p) := Malloc(h, bytes);
    MallocKeeps(h, bytes);
    var b := Allotted(h, bytes);
    LiveIsIndexed(r, b);
    FreeKeeps(r, HeaderIndex(r.blocks, p.value - HDR));
    assert Live(h.blocks) + {b} - {b} == Live(h.blocks);
    LiveDeterminesHeap(FreeAt(r, p.value), h);
  }

  /** The heap of rt_system_heap_init. */
  function Initial(memSize: nat): Heap {
    Heap(memSize, [Block(0, HeapEnd(memSize), false)], 0, 0, 0)
  }

  lemma InitialKeeps(memSize: nat)
    requires MIN <= memSize
    ensures var h := Initial(memSize); Inv(h) && LowestFree(h.blocks, h.lfree) && Live(h.blocks) == {}
  {
    var h := Initial(memSize);
    TiledIsSpread(h.blocks, 0, HeapEnd(memSize), HDR);
    assert h.blocks[1..] == [];
    assert UsedWords(h.blocks) == SumOf(h.blocks[1..], true, 0) == 0;
    assert !h.blocks[0].used && h.blocks[0].start == h.lfree;
  }

  /** With nothing in use the heap is one free block again. */
  lemma AllFreedIsInitial(h: Heap)
    requires Inv(h) && LowestFree(h.blocks, h.lfree) && Live(h.blocks) == {}
    ensures h == Initial(h.memSize).(max := h.max)
  {
    InitialKeeps(h.memSize);
    LiveDeterminesHeap(h, Initial(h.memSize));
  }

  // ---------- runs ----------

  datatype Op = DoMalloc(bytes: nat) | DoFree(p: nat) | DoRealloc(rmem: Option<nat>, bytes: nat)

  /** Only live pointers are freed or reallocated. */
  predicate Enabled(h: Heap, op: Op) {
    match op
    case DoMalloc(_) => true
    case DoFree(p) => IsLive(h, p)
    case DoRealloc(p, _) => p.Some? ==> IsLive(h, p.value)
  }

  function Step(h: Heap, op: Op): Heap
    requires Inv(h) && Enabled(h, op)
  {
    match op
    case DoMalloc(bytes) => Malloc(h, bytes).0
    case DoFree(p) => FreeAt(h, p)
    case DoRealloc(p, bytes) => Realloc(h, p, bytes).0
  }

  lemma StepKeeps(h: Heap, op: Op)
    requires Inv(h) && Enabled(h, op)
    ensures Inv(Step(h, op)) && Step(h, op).memSize == h.memSize
  {
    match op
    case DoMalloc(bytes) => MallocKeeps(h, bytes);
    case DoFree(p) => FreeKeeps(h, HeaderIndex(h.blocks, p - HDR));
    case DoRealloc(p, bytes) =>
      if p.Some? {
        ReallocKeeps(h, p.value, bytes);
      } else {
        MallocKeeps(h, 4 * Words(bytes));
      }
  }

  ghost predicate Runs(h: Heap, ops: seq<Op>)
    requires Inv(h)
    decreases |ops|
  {
    ops != [] ==> Enabled(h, ops[0]) && (StepKeeps(h, ops[0]); Runs(Step(h, ops[0]), ops[1..]))
  }

  function Run(h: Heap, ops: seq<Op>): (r: Heap)
    requires Inv(h) && Runs(h, ops)
    ensures Inv(r) && r.memSize == h.memSize
    decreases |ops|
  {
    if ops == [] then h else StepKeeps(h, ops[0]); Run(Step(h, ops[0]), ops[1..])
  }

  /** The step hides free space below lfree: a realloc that shrinks in place a block below lfree with no free
      block behind it. */
  predicate HidesSpace(h: Heap, op: Op)
    requires Inv(h) && Enabled(h, op)
  {
    && op.DoRealloc? && op.rmem.Some? && 0 < Words(op.bytes) <= h.memSize
    && var k := HeaderIndex(h.blocks, op.rmem.value - HDR);
       && Words(op.bytes) + HDR + MIN < Room(h.blocks[k])
       && h.blocks[k].start <= h.lfree && (k + 1 < |h.blocks| ==> h.blocks[k + 1].used)
  }

  /** Exactly these steps lose the property that lfree is the lowest free header. */
  lemma StepKeepsLowestIff(h: Heap, op: Op)
    requires Inv(h) && Enabled(h, op) && LowestFree(h.blocks, h.lfree)
    ensures LowestFree(Step(h, op).blocks, Step(h, op).lfree) <==> !HidesSpace(h, op)
  {
    match op
    case DoMalloc(bytes) => MallocKeeps(h, bytes);
    case DoFree(p) => FreeKeeps(h, HeaderIndex(h.blocks, p - HDR));
    case DoRealloc(p, bytes) =>
      if p.None? {
        MallocKeeps(h, 4 * Words(bytes));
      } else {
        ReallocLowest(h, p.value, bytes);
      }
  }

  lemma ReallocLowest(h: Heap, p: nat, bytes: nat)
    requires Inv(h) && IsLive(h, p) && LowestFree(h.blocks, h.lfree)
    ensures var r := Realloc(h, Some(p), bytes).0;
            LowestFree(r.blocks, r.lfree) <==> !HidesSpace(h, DoRealloc(Some(p), bytes))
  {
    hide NoTwoFree, LfreeOk, UsedWords, Tiled, Shrink, Free, Take, Chosen, LowestFree;
    var k, size := HeaderIndex(h.blocks, p - HDR), Words(bytes);
    if size <= h.memSize {
      if size == 0 {
        FreeKeeps(h, k);
      } else if Room(h.blocks[k]) == size {
      } else if size + HDR + MIN < Room(h.blocks[k]) {
        ShrinkKeepsLowestIff(h, k, size);
      } else {
        MoveLowest(h, p, size);
      }
    }
  }

  lemma MoveLowest(h: Heap, p: nat, size: nat)
    requires Inv(h) && IsLive(h, p) && LowestFree(h.blocks, h.lfree)
    ensures var (h1, q) := Malloc(h, 4 * size);
            && (q.None? ==> h1 == h)
            && IsLive(h1, p)
            && (q.Some? ==> var r := FreeAt(h1, p); LowestFree(r.blocks, r.lfree))
  {
    MallocKeeps(h, 4 * size);
    LiveStaysLive(h, 4 * size, p);
    FreeKeeps(Malloc(h, 4 * size).0, HeaderIndex(Malloc(h, 4 * size).0.blocks, p - HDR));
  }

  ghost predicate HidesNoSpace(h: Heap, ops: seq<Op>)
    requires Inv(h) && Runs(h, ops)
    decreases |ops|
  {
    ops != [] ==> !HidesSpace(h, ops[0]) && (StepKeeps(h, ops[0]); HidesNoSpace(Step(h, ops[0]), ops[1..]))
  }

  lemma {:induction false} LfreeStaysLowest(h: Heap, ops: seq<Op>)
    requires Inv(h) && Runs(h, ops) && HidesNoSpace(h, ops) && LowestFree(h.blocks, h.lfree)
    ensures LowestFree(Run(h, ops).blocks, Run(h, ops).lfree)
    decreases |ops|
  {
    if ops != [] {
      StepKeeps(h, ops[0]);
      StepKeepsLowestIff(h, ops[0]);
      LfreeStaysLowest(Step(h, ops[0]), ops[1..]);
    }
  }

  /** From rt_system_heap_init on, as long as no step hides space: rt_malloc fails exactly when it is asked for
      nothing, for more than the heap, or when no free block that starts below memSize - size is large enough. */
  lemma MallocFailsOnlyWhenNothingFits(memSize: nat, ops: seq<Op>, bytes: nat)
    requires MIN <= memSize && Inv(Initial(memSize)) && Runs(Initial(memSize), ops) && HidesNoSpace(Initial(memSize), ops)
    ensures var h := Run(Initial(memSize), ops);
            Malloc(h, bytes).1.None? <==>
              bytes == 0 || memSize < Words(bytes)
              || forall b <- h.blocks :: b.start < memSize - Wanted(bytes) ==> !Fits(b, Wanted(bytes))
  {
    InitialKeeps(memSize);
    LfreeStaysLowest(Initial(memSize), ops);
    MallocIsFirstFit(Run(Initial(memSize), ops), bytes);
  }

  /** Whatever order blocks were taken and given back in, two runs that hide no space and leave the same blocks in
      use leave the same heap. */
  lemma RunsAgree(memSize: nat, ops: seq<Op>, ops': seq<Op>)
    requires MIN <= memSize && Inv(Initial(memSize))
    requires Runs(Initial(memSize), ops) && HidesNoSpace(Initial(memSize), ops)
    requires Runs(Initial(memSize), ops') && HidesNoSpace(Initial(memSize), ops')
    requires Live(Run(Initial(memSize), ops).blocks) == Live(Run(Initial(memSize), ops').blocks)
    ensures var g, h := Run(Initial(memSize), ops), Run(Initial(memSize), ops'); g.(max := h.max) == h
  {
    InitialKeeps(memSize);
    LfreeStaysLowest(Initial(memSize), ops);
    LfreeStaysLowest(Initial(memSize), ops');
    LiveDeterminesHeap(Run(Initial(memSize), ops), Run(Initial(memSize), ops'));
  }

  // ---------- max_mem ----------

  /** rt_realloc takes the new block before it gives back the old one. */
  predicate Moves(h: Heap, op: Op)
    requires Inv(h) && Enabled(h, op)
  {
    && op.DoRealloc? && op.rmem.Some? && 0 < Words(op.bytes) <= h.memSize
    && var room := Room(BlockAt(h, op.rmem.value));
       room != Words(op.bytes) && room <= Words(op.bytes) + HDR + MIN
  }

  /** The most that is in use at any moment of a call. */
  function StepTop(h: Heap, op: Op): int
    requires Inv(h) && Enabled(h, op)
  {
    if Moves(h, op) then Malloc(h, 4 * Words(op.bytes)).0.used else Step(h, op).used
  }

  function Peak(h: Heap, ops: seq<Op>): int
    requires Inv(h) && Runs(h, ops)
    decreases |ops|
  {
    if ops == [] then h.used
    else
      StepKeeps(h, ops[0]);
      Max(Max(h.used, StepTop(h, ops[0])), Peak(Step(h, ops[0]), ops[1..]))
  }

  lemma MallocTallies(h: Heap, bytes: nat)
    requires Inv(h)
    ensures var r := Malloc(h, bytes).0; r.max == Max(h.max, r.used)
  {
  }

  lemma FreeTallies(h: Heap, p: nat)
    requires Inv(h) && IsLive(h, p)
    ensures var r := FreeAt(h, p); r.max == Max(h.max, r.used) == h.max
  {
    FreeKeeps(h, HeaderIndex(h.blocks, p - HDR));
  }

  lemma MoveTallies(h: Heap, p: nat, size: nat)
    requires Inv(h) && IsLive(h, p)
    ensures var h1 := Malloc(h, 4 * size).0; IsLive(h1, p) && FreeAt(h1, p).max == h1.max == Max(h.max, h1.used)
  {
    MallocTallies(h, 4 * size);
    MallocKeeps(h, 4 * size);
    LiveStaysLive(h, 4 * size, p);
    FreeTallies(Malloc(h, 4 * size).0, p);
  }

  lemma StepTallies(h: Heap, op: Op)
    requires Inv(h) && Enabled(h, op)
    ensures Step(h, op).max == Max(h.max, StepTop(h, op))
  {
    match op
    case DoMalloc(bytes) => MallocTallies(h, bytes);
    case DoFree(p) => FreeTallies(h, p);
    case DoRealloc(p, bytes) =>
      if p.None? {
        MallocTallies(h, 4 * Words(bytes));
      } else if bytes == 0 {
        FreeTallies(h, p.value);
      } else {
        ReallocTallies(h, p.value, bytes);
      }
  }

  lemma ReallocTallies(h: Heap, p: nat, bytes: nat)
    requires Inv(h) && IsLive(h, p) && bytes != 0
    ensures Realloc(h, Some(p), bytes).0.max == Max(h.max, StepTop(h, DoRealloc(Some(p), bytes)))
  {
    hide NoTwoFree, LfreeOk, UsedWords, Tiled, Free, Take, Chosen, Live;
    var size, room := Words(bytes), Room(BlockAt(h, p));
    if size <= h.memSize && room != size {
      if size + HDR + MIN < room {
        ShrinkInPlace(h, p, size);
      } else {
        MoveTallies(h, p, size);
      }
    }
  }

  /** max_mem is the most that was ever in use. */
  lemma {:induction false} MaxMemIsPeak(h: Heap, ops: seq<Op>)
    requires Inv(h) && Runs(h, ops)
    ensures Run(h, ops).max == Max(h.max, Peak(h, ops))
    decreases |ops|
  {
    if ops != [] {
      StepKeeps(h, ops[0]);
      StepTallies(h, ops[0]);
      MaxMemIsPeak(Step(h, ops[0]), ops[1..]);
    }
  }

  // ---------- space that stays hidden ----------

  /** The heap after blocks of a and of b words have been taken from the front of an empty one. */
  function TwoTaken(m: nat, a: nat, b: nat): Heap {
    Heap(m, [Block(0, a + HDR, true), Block(a + HDR, a + b + 2 * HDR, true), Block(a + b + 2 * HDR, HeapEnd(m), false)],
         a + b + 2 * HDR, a + b + 2 * HDR, a + b + 2 * HDR)
  }

  lemma FirstTaken(m: nat, a: nat)
    requires MIN <= a && a + HDR + MIN <= m
    ensures Malloc(Initial(m), 4 * a).0 ==
              Heap(m, [Block(0, a + HDR, true), Block(a + HDR, HeapEnd(m), false)], a + HDR, a + HDR, a + HDR)
  {
    var h := Initial(m);
    assert Words(4 * a) == a && Chosen(h, 4 * a) == Some(0);
    var bs := Taken(h.blocks, 0, a);
    assert bs == [Block(0, a + HDR, true), Block(a + HDR, HeapEnd(m), false)];
    assert NextFree(bs, 0, HeapEnd(m)) == NextFree(bs, 1, HeapEnd(m)) == a + HDR;
  }

  lemma SecondTaken(m: nat, a: nat, b: nat)
    requires MIN <= a && MIN <= b && a + b + 2 * HDR + MIN <= m
    ensures var h := Malloc(Initial(m), 4 * a).0; Malloc(h, 4 * b).0 == TwoTaken(m, a, b)
  {
    FirstTaken(m, a);
    var h := Malloc(Initial(m), 4 * a).0;
    assert Words(4 * b) == b;
    assert HeaderIndexFrom(h.blocks, h.lfree, 0) == HeaderIndexFrom(h.blocks, h.lfree, 1) == 1;
    assert Chosen(h, 4 * b) == Some(1);
    var bs := Taken(h.blocks, 1, b);
    assert bs == TwoTaken(m, a, b).blocks;
    assert NextFree(bs, 1, HeapEnd(m)) == NextFree(bs, 2, HeapEnd(m)) == a + b + 2 * HDR;
  }

  lemma ShrunkInFront(m: nat, a: nat, b: nat, c: nat)
    requires MIN <= c && MIN <= b && c + HDR + MIN < a && a + b + 2 * HDR + MIN <= m
    requires Inv(TwoTaken(m, a, b)) && IsLive(TwoTaken(m, a, b), HDR)
    ensures HidesSpace(TwoTaken(m, a, b), DoRealloc(Some(HDR), 4 * c))
    ensures var h := Realloc(TwoTaken(m, a, b), Some(HDR), 4 * c).0;
            && h.memSize == m && h.lfree == a + b + 2 * HDR
            && h.blocks == [Block(0, c + HDR, true), Block(c + HDR, a + HDR, false)] + TwoTaken(m, a, b).blocks[1..]
  {
    var h := TwoTaken(m, a, b);
    assert Words(4 * c) == c && HeaderIndex(h.blocks, 0) == 0;
    var h1 := BeforePlug(h, 0, c);
    assert h1.blocks == [Block(0, c + HDR, true), Block(c + HDR, a + HDR, false)] + h.blocks[1..];
    assert PlugHoles(h1, 1) == h1;
  }

  /** A run that hides space: two blocks are taken from an empty heap and the first one is shrunk. A request that only
      the space it gave up could meet then fails. */
  lemma HiddenSpaceIsRefused(m: nat, a: nat, b: nat, c: nat, d: nat)
    requires MIN <= c && MIN <= b && MIN <= d && c + HDR + d <= a && c + HDR + MIN < a
    requires a + b + 2 * HDR + MIN <= m && m - (a + b + 2 * HDR) < d
    ensures Inv(Initial(m))
    ensures var ops := [DoMalloc(4 * a), DoMalloc(4 * b), DoRealloc(Some(HDR), 4 * c)];
            && Runs(Initial(m), ops)
            && var h := Run(Initial(m), ops);
            && !LowestFree(h.blocks, h.lfree) && Malloc(h, 4 * d).1.None?
            && exists x <- h.blocks :: Fits(x, d) && x.start < m - d
  {
    var h := Initial(m);
    InitialKeeps(m);
    StepKeeps(h, DoMalloc(4 * a));
    var h1 := Step(h, DoMalloc(4 * a));
    StepKeeps(h1, DoMalloc(4 * b));
    SecondTaken(m, a, b);
    var h2 := Step(h1, DoMalloc(4 * b));
    assert HeaderIndex(h2.blocks, 0) == 0;
    ShrunkInFront(m, a, b, c);
    StepKeeps(h2, DoRealloc(Some(HDR), 4 * c));
    var h3 := Step(h2, DoRealloc(Some(HDR), 4 * c));
    HiddenFromSearch(h3, m, a, b, c, d);
    var ops := [DoMalloc(4 * a), DoMalloc(4 * b), DoRealloc(Some(HDR), 4 * c)];
    assert ops[1..] == [DoMalloc(4 * b), DoRealloc(Some(HDR), 4 * c)] && ops[1..][1..] == [DoRealloc(Some(HDR), 4 * c)] && ops[1..][1..][1..] == [];
    assert Runs(h3, []) && Run(h3, []) == h3;
    assert Runs(h2, ops[1..][1..]) && Run(h2, ops[1..][1..]) == h3;
    assert Runs(h1, ops[1..]) && Run(h1, ops[1..]) == h3;
  }

  lemma HiddenFromSearch(h: Heap, m: nat, a: nat, b: nat, c: nat, d: nat)
    requires MIN <= d && c + HDR + d <= a && a + b + 2 * HDR <= m && m - (a + b + 2 * HDR) < d
    requires h.memSize == m && h.lfree == a + b + 2 * HDR
    requires h.blocks == [Block(0, c + HDR, true), Block(c + HDR, a + HDR, false)] + TwoTaken(m, a, b).blocks[1..]
    ensures !LowestFree(h.blocks, h.lfree) && Malloc(h, 4 * d).1.None?
    ensures exists x <- h.blocks :: Fits(x, d) && x.start < m - d
  {
    assert Words(4 * d) == d;
    var bs := h.blocks;
    assert HeaderIndexFrom(bs, h.lfree, 0) == HeaderIndexFrom(bs, h.lfree, 1) == HeaderIndexFrom(bs, h.lfree, 2) == 3;
    assert FirstFit(bs, m - d, d, 3) == FirstFit(bs, m - d, d, 4) == None;
    assert !bs[1].used && bs[1] in bs && Fits(bs[1], d);
  }
}
