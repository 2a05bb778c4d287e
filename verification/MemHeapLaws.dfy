/** What the calls of the memory heap object come to: which block is taken, what becomes of it and of the free list, and
    when a call fails. The blocks in use determine the rest of the pool (Blocks.LiveDeterminesBlocks). */
module MemHeapLaws {
  import opened Options
  import opened Seqs
  import opened Blocks
  import opened MemHeap

  /** size is the least number of words, no less than the minimum, that holds the bytes. */
  predicate IsWanted(bytes: nat, size: nat) {
    size >= 3 && bytes <= 4 * size && (size == 3 || 4 * (size - 1) < bytes)
  }

  ghost predicate Fits(h: Pool, a: nat, size: nat) {
    exists b <- h.blocks :: b.start == a && !b.used && b.next - a - HDR >= size
  }

  /** The block at free[i] is the first on the free list with enough room. */
  ghost predicate FirstFit(h: Pool, size: nat, i: nat) {
    i < |h.free| && Fits(h, h.free[i], size) && forall j | 0 <= j < i :: !Fits(h, h.free[j], size)
  }

  lemma FitsIff(h: Pool, a: nat, size: nat)
    requires Inv(h) && a in h.free && size > 0
    ensures Fits(h, a, size) <==> RoomAt(h.blocks, a) >= size
  {
    ListedIsFree(h, a);
    var k := HeaderIndex(h.blocks, a);
    assert h.blocks[k] in h.blocks;
    if Fits(h, a, size) {
      var b :| b in h.blocks && b.start == a && !b.used && b.next - a - HDR >= size;
      var i :| 0 <= i < |h.blocks| && h.blocks[i] == b;
      IndexUnique(h.blocks, h.poolSize - HDR, i, GAP);
    }
  }

  lemma {:induction false} FindsFirst(h: Pool, free: seq<nat>, size: nat, i: nat)
    requires Inv(h) && size > 0 && i < |free| && Fits(h, free[i], size)
    requires forall a <- free :: a in h.free
    requires forall j | 0 <= j < i :: !Fits(h, free[j], size)
    ensures FindFree(h.blocks, free, size) == Some(free[i])
  {
    FitsIff(h, free[0], size);
    if i > 0 {
      assert !Fits(h, free[0], size);
      assert forall j | 0 <= j < i - 1 :: free[1..][j] == free[j + 1];
      FindsFirst(h, free[1..], size, i - 1);
    }
  }

  lemma WantedIs(bytes: nat, size: nat)
    requires IsWanted(bytes, size)
    ensures Wanted(bytes) == size && Wanted(4 * size) == size
  {
  }

  /** The first block on the free list with enough room is taken. If what it has to spare holds a header and a minimal
      block, it is cut, and the rest becomes the head of the free list. */
  lemma AllocTakesFirstFit(h: Pool, bytes: nat, size: nat, i: nat, b: Block)
    requires Inv(h) && IsWanted(bytes, size) && size < h.available && FirstFit(h, size, i)
    requires b in h.blocks && b.start == h.free[i]
    ensures var (r, p) := Alloc(h, bytes);
            var cut := b.next - b.start - HDR >= size + HDR + MIN;
            var end := if cut then b.start + HDR + size else b.next;
            var left := h.free[..i] + h.free[i + 1..];
            && p == Some(b.start + HDR)
            && Live(r.blocks) == Live(h.blocks) + {Block(b.start, end, true)}
            && r.free == if cut then [end] + left else left
  {
    hide Inv, Live, Alloc, Claim, Fits, HeaderIndex, IsWanted, Without;
    var k := HeaderIndex(h.blocks, b.start);
    ChoosesFirstFit(h, bytes, size, i, b);
    ClaimKeeps(h, k, size);
    ClaimIs(h, k, size);
    OffTheList(h, i);
  }

  lemma OffTheList(h: Pool, i: nat)
    requires Inv(h) && i < |h.free|
    ensures Without(h.free, h.free[i]) == h.free[..i] + h.free[i + 1..]
  {
    hide NoTwoFree, Idle, FreeRoom, Tiled, Lists;
    ListsView(h.free, Idle(h.blocks));
    WithoutAt(h.free, i);
  }

  lemma ChoosesFirstFit(h: Pool, bytes: nat, size: nat, i: nat, b: Block)
    requires Inv(h) && IsWanted(bytes, size) && size < h.available && FirstFit(h, size, i)
    requires b in h.blocks && b.start == h.free[i]
    ensures MIN <= size
    ensures var k := HeaderIndex(h.blocks, b.start);
            && k < |h.blocks| && h.blocks[k] == b && !b.used && Room(b) >= size
            && Alloc(h, bytes).0 == Claim(h, k, size) && Alloc(h, bytes).1 == Some(b.start + HDR)
  {
    hide NoTwoFree, Idle, FreeRoom, Lists, FindFree, Claim;
    WantedIs(bytes, size);
    FindsFirst(h, h.free, size, i);
    FoundAt(h, b);
    ListedIsFree(h, b.start);
    FitsIff(h, b.start, size);
  }

  lemma FoundAt(h: Pool, b: Block)
    requires Inv(h) && b in h.blocks
    ensures HeaderIndex(h.blocks, b.start) < |h.blocks| && h.blocks[HeaderIndex(h.blocks, b.start)] == b
  {
    var i :| 0 <= i < |h.blocks| && h.blocks[i] == b;
    IndexUnique(h.blocks, h.poolSize - HDR, i, GAP);
  }

  lemma ClaimIs(h: Pool, k: nat, size: nat)
    requires k < |h.blocks|
    ensures var r, b := Claim(h, k, size), h.blocks[k];
            var cut, left := Room(b) >= size + HDR + MIN, Without(h.free, b.start);
            && k < |r.blocks|
            && r.blocks[k] == b.(next := if cut then b.start + HDR + size else b.next, used := true)
            && r.free == if cut then [b.start + HDR + size] + left else left
  {
  }

  /** Otherwise it fails: the room wanted is all there is or more, or nothing on the free list has it. */
  lemma AllocFailsIff(h: Pool, bytes: nat, size: nat)
    requires Inv(h) && IsWanted(bytes, size)
    ensures Alloc(h, bytes).1 == None <==> size >= h.available || forall i | 0 <= i < |h.free| :: !Fits(h, h.free[i], size)
    ensures Alloc(h, bytes).1 == None ==> Alloc(h, bytes).0 == h
  {
    WantedIs(bytes, size);
    forall i | 0 <= i < |h.free|
      ensures Fits(h, h.free[i], size) <==> RoomAt(h.blocks, h.free[i]) >= size
    {
      FitsIff(h, h.free[i], size);
    }
  }

  /** A block given back joins its free predecessor where that is on the free list, or else becomes the head of the
      list; its free successor leaves the list. */
  lemma FreeIs(h: Pool, p: nat, b: Block)
    requires Inv(h) && b in h.blocks && b.used && p == b.start + HDR
    ensures IsLive(h, p)
    ensures var r := FreeAt(h, p);
            && Live(r.blocks) == Live(h.blocks) - {b} && r.maxUsed == h.maxUsed
            && r.free == (if exists c <- h.blocks :: c.next == b.start && !c.used then [] else [b.start])
                         + Without(h.free, b.next)
  {
    FoundAt(h, b);
    var k := HeaderIndex(h.blocks, b.start);
    FreeKeeps(h, k);
    FreedList(h, k);
  }

  lemma FreedList(h: Pool, k: nat)
    requires Inv(h) && k < |h.blocks| && h.blocks[k].used
    ensures var b := h.blocks[k];
            Free(h, k).free == (if exists c <- h.blocks :: c.next == b.start && !c.used then [] else [b.start])
                               + Without(h.free, b.next)
  {
    var bs, b := h.blocks, h.blocks[k];
    PrevFreeIff(h, k);
    NextFreeIff(h, k);
    var h1 := MarkFree(h, k);
    assert PrevFree(h1.blocks, k) <==> PrevFree(bs, k);
    assert NextFree(h1.blocks, k) <==> NextFree(bs, k);
    if PrevFree(bs, k) {
      JoinedNext(h1, k);
    }
  }

  lemma JoinedNext(h: Pool, k: nat)
    requires PrevFree(h.blocks, k)
    ensures var r := MergePrev(h, k).blocks;
            && (NextFree(r, k - 1) <==> NextFree(h.blocks, k)) && (NextFree(r, k - 1) ==> r[k] == h.blocks[k + 1])
  {
    JoinIndex(h.blocks, k - 1, k - 1);
    if k + 1 < |h.blocks| {
      JoinIndex(h.blocks, k - 1, k);
    }
  }

  lemma PrevFreeIff(h: Pool, k: nat)
    requires Inv(h) && k < |h.blocks|
    ensures PrevFree(h.blocks, k) <==> exists c <- h.blocks :: c.next == h.blocks[k].start && !c.used
  {
    var bs, end := h.blocks, h.poolSize - HDR;
    if k > 0 {
      NextIsAtEnd(bs, end, k - 1, GAP);
    }
    forall c | c in bs && c.next == bs[k].start && !c.used
      ensures PrevFree(bs, k)
    {
      var i :| 0 <= i < |bs| && bs[i] == c;
      Apart(bs, end, i, k, GAP);
      if i < k {
        BySpread(bs, end, GAP);
        Adjacent(bs, end, i, k);
      }
    }
  }

  lemma Adjacent(bs: seq<Block>, end: nat, i: nat, k: nat)
    requires Tiled(bs, end, GAP) && i < k < |bs| && bs[i].next == bs[k].start
    ensures i + 1 == k
  {
    NextIsAtEnd(bs, end, i, GAP);
    if i + 1 < k {
      StartsDiffer(bs, end, i + 1, k, GAP);
    }
  }

  /** The successor is free and on the list, or there is none and nothing to take off. */
  lemma NextFreeIff(h: Pool, k: nat)
    requires Inv(h) && k < |h.blocks|
    ensures NextFree(h.blocks, k) <==> h.blocks[k].next in h.free
    ensures NextFree(h.blocks, k) ==> h.blocks[k + 1].start == h.blocks[k].next
  {
    var bs, end := h.blocks, h.poolSize - HDR;
    NextIsAtEnd(bs, end, k, GAP);
    if NextFree(bs, k) {
      FreeIsListed(h, k + 1);
    }
    if bs[k].next in h.free {
      ListedIsFree(h, bs[k].next);
      var i := AfterNext(h, k);
      Adjacent(bs, end, k, i);
    }
  }

  lemma AfterNext(h: Pool, k: nat) returns (i: nat)
    requires Inv(h) && k < |h.blocks| && h.blocks[k].next in h.free
    ensures k < i < |h.blocks| && h.blocks[i].start == h.blocks[k].next && !h.blocks[i].used
  {
    ListedIsFree(h, h.blocks[k].next);
    i := HeaderIndex(h.blocks, h.blocks[k].next);
    Apart(h.blocks, h.poolSize - HDR, i, k, GAP);
    Apart(h.blocks, h.poolSize - HDR, k, k, GAP);
  }

  // ---------- realloc ----------

  /** The successor of b is free, and has enough to spare for b to grow to the size. */
  ghost predicate HasRoomBehind(h: Pool, b: Block, size: nat) {
    exists c <- h.blocks :: c.start == b.next && !c.used
      && (c.next - c.start - HDR) + (b.next - b.start - HDR) > size + MIN
  }

  lemma RoomBehindIff(h: Pool, k: nat, size: nat)
    requires Inv(h) && k < |h.blocks|
    ensures CanGrow(h.blocks, k, size) <==> HasRoomBehind(h, h.blocks[k], size)
  {
    hide NoTwoFree, Idle, FreeRoom, Lists, Tiled;
    var bs, b := h.blocks, h.blocks[k];
    NextIsAtEnd(bs, h.poolSize - HDR, k, GAP);
    if CanGrow(bs, k, size) {
      assert bs[k + 1] in bs;
    }
    forall c | c in bs && c.start == b.next
      ensures k + 1 < |bs| && bs[k + 1] == c
    {
      BehindIsNext(bs, h.poolSize - HDR, k, c);
    }
  }

  lemma BehindIsNext(bs: seq<Block>, end: nat, k: nat, c: Block)
    requires Tiled(bs, end, GAP) && k < |bs| && c in bs && c.start == bs[k].next
    ensures k + 1 < |bs| && bs[k + 1] == c
  {
    hide Tiled;
    var i :| 0 <= i < |bs| && bs[i] == c;
    Apart(bs, end, i, k, GAP);
    Apart(bs, end, k, k, GAP);
    Adjacent(bs, end, k, i);
  }

  /** A realloc of a block in use returns NULL exactly if it asks for nothing, or the block is too small, has no room
      behind it and a new one is refused. */
  lemma ReallocFailsIff(h: Pool, p: nat, b: Block, bytes: nat, size: nat)
    requires Inv(h) && b in h.blocks && b.used && p == b.start + HDR && IsWanted(bytes, size)
    ensures IsLive(h, p)
    ensures Realloc(h, Some(p), bytes).1 == None <==>
              || bytes == 0
              || (b.next - p < size && !HasRoomBehind(h, b, size)
                  && (size >= h.available || forall i | 0 <= i < |h.free| :: !Fits(h, h.free[i], size)))
  {
    FoundAt(h, b);
    WantedIs(bytes, size);
    RoomBehindIff(h, HeaderIndex(h.blocks, b.start), size);
    AllocFailsIff(h, 4 * size, size);
    assert BlockAt(h, p) == b;
  }

  /** It returns the same pointer exactly if the block is large enough or has room behind it. */
  lemma ReallocStaysIff(h: Pool, p: nat, b: Block, bytes: nat, size: nat)
    requires Inv(h) && b in h.blocks && b.used && p == b.start + HDR && IsWanted(bytes, size) && bytes > 0
    ensures IsLive(h, p)
    ensures Realloc(h, Some(p), bytes).1 == Some(p) <==> b.next - p >= size || HasRoomBehind(h, b, size)
  {
    hide NoTwoFree, FreeRoom, Lists, Idle, Free, Grow, Claim, HasRoomBehind;
    FoundAt(h, b);
    WantedIs(bytes, size);
    RoomBehindIff(h, HeaderIndex(h.blocks, b.start), size);
    assert BlockAt(h, p) == b;
    if b.next - p < size && !HasRoomBehind(h, b, size) {
      MoveKeeps(h, p, size);
      LiveView(h.blocks);
      MovesAway(h, p, b, size);
    }
  }

  lemma MovesAway(h: Pool, p: nat, b: Block, size: nat)
    requires Inv(h) && IsLive(h, p) && b in Live(h.blocks) && b.start + HDR == p && MIN <= size
    ensures Alloc(h, 4 * size).1 != Some(p)
  {
    var q := Alloc(h, 4 * size).1;
    if q.Some? {
      var a := Chosen(h, 4 * size);
      ListedIsFree(h, a.value);
      StartNotLive(h.blocks, h.poolSize - HDR, HeaderIndex(h.blocks, a.value), GAP);
    }
  }

  /** In place, the block ends behind the size asked for, unless it is large enough and what it has to spare is no more
      than a header and a minimal block; then nothing changes. */
  lemma ReallocInPlaceIs(h: Pool, p: nat, b: Block, bytes: nat, size: nat)
    requires Inv(h) && b in h.blocks && b.used && p == b.start + HDR && IsWanted(bytes, size) && bytes > 0
    requires b.next - p >= size || HasRoomBehind(h, b, size)
    ensures IsLive(h, p)
    ensures var r, mid := Realloc(h, Some(p), bytes).0, p + size;
            if size <= b.next - p <= size + HDR + MIN then r == h
            else
              && Live(r.blocks) == Live(h.blocks) - {b} + {b.(next := mid)}
              && r.free == [mid] + Without(h.free, b.next)
              && r.maxUsed == Max(h.maxUsed, h.poolSize - r.available)
  {
    hide Free, Alloc, FreeRoom, NoTwoFree, Lists;
    FoundAt(h, b);
    WantedIs(bytes, size);
    var k := HeaderIndex(h.blocks, b.start);
    RoomBehindIff(h, k, size);
    NextFreeIff(h, k);
    assert BlockAt(h, p) == b;
    if b.next - p < size {
      GrowKeeps(h, k, size);
    } else if size + HDR + MIN < b.next - p {
      ShrinkKeeps(h, k, size);
      ShrunkIs(h, k, size);
    }
  }

  lemma ShrunkIs(h: Pool, k: nat, size: nat)
    requires Inv(h) && k < |h.blocks| && h.blocks[k].used && MIN <= size && size + HDR + MIN < Room(h.blocks[k])
    ensures var r, b := Shrink(h, k, size), h.blocks[k];
            && r.free == [b.start + HDR + size] + Without(h.free, b.next)
            && r.maxUsed == Max(h.maxUsed, h.poolSize - r.available)
  {
    NextFreeIff(h, k);
    ShrinkKeeps(h, k, size);
  }

  /** Otherwise an alloc of the size and a free of the old block, in this order. */
  lemma ReallocMoves(h: Pool, p: nat, b: Block, bytes: nat, size: nat)
    requires Inv(h) && b in h.blocks && b.used && p == b.start + HDR && IsWanted(bytes, size) && bytes > 0
    requires b.next - p < size && !HasRoomBehind(h, b, size)
    ensures IsLive(h, p)
    ensures var (h1, q) := Alloc(h, bytes);
            && IsLive(h1, p)
            && Realloc(h, Some(p), bytes) == if q == None then (h, None) else (FreeAt(h1, p), q)
  {
    hide Free, FreeRoom, NoTwoFree, Lists;
    FoundAt(h, b);
    WantedIs(bytes, size);
    RoomBehindIff(h, HeaderIndex(h.blocks, b.start), size);
    assert BlockAt(h, p) == b;
    MoveKeeps(h, p, size);
  }

  /** NULL is treated as in an alloc, and nothing is asked for by a free. */
  lemma ReallocOfNull(h: Pool, bytes: nat)
    requires Inv(h)
    ensures Realloc(h, None, bytes) == if bytes == 0 then (h, None) else Alloc(h, bytes)
  {
  }

  lemma ReallocToNothing(h: Pool, p: nat)
    requires Inv(h) && IsLive(h, p)
    ensures Realloc(h, Some(p), 0) == (FreeAt(h, p), None)
  {
  }
}
