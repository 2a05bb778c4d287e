/** What malloc, free and realloc of the small heap come to: which block is taken, what becomes of it and of lfree, and
    when a call fails. The blocks in use determine the others, and used_mem (Blocks.LiveDeterminesBlocks). */
module SmallHeapLaws {
  import opened Options
  import opened Blocks
  import opened SmallHeap

  /** size is the least number of words that holds the bytes. */
  predicate InWords(bytes: nat, size: nat) {
    bytes <= 4 * size && 4 * size < bytes + 4
  }

  /** A free block that the search comes by, with room for the size: it starts at lfree or above it, and below the limit. */
  predicate Candidate(h: Heap, b: Block, size: nat) {
    !b.used && b.next - b.start - HDR >= size && h.lfree <= b.start < h.memSize - size
  }

  ghost predicate LowestCandidate(h: Heap, b: Block, size: nat) {
    b in h.blocks && Candidate(h, b, size) && forall c <- h.blocks :: Candidate(h, c, size) ==> b.start <= c.start
  }

  /** a is the first free header above address b, or heap_end. */
  ghost predicate NextFreeAbove(bs: seq<Block>, b: nat, a: nat, end: nat) {
    && b < a && (a == end || exists c <- bs :: c.start == a && !c.used)
    && forall c <- bs :: !c.used && b < c.start ==> a <= c.start
  }

  lemma WordsIs(bytes: nat, size: nat)
    requires InWords(bytes, size)
    ensures Words(bytes) == size && Words(4 * size) == size
  {
  }

  lemma ChoosesIff(h: Heap, bytes: nat, size: nat, min: nat)
    requires Inv(h) && InWords(bytes, size) && min == (if size < MIN then MIN else size)
    ensures Chosen(h, bytes) == None <==> bytes == 0 || h.memSize < size || forall b <- h.blocks :: !Candidate(h, b, min)
    ensures Chosen(h, bytes).Some? ==> LowestCandidate(h, h.blocks[Chosen(h, bytes).value], min)
  {
    hide Tiled, NoTwoFree, LfreeOk, UsedWords;
    WordsIs(bytes, size);
    MallocIsFirstFit(h, bytes);
    forall i | 0 <= i < |h.blocks|
      ensures h.blocks[i] in h.blocks && (Candidate(h, h.blocks[i], min) <==> h.lfree <= h.blocks[i].start < h.memSize - min && Fits(h.blocks[i], min))
    {
    }
  }

  lemma LowestIsOne(h: Heap, b: Block, c: Block, size: nat)
    requires Inv(h) && LowestCandidate(h, b, size) && LowestCandidate(h, c, size)
    ensures b == c
  {
    var i :| 0 <= i < |h.blocks| && h.blocks[i] == b;
    var j :| 0 <= j < |h.blocks| && h.blocks[j] == c;
    if i != j {
      StartsDiffer(h.blocks, HeapEnd(h.memSize), i, j, HDR);
    }
  }

  /** malloc fails exactly if nothing is asked for, or more than there is, or the search comes by no block with room for
      the size, which is three words at least. */
  lemma MallocFailsIff(h: Heap, bytes: nat, size: nat, min: nat)
    requires Inv(h) && InWords(bytes, size) && min == (if size < MIN then MIN else size)
    ensures Malloc(h, bytes).1 == None <==> bytes == 0 || h.memSize < size || forall b <- h.blocks :: !Candidate(h, b, min)
    ensures Malloc(h, bytes).1 == None ==> Malloc(h, bytes).0 == h
  {
    ChoosesIff(h, bytes, size, min);
  }

  /** Otherwise it takes the lowest such block, cut to the size if what is left over holds a header and a minimal block,
      and lfree, if it was there, moves on to the next free header. */
  lemma MallocTakesLowest(h: Heap, bytes: nat, size: nat, min: nat, b: Block)
    requires Inv(h) && InWords(bytes, size) && min == (if size < MIN then MIN else size)
    requires bytes > 0 && size <= h.memSize && LowestCandidate(h, b, min)
    ensures var (r, p) := Malloc(h, bytes);
            var end := if b.next - b.start - HDR >= min + HDR + MIN then b.start + HDR + min else b.next;
            && p == Some(b.start + HDR)
            && Live(r.blocks) == Live(h.blocks) + {Block(b.start, end, true)}
            && (if b.start == h.lfree then NextFreeAbove(r.blocks, b.start, r.lfree, HeapEnd(h.memSize)) else r.lfree == h.lfree)
            && r.used == h.used + (end - b.start) && r.max == Max(h.max, r.used)
  {
    hide Inv, Live, Take, Room, NextFreeAbove, Candidate;
    ChoosesIff(h, bytes, size, min);
    assert Chosen(h, bytes).Some?;
    var k := Chosen(h, bytes).value;
    LowestIsOne(h, b, h.blocks[k], min);
    WordsIs(bytes, size);
    Fitting(h, b, min);
    TakeKeeps(h, k, min);
    TakeIs(h, k, min);
  }

  lemma Fitting(h: Heap, b: Block, size: nat)
    requires Candidate(h, b, size)
    ensures Fits(b, size) && h.lfree <= b.start
  {
  }

  lemma TakeIs(h: Heap, k: nat, size: nat)
    requires Inv(h) && k < |h.blocks| && Fits(h.blocks[k], size) && MIN <= size && h.lfree <= h.blocks[k].start
    ensures var r, b := Take(h, k, size), h.blocks[k];
            var end := if b.next - b.start - HDR >= size + HDR + MIN then b.start + HDR + size else b.next;
            && k < |r.blocks| && r.blocks[k] == Block(b.start, end, true)
            && r.used == h.used + (end - b.start) && r.max == Max(h.max, r.used)
            && (if b.start == h.lfree then NextFreeAbove(r.blocks, b.start, r.lfree, HeapEnd(h.memSize)) else r.lfree == h.lfree)
  {
    hide Inv, NextFreeAbove;
    TakenAt(h.blocks, k, size);
    if h.blocks[k].start == h.lfree {
      NextFreeIs(h, k, size);
    }
  }

  lemma NextFreeIs(h: Heap, k: nat, size: nat)
    requires Inv(h) && k < |h.blocks| && Fits(h.blocks[k], size) && MIN <= size
    ensures var bs, end := Taken(h.blocks, k, size), HeapEnd(h.memSize);
            NextFreeAbove(bs, h.blocks[k].start, NextFree(bs, k, end), end)
  {
    hide Inv;
    HeapIsTiled(h);
    var bs, end := Taken(h.blocks, k, size), HeapEnd(h.memSize);
    TakenLive(h.blocks, end, k, size);
    NextFreeAfter(bs, k, end);
  }

  lemma HeapIsTiled(h: Heap)
    requires Inv(h)
    ensures Tiled(h.blocks, HeapEnd(h.memSize), HDR) && NoTwoFree(h.blocks)
  {
  }

  lemma NextFreeAfter(bs: seq<Block>, k: nat, end: nat)
    requires Tiled(bs, end, HDR) && k < |bs| && bs[k].used
    ensures NextFreeAbove(bs, bs[k].start, NextFree(bs, k, end), end)
  {
    var a := NextFree(bs, k, end);
    NextFreeIsFree(bs, k, end);
    EndHasNoIndex(bs, end, HDR);
    if a != end {
      var i :| 0 <= i < |bs| && bs[i].start == a && !bs[i].used;
      assert bs[i] in bs;
      StartsDiffer(bs, end, i, k, HDR);
    }
    forall c | c in bs && !c.used && bs[k].start < c.start
      ensures a <= c.start
    {
      var i :| 0 <= i < |bs| && bs[i] == c;
      LowerIsEarlier(bs, end, k, i, HDR);
    }
  }

  lemma FoundAt(h: Heap, b: Block)
    requires Inv(h) && b in h.blocks
    ensures HeaderIndex(h.blocks, b.start) < |h.blocks| && h.blocks[HeaderIndex(h.blocks, b.start)] == b
  {
    var i :| 0 <= i < |h.blocks| && h.blocks[i] == b;
    IndexUnique(h.blocks, HeapEnd(h.memSize), i, HDR);
  }

  /** A block given back below lfree makes lfree the start of the free block it becomes part of. */
  lemma FreeIs(h: Heap, p: nat, b: Block)
    requires Inv(h) && b in h.blocks && b.used && p == b.start + HDR
    ensures IsLive(h, p)
    ensures var r := FreeAt(h, p);
            && Live(r.blocks) == Live(h.blocks) - {b} && r.used == h.used - (b.next - b.start) && r.max == h.max
            && (h.lfree < b.start ==> r.lfree == h.lfree)
            && (b.start < h.lfree ==> forall c <- h.blocks :: c.next == b.start ==> r.lfree == if c.used then b.start else c.start)
            && (b.start == 0 ==> r.lfree == 0)
  {
    FoundAt(h, b);
    FreeKeeps(h, HeaderIndex(h.blocks, b.start));
    FreedIs(h, HeaderIndex(h.blocks, b.start));
  }

  lemma FreedIs(h: Heap, k: nat)
    requires Inv(h) && k < |h.blocks| && h.blocks[k].used
    ensures var r, b := Free(h, k), h.blocks[k];
            && r.used == h.used - (b.next - b.start) && r.max == h.max
            && (h.lfree < b.start ==> r.lfree == h.lfree)
            && (b.start < h.lfree ==> forall c <- h.blocks :: c.next == b.start ==> r.lfree == if c.used then b.start else c.start)
            && (b.start == 0 ==> r.lfree == 0)
  {
    var bs, b, end := h.blocks, h.blocks[k], HeapEnd(h.memSize);
    LfreeIsNotUsed(h, k);
    BySpread(bs, end, HDR);
    FreedLfree(h, k);
    forall c | c in bs && c.next == b.start
      ensures k > 0 && bs[k - 1] == c
    {
      var i :| 0 <= i < |bs| && bs[i] == c;
      EndsAt(bs, end, i, k);
    }
  }

  lemma EndsAt(bs: seq<Block>, end: nat, i: nat, k: nat)
    requires Tiled(bs, end, HDR) && i < |bs| && k < |bs| && bs[i].next == bs[k].start
    ensures i + 1 == k
  {
    Apart(bs, end, i, k, HDR);
    NextIsAtEnd(bs, end, i, HDR);
    if i + 1 < k {
      StartsDiffer(bs, end, i + 1, k, HDR);
    }
  }

  lemma FreedLfree(h: Heap, k: nat)
    requires Inv(h) && k < |h.blocks| && h.blocks[k].used && h.lfree != h.blocks[k].start
    ensures var r, bs := Free(h, k), h.blocks;
            && r.used == h.used - (bs[k].next - bs[k].start) && r.max == h.max
            && r.lfree == if h.lfree < bs[k].start then h.lfree
                          else if k > 0 && !bs[k - 1].used then bs[k - 1].start
                          else bs[k].start
  {
    var h1 := Freed(h, k);
    NextIsAtEnd(h.blocks, HeapEnd(h.memSize), k, HDR);
    Apart(h.blocks, HeapEnd(h.memSize), k, k, HDR);
    if k + 1 < |h1.blocks| && !h1.blocks[k + 1].used {
      JoinIndex(h1.blocks, k, k);
      if k > 0 {
        JoinIndex(h1.blocks, k, k - 1);
      }
    }
  }

  // ---------- realloc ----------

  /** A realloc of a block in use returns NULL exactly if it asks for nothing, or for more than there is, or the block can
      stay neither as it is nor cut and a new one is refused. */
  lemma ReallocFailsIff(h: Heap, p: nat, b: Block, bytes: nat, size: nat)
    requires Inv(h) && b in h.blocks && b.used && p == b.start + HDR && InWords(bytes, size)
    ensures IsLive(h, p)
    ensures Realloc(h, Some(p), bytes).1 == None <==>
              || bytes == 0 || h.memSize < size
              || (b.next - p != size && size + HDR + MIN >= b.next - p && Malloc(h, bytes).1 == None)
  {
    FoundAt(h, b);
    WordsIs(bytes, size);
  }

  /** It returns the same pointer exactly if the size is that of the block, or leaves enough of it for another block. */
  lemma ReallocStaysIff(h: Heap, p: nat, b: Block, bytes: nat, size: nat)
    requires Inv(h) && b in h.blocks && b.used && p == b.start + HDR && InWords(bytes, size) && 0 < size <= h.memSize
    ensures IsLive(h, p)
    ensures Realloc(h, Some(p), bytes).1 == Some(p) <==> b.next - p == size || size + HDR + MIN < b.next - p
  {
    hide LfreeOk, NoTwoFree, UsedWords, Take, Free, Shrink;
    FoundAt(h, b);
    WordsIs(bytes, size);
    assert BlockAt(h, p) == b;
    MoveKeeps(h, p, size);
  }

  /** With its own size nothing changes; cut, it ends behind the size, and lfree follows a free neighbour whose header
      moves down to there. */
  lemma ReallocInPlaceIs(h: Heap, p: nat, b: Block, bytes: nat, size: nat)
    requires Inv(h) && b in h.blocks && b.used && p == b.start + HDR && InWords(bytes, size) && 0 < size <= h.memSize
    requires b.next - p == size || size + HDR + MIN < b.next - p
    ensures IsLive(h, p)
    ensures var r, mid := Realloc(h, Some(p), bytes).0, p + size;
            if b.next - p == size then r == h
            else
              && Live(r.blocks) == Live(h.blocks) - {b} + {b.(next := mid)}
              && r.lfree == (if h.lfree == b.next && h.lfree != HeapEnd(h.memSize) then mid else h.lfree)
              && r.used == h.used - (b.next - mid) && r.max == h.max
  {
    hide NoTwoFree, UsedWords, Free, Malloc, Live, Shrink;
    FoundAt(h, b);
    WordsIs(bytes, size);
    if b.next - p != size {
      ShrinkKeeps(h, HeaderIndex(h.blocks, b.start), size);
      ShrunkIs(h, HeaderIndex(h.blocks, b.start), size);
    }
  }

  lemma ShrunkIs(h: Heap, k: nat, size: nat)
    requires Inv(h) && k < |h.blocks| && h.blocks[k].used && 0 < size && size + HDR < Room(h.blocks[k])
    ensures var r, b := Shrink(h, k, size), h.blocks[k];
            && r.lfree == (if h.lfree == b.next && h.lfree != HeapEnd(h.memSize) then b.start + HDR + size else h.lfree)
            && r.used == h.used - (b.next - (b.start + HDR + size)) && r.max == h.max
  {
    var bs, end := h.blocks, HeapEnd(h.memSize);
    SplitPlugged(h, k, size);
    NextIsAtEnd(bs, end, k, HDR);
    EndHasNoIndex(bs, end, HDR);
    if h.lfree == bs[k].next && h.lfree != end {
      var i :| 0 <= i < |bs| && bs[i].start == h.lfree && !bs[i].used;
      EndsAt(bs, end, k, i);
    }
  }

  /** Otherwise it is a malloc of the size and a free of the old block, in this order. */
  lemma ReallocMoves(h: Heap, p: nat, b: Block, bytes: nat, size: nat)
    requires Inv(h) && b in h.blocks && b.used && p == b.start + HDR && InWords(bytes, size) && 0 < size <= h.memSize
    requires b.next - p != size && size + HDR + MIN >= b.next - p
    ensures IsLive(h, p)
    ensures var (h1, q) := Malloc(h, bytes);
            && IsLive(h1, p)
            && Realloc(h, Some(p), bytes) == if q == None then (h, None) else (FreeAt(h1, p), q)
  {
    hide LfreeOk, NoTwoFree, UsedWords, Take, Free;
    FoundAt(h, b);
    WordsIs(bytes, size);
    LiveStaysLive(h, 4 * size, p);
    assert Malloc(h, 4 * size) == Malloc(h, bytes);
  }

  /** NULL is treated as in a malloc, and nothing is asked for by a free. */
  lemma ReallocOfNull(h: Heap, bytes: nat)
    requires Inv(h)
    ensures Realloc(h, None, bytes) == Malloc(h, bytes)
  {
    assert InWords(bytes, Words(bytes));
    WordsIs(bytes, Words(bytes));
  }

  lemma ReallocToNothing(h: Heap, p: nat)
    requires Inv(h) && IsLive(h, p)
    ensures Realloc(h, Some(p), 0) == (FreeAt(h, p), None)
  {
  }
}
