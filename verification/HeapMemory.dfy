/** The small-memory heap in memory: the headers of SmallHeap's blocks as words of the heap array itself.
    The methods are proved to do what SmallHeap says and to leave the data of blocks in use alone. */
module HeapMemory {
  import opened Options
  import opened Blocks
  import opened SmallHeap
  import opened HeapData

  const MAGIC: nat := 0x1EA0

  /** The first header word: magic in the low half, the used flag in the high half. */
  function Tag(used: bool): nat {
    if used then 0x1_0000 + MAGIC else MAGIC
  }

  predicate IsUsed(tag: nat) {
    tag / 0x1_0000 != 0
  }

  /** Words 0 and 1 of the header of b. */
  ghost predicate HeaderOk(ram: seq<nat>, b: Block) {
    b.start + HDR <= |ram| && ram[b.start] == Tag(b.used) && ram[b.start + 1] == b.next
  }

  /** Word 2 of the header of b holds the address of a. */
  ghost predicate PrevOk(ram: seq<nat>, b: Block, a: nat) {
    b.start + HDR <= |ram| && ram[b.start + 2] == a
  }

  /** The memory holds the headers of bs, linked in both directions, and heap_end. */
  ghost predicate Mirrors(ram: seq<nat>, bs: seq<Block>, end: nat) {
    && |ram| == end + HDR && ram[end] == Tag(true) && ram[end + 1] == end
    && (forall i | 0 <= i < |bs| :: HeaderOk(ram, bs[i]))
    && (forall i, j | 0 <= i < j < |bs| && j <= i + 1 :: PrevOk(ram, bs[j], bs[i].start))
    && (bs != [] ==> PrevOk(ram, bs[0], 0))
  }

  // ---------- the three ways headers change ----------

  lemma MirrorMark(ram: seq<nat>, bs: seq<Block>, end: nat, k: nat, used: bool)
    requires Tiled(bs, end, HDR) && Mirrors(ram, bs, end) && k < |bs|
    ensures bs[k].start < |ram| && Mirrors(ram[bs[k].start := Tag(used)], Mark(bs, k, used), end)
  {
    BySpread(bs, end, HDR);
    EndHasNoIndex(bs, end, HDR);
    var r, m := ram[bs[k].start := Tag(used)], Mark(bs, k, used);
    assert HeaderOk(ram, bs[k]);
    forall i | 0 <= i < |m|
      ensures HeaderOk(r, m[i])
    {
      assert HeaderOk(ram, bs[i]);
      Apart(bs, end, i, k, HDR);
    }
    forall i, j | 0 <= i < j < |m| && j <= i + 1
      ensures PrevOk(r, m[j], m[i].start)
    {
      assert PrevOk(ram, bs[j], bs[i].start);
      Apart(bs, end, j, k, HDR);
    }
    Apart(bs, end, 0, k, HDR);
  }

  /** The header writes of a split. */
  function SplitWords(ram: seq<nat>, b: Block, mid: nat, end: nat): seq<nat>
    requires b.start + HDR < mid && mid + HDR < b.next <= end && |ram| == end + HDR
  {
    var r := ram[mid := Tag(false)][mid + 1 := b.next][mid + 2 := b.start][b.start + 1 := mid];
    if b.next != end then r[b.next + 2 := mid] else r
  }

  lemma MirrorSplit(ram: seq<nat>, bs: seq<Block>, end: nat, k: nat, mid: nat)
    requires Tiled(bs, end, HDR) && Mirrors(ram, bs, end) && k < |bs|
    requires bs[k].start + HDR < mid && mid + HDR < bs[k].next
    ensures bs[k].next <= end && Mirrors(SplitWords(ram, bs[k], mid, end), Split(bs, k, mid), end)
  {
    NextApart(bs, end, 0, k, HDR);
    Apart(bs, end, 0, k, HDR);
    var r, s := SplitWords(ram, bs[k], mid, end), Split(bs, k, mid);
    forall i | 0 <= i < |s|
      ensures HeaderOk(r, s[i])
    {
      SplitHeader(ram, bs, end, k, mid, i);
    }
    forall i, j | 0 <= i < j < |s| && j <= i + 1
      ensures PrevOk(r, s[j], s[i].start)
    {
      SplitPrev(ram, bs, end, k, mid, i, j);
    }
    assert s[0] == SplitAt(bs, k, mid, 0);
  }

  lemma SplitHeader(ram: seq<nat>, bs: seq<Block>, end: nat, k: nat, mid: nat, i: nat)
    requires Tiled(bs, end, HDR) && Mirrors(ram, bs, end) && k < |bs| && i <= |bs|
    requires bs[k].start + HDR < mid && mid + HDR < bs[k].next <= end
    ensures HeaderOk(SplitWords(ram, bs[k], mid, end), Split(bs, k, mid)[i])
  {
    assert Split(bs, k, mid)[i] == SplitAt(bs, k, mid, i);
    var i' := if i <= k then i else i - 1;
    assert HeaderOk(ram, bs[i']);
    Apart(bs, end, i', k, HDR);
    NextApart(bs, end, i', k, HDR);
  }

  lemma SplitPrev(ram: seq<nat>, bs: seq<Block>, end: nat, k: nat, mid: nat, i: nat, j: nat)
    requires Tiled(bs, end, HDR) && Mirrors(ram, bs, end) && k < |bs|
    requires bs[k].start + HDR < mid && mid + HDR < bs[k].next <= end
    requires i < j <= |bs| && j <= i + 1
    ensures PrevOk(SplitWords(ram, bs[k], mid, end), Split(bs, k, mid)[j], Split(bs, k, mid)[i].start)
  {
    BySpread(bs, end, HDR);
    assert Split(bs, k, mid)[i] == SplitAt(bs, k, mid, i);
    assert Split(bs, k, mid)[j] == SplitAt(bs, k, mid, j);
    if j <= k {
      assert PrevOk(ram, bs[j], bs[i].start);
      Apart(bs, end, j, k, HDR);
    } else if j == k + 2 {
      assert bs[k].next == bs[k + 1].start;
      Apart(bs, end, k + 1, k, HDR);
    } else if j > k + 2 {
      assert PrevOk(ram, bs[j - 1], bs[i - 1].start);
      Apart(bs, end, j - 1, k + 1, HDR);
      assert bs[k].next == bs[k + 1].start;
    }
  }

  /** The header writes of a merge of b with its free successor n. */
  function JoinWords(ram: seq<nat>, b: Block, n: Block): seq<nat>
    requires b.start + HDR <= |ram| && n.next + HDR <= |ram|
  {
    ram[b.start + 1 := n.next][n.next + 2 := b.start]
  }

  lemma MirrorJoin(ram: seq<nat>, bs: seq<Block>, end: nat, k: nat)
    requires Tiled(bs, end, HDR) && Mirrors(ram, bs, end) && k + 1 < |bs|
    ensures bs[k].start + HDR <= |ram| && bs[k + 1].next + HDR <= |ram|
    ensures Mirrors(JoinWords(ram, bs[k], bs[k + 1]), Join(bs, k), end)
  {
    Apart(bs, end, k, k + 1, HDR);
    Apart(bs, end, 0, k, HDR);
    NextApart(bs, end, 0, k + 1, HDR);
    var r, s := JoinWords(ram, bs[k], bs[k + 1]), Join(bs, k);
    forall i | 0 <= i < |s|
      ensures HeaderOk(r, s[i])
    {
      JoinIndex(bs, k, i);
      var i' := if i <= k then i else i + 1;
      assert HeaderOk(ram, bs[i']);
      Apart(bs, end, i', k, HDR);
      NextApart(bs, end, i', k + 1, HDR);
    }
    forall i, j | 0 <= i < j < |s| && j <= i + 1
      ensures PrevOk(r, s[j], s[i].start)
    {
      JoinPrev(ram, bs, end, k, i, j);
    }
    JoinIndex(bs, k, 0);
  }

  lemma JoinPrev(ram: seq<nat>, bs: seq<Block>, end: nat, k: nat, i: nat, j: nat)
    requires Tiled(bs, end, HDR) && Mirrors(ram, bs, end) && k + 1 < |bs| && i < j < |bs| - 1 && j <= i + 1
    requires bs[k].start + HDR <= |ram| && bs[k + 1].next + HDR <= |ram|
    ensures PrevOk(JoinWords(ram, bs[k], bs[k + 1]), Join(bs, k)[j], Join(bs, k)[i].start)
  {
    BySpread(bs, end, HDR);
    JoinIndex(bs, k, i);
    JoinIndex(bs, k, j);
    Apart(bs, end, k, k + 1, HDR);
    if j <= k {
      assert PrevOk(ram, bs[j], bs[i].start);
      Apart(bs, end, j, k, HDR);
      Apart(bs, end, j, k + 1, HDR);
    } else if j == k + 1 {
      assert bs[k + 1].next == bs[k + 2].start;
      Apart(bs, end, k + 1, k + 2, HDR);
    } else {
      assert PrevOk(ram, bs[j + 1], bs[i + 1].start);
      Apart(bs, end, j + 1, k + 2, HDR);
      Apart(bs, end, k + 1, k + 2, HDR);
      assert bs[k + 1].next == bs[k + 2].start;
    }
  }

  // ---------- the data of blocks in use ----------

  lemma MarkData(ram: seq<nat>, bs: seq<Block>, end: nat, k: nat, used: bool)
    requires Tiled(bs, end, HDR) && |ram| == end + HDR && k < |bs|
    ensures bs[k].start < |ram|
    ensures AllData(ram, ram[bs[k].start := Tag(used)], Live(bs) + Live(Mark(bs, k, used)), HDR)
  {
    hide Live, Tiled, SameData;
    Apart(bs, end, k, k, HDR);
    forall x | x in Live(bs) + Live(Mark(bs, k, used))
      ensures SameData(ram, ram[bs[k].start := Tag(used)], x, HDR)
    {
      var i := LiveIndex(if x in Live(bs) then bs else Mark(bs, k, used), x);
      Apart(bs, end, i, k, HDR);
      HeaderWritten(ram, bs[k].start, Tag(used), x);
    }
  }

  lemma HeaderWritten(ram: seq<nat>, a: nat, v: nat, x: Block)
    requires a < |ram| && x.next <= |ram| && (x.next <= a || a < x.start + HDR)
    ensures SameData(ram, ram[a := v], x, HDR)
  {
  }

  lemma SplitData(ram: seq<nat>, bs: seq<Block>, end: nat, k: nat, mid: nat)
    requires Tiled(bs, end, HDR) && |ram| == end + HDR && k < |bs|
    requires bs[k].start + HDR < mid && mid + HDR < bs[k].next
    ensures bs[k].next <= end
    ensures AllData(ram, SplitWords(ram, bs[k], mid, end), Live(Split(bs, k, mid)), HDR)
    ensures !bs[k].used ==> AllData(ram, SplitWords(ram, bs[k], mid, end), Live(bs), HDR)
  {
    Apart(bs, end, k, k, HDR);
    forall x | x in Live(Split(bs, k, mid)) || (x in Live(bs) && !bs[k].used)
      ensures SameData(ram, SplitWords(ram, bs[k], mid, end), x, HDR)
    {
      if x in Live(Split(bs, k, mid)) {
        var i := LiveIndex(Split(bs, k, mid), x);
        assert x == SplitAt(bs, k, mid, i);
        SplitDataAt(ram, bs, end, k, mid, if i <= k then i else i - 1);
      } else {
        var i := LiveIndex(bs, x);
        SplitDataAt(ram, bs, end, k, mid, i);
      }
    }
  }

  lemma SplitDataAt(ram: seq<nat>, bs: seq<Block>, end: nat, k: nat, mid: nat, i: nat)
    requires Tiled(bs, end, HDR) && |ram| == end + HDR && k < |bs| && i < |bs|
    requires bs[k].start + HDR < mid && mid + HDR < bs[k].next <= end
    ensures SameData(ram, SplitWords(ram, bs[k], mid, end), if i == k then bs[k].(next := mid) else bs[i], HDR)
  {
    Apart(bs, end, i, k, HDR);
    NextApart(bs, end, i, k, HDR);
  }

  lemma JoinData(ram: seq<nat>, bs: seq<Block>, end: nat, k: nat)
    requires Tiled(bs, end, HDR) && |ram| == end + HDR && k + 1 < |bs| && !bs[k].used && !bs[k + 1].used
    ensures bs[k].start + HDR <= |ram| && bs[k + 1].next + HDR <= |ram|
    ensures AllData(ram, JoinWords(ram, bs[k], bs[k + 1]), Live(bs), HDR)
  {
    Apart(bs, end, k, k + 1, HDR);
    forall x | x in Live(bs)
      ensures SameData(ram, JoinWords(ram, bs[k], bs[k + 1]), x, HDR)
    {
      var i := LiveIndex(bs, x);
      Apart(bs, end, i, k, HDR);
      Apart(bs, end, k + 1, k, HDR);
      NextApart(bs, end, i, k + 1, HDR);
    }
  }

  lemma SameIsAllData(ram: seq<nat>, bs: seq<Block>, end: nat)
    requires Tiled(bs, end, HDR) && |ram| == end + HDR
    ensures AllData(ram, ram, Live(bs), HDR)
  {
    forall x | x in Live(bs)
      ensures SameData(ram, ram, x, HDR)
    {
      var i := LiveIndex(bs, x);
      Apart(bs, end, i, i, HDR);
    }
  }

  // ---------- the heap ----------

  class Memory {
    const memSize: nat                     // mem_size_aligned
    const ram: array<nat>                  // heap_ptr
    var lfree: nat
    var usedMem: int
    var maxMem: int
    ghost var blocks: seq<Block>

    function End(): nat {
      HeapEnd(memSize)
    }

    ghost function State(): Heap
      reads this
    {
      Heap(memSize, blocks, lfree, usedMem, maxMem)
    }

    /** What holds between any two header updates. */
    ghost predicate Linked()
      reads this, ram
    {
      Tiled(blocks, End(), HDR) && Mirrors(ram[..], blocks, End())
    }

    ghost predicate Valid()
      reads this, ram
    {
      Linked() && Inv(State())
    }

    /** rt_system_heap_init; the heap has room for one block at least. */
    constructor (memSize: nat)
      requires MIN <= memSize
      ensures Valid() && fresh(ram) && this.memSize == memSize && State() == Initial(memSize)
    {
      this.memSize := memSize;
      ram := new nat[memSize + 2 * HDR](i => 0);
      lfree, usedMem, maxMem := 0, 0, 0;
      blocks := [Block(0, HeapEnd(memSize), false)];
      new;
      ram[0], ram[1], ram[2] := Tag(false), memSize + HDR, 0;
      ram[End()], ram[End() + 1], ram[End() + 2] := Tag(true), memSize + HDR, memSize + HDR;
      InitialKeeps(memSize);
    }

    /** Reads the header of block k. */
    method ReadHeader(a: nat, ghost k: nat) returns (used: bool, next: nat, prev: nat)
      requires Linked() && k < |blocks| && a == blocks[k].start
      ensures used == blocks[k].used && next == blocks[k].next
      ensures prev == if k == 0 then 0 else blocks[k - 1].start
      ensures next == End() || (k + 1 < |blocks| && blocks[k + 1].start == next && next != End())
      ensures a < next <= End() && k < |blocks| - 1 ==> next < End()
    {
      assert HeaderOk(ram[..], blocks[k]);
      assert if k == 0 then PrevOk(ram[..], blocks[0], 0) else PrevOk(ram[..], blocks[k], blocks[k - 1].start);
      Apart(blocks, End(), k, k, HDR);
      if k + 1 < |blocks| {
        NextApart(blocks, End(), k + 1, k, HDR);
        Apart(blocks, End(), k + 1, k, HDR);
      } else {
        BySpread(blocks, End(), HDR);
      }
      used, next, prev := IsUsed(ram[a]), ram[a + 1], ram[a + 2];
    }

    method SetTag(a: nat, used: bool, ghost k: nat)
      requires Linked() && k < |blocks| && a == blocks[k].start
      modifies this`blocks, ram
      ensures Linked() && blocks == Mark(old(blocks), k, used)
      ensures AllData(old(ram[..]), ram[..], Live(old(blocks)) + Live(blocks), HDR)
    {
      Apart(blocks, End(), k, k, HDR);
      MirrorMark(ram[..], blocks, End(), k, used);
      MarkData(ram[..], blocks, End(), k, used);
      MarkTiled(blocks, k, used, End(), HDR);
      ram[a] := Tag(used);
      blocks := Mark(blocks, k, used);
    }

    /** A free header at mid, linked in behind block k. */
    method SplitOff(a: nat, mid: nat, ghost k: nat)
      requires Linked() && k < |blocks| && a == blocks[k].start
      requires blocks[k].start + HDR < mid && mid + HDR < blocks[k].next
      modifies this`blocks, ram
      ensures Linked() && blocks == Split(old(blocks), k, mid)
      ensures AllData(old(ram[..]), ram[..], Live(blocks), HDR)
      ensures !old(blocks)[k].used ==> AllData(old(ram[..]), ram[..], Live(old(blocks)), HDR)
    {
      NextApart(blocks, End(), k, k, HDR);
      Apart(blocks, End(), k, k, HDR);
      MirrorSplit(ram[..], blocks, End(), k, mid);
      SplitData(ram[..], blocks, End(), k, mid);
      SplitTiled(blocks, k, mid, End(), HDR);
      assert HeaderOk(ram[..], blocks[k]);
      ram[mid] := Tag(false);
      ram[mid + 1] := ram[a + 1];
      ram[mid + 2] := a;
      ram[a + 1] := mid;
      if ram[mid + 1] != memSize + HDR {
        ram[ram[mid + 1] + 2] := mid;
      }
      assert ram[..] == SplitWords(old(ram[..]), old(blocks)[k], mid, End());
      blocks := Split(blocks, k, mid);
    }

    /** Block k takes over its free successor n. */
    method MergeNext(a: nat, n: nat, ghost k: nat)
      requires Linked() && k + 1 < |blocks| && a == blocks[k].start && n == blocks[k + 1].start
      requires !blocks[k].used && !blocks[k + 1].used
      modifies this`blocks, ram
      ensures Linked() && blocks == Join(old(blocks), k)
      ensures AllData(old(ram[..]), ram[..], Live(old(blocks)), HDR)
    {
      Apart(blocks, End(), k, k + 1, HDR);
      MirrorJoin(ram[..], blocks, End(), k);
      JoinData(ram[..], blocks, End(), k);
      JoinTiled(blocks, k, End(), HDR);
      assert HeaderOk(ram[..], blocks[k]) && HeaderOk(ram[..], blocks[k + 1]);
      ram[a + 1] := ram[n + 1];
      ram[ram[n + 1] + 2] := a;
      assert ram[..] == JoinWords(old(ram[..]), old(blocks)[k], old(blocks)[k + 1]);
      blocks := Join(blocks, k);
    }

    /** plug_holes. */
    method Plug(a: nat, ghost k: nat)
      requires Linked() && InvBut(State(), k) && a == blocks[k].start
      modifies this`blocks, this`lfree, ram
      ensures Valid() && State() == PlugHoles(old(State()), k)
      ensures Live(blocks) == Live(old(blocks)) && AllData(old(ram[..]), ram[..], Live(blocks), HDR)
    {
      PlugForwardKeeps(State(), k);
      PlugBackwardKeeps(PlugForward(State(), k), k);
      PlugNext(a, k);
      ghost var mid := ram[..];
      PlugPrev(a, k);
      DataChain(old(ram[..]), mid, ram[..], Live(blocks), HDR);
    }

    method PlugNext(a: nat, ghost k: nat)
      requires Linked() && k < |blocks| && a == blocks[k].start && !blocks[k].used
      modifies this`blocks, this`lfree, ram
      ensures Linked() && State() == PlugForward(old(State()), k) && blocks[k].start == a
      ensures AllData(old(ram[..]), ram[..], Live(old(blocks)), HDR)
    {
      SameIsAllData(ram[..], blocks, End());
      var _, n, _ := ReadHeader(a, k);
      if n != memSize + HDR {
        var nUsed, _, _ := ReadHeader(n, k + 1);
        if !nUsed {
          if lfree == n {
            lfree := a;
          }
          JoinIndex(blocks, k, k);
          MergeNext(a, n, k);
        }
      }
    }

    method PlugPrev(a: nat, ghost k: nat)
      requires Linked() && k < |blocks| && a == blocks[k].start && !blocks[k].used
      modifies this`blocks, this`lfree, ram
      ensures Linked() && State() == PlugBackward(old(State()), k)
      ensures AllData(old(ram[..]), ram[..], Live(old(blocks)), HDR)
    {
      SameIsAllData(ram[..], blocks, End());
      var _, _, p := ReadHeader(a, k);
      BySpread(blocks, End(), HDR);
      if p != a {
        var pUsed, _, _ := ReadHeader(p, k - 1);
        if !pUsed {
          if lfree == a {
            lfree := p;
          }
          MergeNext(p, a, k - 1);
        }
      }
    }

    /** rt_free of a live pointer. */
    method HeapFree(rmem: nat)
      requires Valid() && IsLive(State(), rmem)
      modifies this`blocks, this`lfree, this`usedMem, ram
      ensures Valid() && State() == FreeAt(old(State()), rmem)
      ensures AllData(old(ram[..]), ram[..], Live(blocks), HDR)
    {
      ghost var k := HeaderIndex(blocks, rmem - HDR);
      FreedBlock(State(), k);
      MarkFree(rmem - HDR, k);
      ghost var mid := ram[..];
      Plug(rmem - HDR, k);
      DataChain(old(ram[..]), mid, ram[..], Live(blocks), HDR);
    }

    method MarkFree(a: nat, ghost k: nat)
      requires Linked() && k < |blocks| && a == blocks[k].start && blocks[k].used
      modifies this`blocks, this`lfree, this`usedMem, ram
      ensures Linked() && State() == Freed(old(State()), k)
      ensures AllData(old(ram[..]), ram[..], Live(blocks), HDR)
    {
      SetTag(a, false, k);
      if a < lfree {
        lfree := a;
      }
      var _, n, _ := ReadHeader(a, k);
      usedMem := usedMem - (n - a);
    }

    /** The search loop of rt_malloc. */
    method Search(size: nat) returns (found: bool, a: nat, ghost k: nat)
      requires Valid() && size <= memSize
      ensures var r := FirstFit(blocks, memSize - size, size, HeaderIndex(blocks, lfree));
              found == r.Some? && (found ==> k == r.value && a == blocks[k].start)
    {
      a := lfree;
      k := HeaderIndex(blocks, lfree);
      LfreeIndex(State());
      EndHasNoIndex(blocks, End(), HDR);
      while a < memSize - size
        invariant k <= |blocks| && a == if k < |blocks| then blocks[k].start else End()
        invariant FirstFit(blocks, memSize - size, size, k) == FirstFit(blocks, memSize - size, size, HeaderIndex(blocks, lfree))
        decreases |blocks| - k
      {
        var used, next, _ := ReadHeader(a, k);
        if !used && next - (a + HDR) >= size {
          found := true;
          return;
        }
        a, k := next, k + 1;
      }
      found := false;
    }

    /** Moves lfree on to the next free header. */
    method AdvanceFree(ghost k: nat)
      requires Linked() && k < |blocks| && lfree == blocks[k].start
      modifies this`lfree
      ensures lfree == NextFree(blocks, k, End())
    {
      ghost var i := k;
      Apart(blocks, End(), k, k, HDR);
      while IsUsed(ram[lfree]) && lfree != memSize + HDR
        invariant i <= |blocks| && lfree == if i < |blocks| then blocks[i].start else End()
        invariant lfree < ram.Length
        invariant NextFree(blocks, i, End()) == NextFree(blocks, k, End())
        decreases |blocks| - i
      {
        var _, next, _ := ReadHeader(lfree, i);
        lfree, i := next, i + 1;
      }
      if i < |blocks| {
        assert HeaderOk(ram[..], blocks[i]);
        EndHasNoIndex(blocks, End(), HDR);
      }
    }

    /** Takes block k for size words. */
    method TakeBlock(a: nat, size: nat, ghost k: nat)
      requires Valid() && k < |blocks| && a == blocks[k].start && Fits(blocks[k], size) && MIN <= size && lfree <= a
      modifies this, ram
      ensures Valid() && State() == Take(old(State()), k, size)
      ensures AllData(old(ram[..]), ram[..], Live(old(blocks)), HDR)
    {
      hide HeaderOk, PrevOk, LfreeOk, NoTwoFree;
      TakeKeeps(State(), k, size);
      TakenAt(blocks, k, size);
      ghost var before := blocks;
      var _, next, _ := ReadHeader(a, k);
      if next - (a + HDR) >= size + HDR + MIN {
        SplitOff(a, a + HDR + size, k);
        ghost var mid := ram[..];
        SetTag(a, true, k);
        SplitThenMark(before, k, a + HDR + size);
        DataChain(old(ram[..]), mid, ram[..], Live(before), HDR);
        usedMem := usedMem + size + HDR;
      } else {
        SetTag(a, true, k);
        usedMem := usedMem + next - a;
      }
      if maxMem < usedMem {
        maxMem := usedMem;
      }
      if a == lfree {
        AdvanceFree(k);
      }
    }

    /** rt_malloc. */
    method HeapMalloc(bytes: nat) returns (p: Option<nat>)
      requires Valid()
      modifies this, ram
      ensures Valid() && (State(), p) == Malloc(old(State()), bytes)
      ensures AllData(old(ram[..]), ram[..], Live(old(blocks)), HDR)
    {
      hide HeaderOk, PrevOk, AllData, Take;
      SameIsAllData(ram[..], blocks, End());
      if bytes == 0 {
        return None;
      }
      var size := Words(bytes);
      if size > memSize {
        return None;
      }
      if size < MIN {
        size := MIN;
      }
      MallocIsFirstFit(State(), bytes);
      var found, a, k := Search(size);
      if !found {
        return None;
      }
      TakeBlock(a, size, k);
      return Some(a + HDR);
    }

    /** The copy and the free of a moving rt_realloc, from block b to block c. */
    method Move(from: nat, to: nat, n: nat, ghost b: Block, ghost c: Block)
      requires Valid() && b in Live(blocks) && c in Live(blocks) && b != c
      requires from == b.start + HDR && to == c.start + HDR && n <= Room(b) && n <= Room(c)
      modifies this`blocks, this`lfree, this`usedMem, ram
      ensures IsLive(old(State()), from) && Valid() && State() == FreeAt(old(State()), from)
      ensures AllData(old(ram[..]), ram[..], Live(blocks) - {c}, HDR)
      ensures Carried(old(ram[..]), ram[..], from, to, n, n)
    {
      hide HeaderOk, PrevOk, NoTwoFree, LfreeOk, UsedWords;
      LiveIsIndexed(State(), b);
      ghost var i := LiveIndex(blocks, b);
      ghost var j := LiveIndex(blocks, c);
      Apart(blocks, End(), i, j, HDR);
      Apart(blocks, End(), j, i, HDR);
      FreeKeeps(State(), HeaderIndex(blocks, b.start));
      CopyWords(ram, to, from, n);
      ghost var mid := ram[..];
      CopyCarries(old(ram[..]), mid, from, to, n);
      DataWritten(old(ram[..]), mid, blocks, End(), j);
      HeapFree(from);
      assert SameData(mid, ram[..], c, HDR);
      SameDataCarried(mid, ram[..], c, to, n, n, HDR);
      CarriedTwice(old(ram[..]), mid, ram[..], from, to, to, n, n);
      DataChain(old(ram[..]), mid, ram[..], Live(blocks) - {c}, HDR);
    }

    /** rt_realloc of NULL or a live pointer. */
    method HeapRealloc(p: Option<nat>, bytes: nat) returns (q: Option<nat>)
      requires Valid() && (p.Some? ==> IsLive(State(), p.value))
      modifies this, ram
      ensures Valid() && (State(), q) == Realloc(old(State()), p, bytes)
      ensures AllData(old(ram[..]), ram[..], Live(old(blocks)) * Live(blocks), HDR)
      ensures p.Some? && q.Some? ==> Carried(old(ram[..]), ram[..], p.value, q.value, Room(BlockAt(old(State()), p.value)), Words(bytes))
    {
      SameIsAllData(ram[..], blocks, End());
      var size := Words(bytes);
      if size > memSize {
        return None;
      } else if size == 0 {
        if p.Some? {
          HeapFree(p.value);
        }
        return None;
      }
      if p.None? {
        q := HeapMalloc(4 * size);
        return;
      }
      q := ReallocLive(p.value, size, bytes);
    }

    /** rt_realloc of a live pointer to a size that is neither zero nor above the heap's. */
    method ReallocLive(p: nat, size: nat, ghost bytes: nat) returns (q: Option<nat>)
      requires Valid() && IsLive(State(), p) && 0 < size <= memSize && size == Words(bytes)
      modifies this, ram
      ensures Valid() && (State(), q) == Realloc(old(State()), Some(p), bytes)
      ensures AllData(old(ram[..]), ram[..], Live(old(blocks)) * Live(blocks), HDR)
      ensures q.Some? ==> Carried(old(ram[..]), ram[..], p, q.value, Room(BlockAt(old(State()), p)), size)
    {
      hide HeaderOk, PrevOk, NoTwoFree, LfreeOk, AllData, SameData;
      SameIsAllData(ram[..], blocks, End());
      ghost var k := HeaderIndex(blocks, p - HDR);
      var a := p - HDR;
      var _, next, _ := ReadHeader(a, k);
      NextApart(blocks, End(), k, k, HDR);
      Apart(blocks, End(), k, k, HDR);
      var room := next - a - HDR;
      if room == size {
        assert Live(blocks) * Live(blocks) == Live(blocks) && Carried(ram[..], ram[..], p, p, room, size);
        return Some(p);
      }
      if size + HDR + MIN < room {
        ShrinkBlock(p, size, k);
        return Some(p);
      }
      q := MoveToNew(p, room, size);
    }

    method MoveToNew(p: nat, room: nat, size: nat) returns (q: Option<nat>)
      requires Valid() && IsLive(State(), p) && 0 < size <= memSize && room == Room(BlockAt(State(), p))
      modifies this, ram
      ensures IsLive(Malloc(old(State()), 4 * size).0, p)
      ensures Valid() && q == Malloc(old(State()), 4 * size).1
      ensures State() == if q.None? then Malloc(old(State()), 4 * size).0 else FreeAt(Malloc(old(State()), 4 * size).0, p)
      ensures AllData(old(ram[..]), ram[..], Live(old(blocks)) * Live(blocks), HDR)
      ensures q.Some? ==> Carried(old(ram[..]), ram[..], p, q.value, room, size)
    {
      hide HeaderOk, PrevOk, NoTwoFree, LfreeOk;
      ghost var b := BlockAt(State(), p);
      ghost var before := blocks;
      LiveStaysLive(State(), 4 * size, p);
      MallocKeeps(State(), 4 * size);
      ghost var c := if Chosen(State(), 4 * size).Some? then Allotted(State(), 4 * size) else b;
      ghost var i := LiveIndex(blocks, b);
      Apart(blocks, End(), i, i, HDR);
      q := HeapMalloc(4 * size);
      ghost var mid := ram[..];
      if q.Some? {
        var n := if room < size then room else size;
        Move(p, q.value, n, b, c);
        MoveCarries(old(ram[..]), mid, ram[..], Live(before), Live(blocks), b, c, p, q.value, room, size, n, HDR);
      }
    }

    method ShrinkBlock(p: nat, size: nat, ghost k: nat)
      requires Valid() && k < |blocks| && blocks[k].used && p == blocks[k].start + HDR
      requires 0 < size && size + HDR + MIN < Room(blocks[k])
      modifies this, ram
      ensures Valid() && State() == Shrink(old(State()), k, size)
      ensures AllData(old(ram[..]), ram[..], Live(old(blocks)) * Live(blocks), HDR)
      ensures Carried(old(ram[..]), ram[..], p, p, Room(old(blocks)[k]), size)
    {
      hide HeaderOk, PrevOk, NoTwoFree, LfreeOk;
      var a := p - HDR;
      ghost var b := blocks[k];
      var mid := a + HDR + size;
      ShrinkKeeps(State(), k, size);
      NextApart(blocks, End(), k, k, HDR);
      ShrunkBlock(blocks, End(), k, mid, lfree);
      var _, next, _ := ReadHeader(a, k);
      usedMem := usedMem - (next - a - HDR - size);
      SplitOff(a, mid, k);
      ghost var between := ram[..];
      Plug(mid, k + 1);
      DataChain(old(ram[..]), between, ram[..], Live(blocks), HDR);
      assert b.(next := mid) in Live(blocks);
      SameDataCarried(old(ram[..]), ram[..], b.(next := mid), p, Room(b), size, HDR);
    }
  }

  lemma SplitThenMark(bs: seq<Block>, k: nat, mid: nat)
    requires k < |bs|
    ensures Mark(Split(bs, k, mid), k, true) == Split(Mark(bs, k, true), k, mid)
  {
  }

  /** Writing the data of block j disturbs no header and no other block's data. */
  lemma DataWritten(ram: seq<nat>, ram': seq<nat>, bs: seq<Block>, end: nat, j: nat)
    requires Tiled(bs, end, HDR) && Mirrors(ram, bs, end) && |ram'| == |ram| && j < |bs|
    requires forall a | 0 <= a < |ram| && !(bs[j].start + HDR <= a < bs[j].next) :: ram'[a] == ram[a]
    ensures Mirrors(ram', bs, end) && AllData(ram, ram', Live(bs) - {bs[j]}, HDR)
  {
    Apart(bs, end, 0, j, HDR);
    forall i | 0 <= i < |bs|
      ensures HeaderOk(ram', bs[i])
    {
      assert HeaderOk(ram, bs[i]);
      Apart(bs, end, i, j, HDR);
    }
    forall i, k | 0 <= i < k < |bs| && k <= i + 1
      ensures PrevOk(ram', bs[k], bs[i].start)
    {
      assert PrevOk(ram, bs[k], bs[i].start);
      Apart(bs, end, k, j, HDR);
    }
    forall x | x in Live(bs) - {bs[j]}
      ensures SameData(ram, ram', x, HDR)
    {
      var i := LiveIndex(bs, x);
      Apart(bs, end, i, j, HDR);
    }
  }
}
