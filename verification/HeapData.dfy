/** The data of heap blocks: the words behind a header of hdr words. What an allocator may touch, and what a
    reallocation carries over. */
module HeapData {
  import opened Blocks

  /** The data of b is the same in both memories. */
  ghost predicate SameData(ram: seq<nat>, ram': seq<nat>, b: Block, hdr: nat) {
    forall a | b.start + hdr <= a < b.next :: a < |ram| && a < |ram'| && ram'[a] == ram[a]
  }

  ghost predicate AllData(ram: seq<nat>, ram': seq<nat>, s: set<Block>, hdr: nat) {
    forall x <- s :: SameData(ram, ram', x, hdr)
  }

  lemma DataChain(r0: seq<nat>, r1: seq<nat>, r2: seq<nat>, s: set<Block>, hdr: nat)
    requires AllData(r0, r1, s, hdr) && AllData(r1, r2, s, hdr)
    ensures AllData(r0, r2, s, hdr)
  {
    forall x | x in s
      ensures SameData(r0, r2, x, hdr)
    {
      assert SameData(r0, r1, x, hdr) && SameData(r1, r2, x, hdr);
    }
  }

  /** A realloc carries the data over, up to the smaller of the two sizes. */
  ghost predicate Carried(ram: seq<nat>, ram': seq<nat>, p: nat, q: nat, room: int, size: nat) {
    var n := Least(room, size);
    p + n <= |ram| && q + n <= |ram'| && ram'[q..q + n] == ram[p..p + n]
  }

  function Least(room: int, size: nat): nat {
    if size < room then size else if 0 <= room then room else 0
  }

  lemma SameDataCarried(ram: seq<nat>, ram': seq<nat>, b: Block, p: nat, room: int, size: nat, hdr: nat)
    requires SameData(ram, ram', b, hdr) && p == b.start + hdr && p + Least(room, size) <= b.next <= |ram| && |ram'| == |ram|
    ensures Carried(ram, ram', p, p, room, size)
  {
    assert forall a | p <= a < p + Least(room, size) :: ram'[a] == ram[a];
  }

  /** An allocation, a copy and a free, one after the other. */
  lemma MoveCarries(r0: seq<nat>, r1: seq<nat>, r2: seq<nat>, before: set<Block>, after: set<Block>, b: Block, c: Block,
                    p: nat, q: nat, room: nat, size: nat, n: nat, hdr: nat)
    requires AllData(r0, r1, before, hdr) && b in before && c !in before
    requires p == b.start + hdr && room == b.next - (b.start + hdr) && b.next <= |r0| && |r0| == |r1| && n == Least(room, size)
    requires Carried(r1, r2, p, q, n, n) && AllData(r1, r2, after - {c}, hdr)
    ensures AllData(r0, r2, before * after, hdr) && Carried(r0, r2, p, q, room, size)
  {
    assert SameData(r0, r1, b, hdr);
    SameDataCarried(r0, r1, b, p, room, size, hdr);
    MovedData(r0, r1, r2, before, after, c, hdr);
    CarriedTwice(r0, r1, r2, p, p, q, room, size);
  }

  lemma CopyCarries(ram: seq<nat>, ram': seq<nat>, from: nat, to: nat, n: nat)
    requires |ram'| == |ram| && from + n <= |ram| && to + n <= |ram|
    requires forall i | 0 <= i < |ram| :: ram'[i] == if to <= i < to + n then ram[from + (i - to)] else ram[i]
    ensures Carried(ram, ram', from, to, n, n)
  {
  }

  lemma CarriedTwice(r0: seq<nat>, r1: seq<nat>, r2: seq<nat>, p0: nat, p1: nat, p2: nat, room: int, size: nat)
    requires Carried(r0, r1, p0, p1, room, size) && Carried(r1, r2, p1, p2, room, size)
    ensures Carried(r0, r2, p0, p2, room, size)
  {
  }

  lemma MovedData(r0: seq<nat>, r1: seq<nat>, r2: seq<nat>, before: set<Block>, after: set<Block>, c: Block, hdr: nat)
    requires AllData(r0, r1, before, hdr) && AllData(r1, r2, after - {c}, hdr) && c !in before
    ensures AllData(r0, r2, before * after, hdr)
  {
    forall x | x in before * after
      ensures SameData(r0, r2, x, hdr)
    {
      assert SameData(r0, r1, x, hdr) && SameData(r1, r2, x, hdr);
    }
  }

  /** rt_memcpy, of words that do not overlap. */
  method CopyWords(a: array<nat>, to: nat, from: nat, n: nat)
    requires to + n <= a.Length && from + n <= a.Length && (to + n <= from || from + n <= to)
    modifies a
    ensures forall i | 0 <= i < a.Length :: a[i] == if to <= i < to + n then old(a[from + (i - to)]) else old(a[i])
  {
    for j := 0 to n
      invariant forall i | 0 <= i < a.Length :: a[i] == if to <= i < to + j then old(a[from + (i - to)]) else old(a[i])
    {
      a[to + j] := a[from + j];
    }
  }

  /** Nothing is written but words from lo up to hi. */
  ghost predicate OnlyWithin(ram: seq<nat>, ram': seq<nat>, lo: nat, hi: nat) {
    |ram'| == |ram| && forall i | 0 <= i < |ram| && !(lo <= i < hi) :: ram'[i] == ram[i]
  }

  /** What is written inside one block leaves the data of all other blocks in use alone. */
  lemma WithinBlock(ram: seq<nat>, ram': seq<nat>, bs: seq<Block>, end: nat, k: nat, lo: nat, hi: nat, gap: nat, hdr: nat)
    requires Tiled(bs, end, gap) && k < |bs| && end <= |ram| && OnlyWithin(ram, ram', lo, hi)
    requires bs[k].start <= lo && hi <= bs[k].next
    ensures AllData(ram, ram', Live(bs) - {bs[k]}, hdr)
    ensures !bs[k].used ==> AllData(ram, ram', Live(bs), hdr)
  {
    forall x | x in Live(bs) && x != bs[k]
      ensures SameData(ram, ram', x, hdr)
    {
      var i := LiveIndex(bs, x);
      Apart(bs, end, i, k, gap);
    }
    LiveView(bs);
  }
}
