/** Heap blocks laid end to end: what both allocators' block lists have in common. Addresses are in words. */
module Blocks {

  /** A block from its header to the next header. */
  datatype Block = Block(start: nat, next: nat, used: bool)

  // ---------- lists of blocks ----------

  /** The blocks tile the addresses from a to end, each with room for a word at least. */
  ghost predicate TiledFrom(bs: seq<Block>, a: nat, end: nat, gap: nat) {
    if bs == [] then a == end
    else bs[0].start == a && a + gap < bs[0].next && TiledFrom(bs[1..], bs[0].next, end, gap)
  }

  ghost predicate Tiled(bs: seq<Block>, end: nat, gap: nat) {
    bs != [] && TiledFrom(bs, 0, end, gap)
  }

  /** The same by indices. */
  ghost predicate Spread(bs: seq<Block>, a: nat, end: nat, gap: nat) {
    && (if bs == [] then a == end else bs[0].start == a && bs[|bs| - 1].next == end)
    && (forall i | 0 <= i < |bs| :: bs[i].start + gap < bs[i].next)
    && (forall i, j | 0 <= i < j < |bs| :: bs[i].next <= bs[j].start)
    && (forall i, j | 0 <= i < j < |bs| && j <= i + 1 :: bs[i].next == bs[j].start)
  }

  lemma {:induction false} TiledIsSpread(bs: seq<Block>, a: nat, end: nat, gap: nat)
    ensures TiledFrom(bs, a, end, gap) <==> Spread(bs, a, end, gap)
  {
    if bs != [] {
      var t, b := bs[1..], bs[0];
      TiledIsSpread(t, b.next, end, gap);
      assert forall i | 0 <= i < |t| :: t[i] == bs[i + 1];
      if Spread(t, b.next, end, gap) && b.start == a && a + gap < b.next {
        SpreadOneMore(bs, a, end, gap);
      }
      if Spread(bs, a, end, gap) {
        assert t != [] ==> bs[0].next == bs[1].start;
        assert Spread(t, b.next, end, gap);
      }
    }
  }

  lemma SpreadOneMore(bs: seq<Block>, a: nat, end: nat, gap: nat)
    requires bs != [] && Spread(bs[1..], bs[0].next, end, gap) && bs[0].start == a && a + gap < bs[0].next
    ensures Spread(bs, a, end, gap)
  {
    var t := bs[1..];
    forall i | 0 <= i < |bs|
      ensures bs[i].start + gap < bs[i].next
    {
      assert i > 0 ==> bs[i] == t[i - 1];
    }
    forall i, j | 0 <= i < j < |bs|
      ensures bs[i].next <= bs[j].start && (j <= i + 1 ==> bs[i].next == bs[j].start)
    {
      assert bs[j] == t[j - 1];
      if i > 0 {
        assert bs[i] == t[i - 1];
      } else if j > 1 {
        assert t[0].next <= t[j - 1].start;
      }
    }
  }

  /** What is used about a tiled list. */
  lemma BySpread(bs: seq<Block>, end: nat, gap: nat)
    requires Tiled(bs, end, gap)
    ensures Spread(bs, 0, end, gap)
  {
    TiledIsSpread(bs, 0, end, gap);
  }

  /** No two neighbours are both free. */
  ghost predicate NoTwoFree(bs: seq<Block>) {
    |bs| > 1 ==> (bs[0].used || bs[1].used) && NoTwoFree(bs[1..])
  }

  ghost predicate Alternate(bs: seq<Block>) {
    forall i, j | 0 <= i < j < |bs| && j <= i + 1 :: bs[i].used || bs[j].used
  }

  lemma {:induction false} NoTwoFreeAlternates(bs: seq<Block>)
    ensures NoTwoFree(bs) <==> Alternate(bs)
  {
    if |bs| > 1 {
      var t := bs[1..];
      NoTwoFreeAlternates(t);
      assert forall i | 0 <= i < |t| :: t[i] == bs[i + 1];
      if Alternate(t) && (bs[0].used || bs[1].used) {
        forall i, j | 0 <= i < j < |bs| && j <= i + 1
          ensures bs[i].used || bs[j].used
        {
          assert i > 0 ==> bs[i] == t[i - 1] && bs[j] == t[j - 1];
        }
      }
    }
  }

  ghost predicate NoTwoFreeBut(bs: seq<Block>, k: nat) {
    forall i, j | 0 <= i < j < |bs| && j <= i + 1 && i != k && j != k :: bs[i].used || bs[j].used
  }

  lemma NoTwoFreeClosed(bs: seq<Block>, k: nat)
    requires NoTwoFreeBut(bs, k) && k < |bs|
    requires k + 1 < |bs| ==> bs[k + 1].used
    requires k > 0 ==> bs[k - 1].used
    ensures NoTwoFree(bs)
  {
    NoTwoFreeAlternates(bs);
  }

  /** The blocks in use. */
  ghost function Live(bs: seq<Block>): set<Block> {
    if bs == [] then {} else (if bs[0].used then {bs[0]} else {}) + Live(bs[1..])
  }

  lemma {:induction false} LiveView(bs: seq<Block>)
    ensures Live(bs) == set b | b in bs && b.used
  {
    if bs != [] {
      LiveView(bs[1..]);
      assert bs == [bs[0]] + bs[1..];
    }
  }

  lemma LiveIndex(bs: seq<Block>, x: Block) returns (i: nat)
    requires x in Live(bs)
    ensures i < |bs| && bs[i] == x && x.used
  {
    LiveView(bs);
    i :| i < |bs| && bs[i] == x;
  }

  /** The index of the header at a; |bs| if a is heap_end. */
  function HeaderIndexFrom(bs: seq<Block>, a: nat, i: nat): (k: nat)
    requires i <= |bs|
    ensures i <= k <= |bs|
    ensures k < |bs| ==> bs[k].start == a
    ensures forall j | i <= j < k :: bs[j].start != a
    decreases |bs| - i
  {
    if i == |bs| || bs[i].start == a then i else HeaderIndexFrom(bs, a, i + 1)
  }

  function HeaderIndex(bs: seq<Block>, a: nat): nat {
    HeaderIndexFrom(bs, a, 0)
  }

  lemma IndexUnique(bs: seq<Block>, end: nat, i: nat, gap: nat)
    requires Tiled(bs, end, gap) && i < |bs|
    ensures HeaderIndex(bs, bs[i].start) == i
  {
    if HeaderIndex(bs, bs[i].start) < i {
      StartsDiffer(bs, end, HeaderIndex(bs, bs[i].start), i, gap);
    }
  }

  lemma StartsDiffer(bs: seq<Block>, end: nat, i: nat, j: nat, gap: nat)
    requires Tiled(bs, end, gap) && i < |bs| && j < |bs| && i != j
    ensures bs[i].start != bs[j].start
  {
    BySpread(bs, end, gap);
    if i < j {
      assert bs[i].next <= bs[j].start;
    } else {
      assert bs[j].next <= bs[i].start;
    }
  }

  lemma EndHasNoIndex(bs: seq<Block>, end: nat, gap: nat)
    requires Tiled(bs, end, gap)
    ensures HeaderIndex(bs, end) == |bs|
    ensures forall i | 0 <= i < |bs| :: bs[i].start < end
  {
    BySpread(bs, end, gap);
    forall i | 0 <= i < |bs|
      ensures bs[i].start < end
    {
      if i < |bs| - 1 {
        assert bs[i].next <= bs[|bs| - 1].start;
      }
    }
  }

  lemma LowerIsEarlier(bs: seq<Block>, end: nat, i: nat, k: nat, gap: nat)
    requires Tiled(bs, end, gap) && i < |bs| && k < |bs| && bs[i].start < bs[k].start
    ensures i < k
  {
    BySpread(bs, end, gap);
  }

  /** The headers of different blocks do not overlap. */
  lemma Apart(bs: seq<Block>, end: nat, i: nat, k: nat, gap: nat)
    requires Tiled(bs, end, gap) && i < |bs| && k < |bs|
    ensures i < k ==> bs[i].start + gap < bs[i].next <= bs[k].start
    ensures k < i ==> bs[k].start + gap < bs[k].next <= bs[i].start
    ensures bs[i].start + gap < bs[i].next <= end && bs[k].next <= end
  {
    BySpread(bs, end, gap);
    assert i < |bs| - 1 ==> bs[i].next <= bs[|bs| - 1].start;
    assert k < |bs| - 1 ==> bs[k].next <= bs[|bs| - 1].start;
  }

  /** The header a block's next leads to overlaps no other header. */
  lemma NextApart(bs: seq<Block>, end: nat, i: nat, k: nat, gap: nat)
    requires Tiled(bs, end, gap) && i < |bs| && k < |bs|
    ensures bs[k].next == end || bs[k].next + gap < end
    ensures if i <= k then bs[i].start + gap < bs[k].next
            else bs[i].start == bs[k].next || bs[k].next + gap < bs[i].start
    ensures k + 1 < |bs| ==> bs[k].next == bs[k + 1].start
  {
    BySpread(bs, end, gap);
    Apart(bs, end, i, k, gap);
    if k + 1 < |bs| {
      Apart(bs, end, k, k + 1, gap);
      Apart(bs, end, i, k + 1, gap);
    }
  }

  lemma NextIsAtEnd(bs: seq<Block>, end: nat, k: nat, gap: nat)
    requires Tiled(bs, end, gap) && k < |bs|
    ensures k + 1 < |bs| ==> bs[k + 1].start == bs[k].next
  {
    BySpread(bs, end, gap);
  }

  lemma StartNotLive(bs: seq<Block>, end: nat, k: nat, gap: nat)
    requires Tiled(bs, end, gap) && k < |bs| && !bs[k].used
    ensures forall b <- Live(bs) :: b.start != bs[k].start
  {
    LiveView(bs);
    forall b | b in Live(bs)
      ensures b.start != bs[k].start
    {
      var i :| 0 <= i < |bs| && bs[i] == b;
      StartsDiffer(bs, end, i, k, gap);
    }
  }

  // ---------- surgery on the list ----------

  function Mark(bs: seq<Block>, k: nat, used: bool): seq<Block>
    requires k < |bs|
  {
    bs[k := bs[k].(used := used)]
  }

  /** Block k ends at mid, and a free block takes the rest. */
  function Split(bs: seq<Block>, k: nat, mid: nat): seq<Block>
    requires k < |bs|
  {
    seq(|bs| + 1, i requires 0 <= i <= |bs| => SplitAt(bs, k, mid, i))
  }

  /** Block k swallows its successor. */
  function Join(bs: seq<Block>, k: nat): seq<Block>
    requires k + 1 < |bs|
  {
    seq(|bs| - 1, i requires 0 <= i < |bs| - 1 => JoinAt(bs, k, i))
  }

  function SplitAt(bs: seq<Block>, k: nat, mid: nat, i: nat): Block
    requires k < |bs| && i <= |bs|
  {
    if i < k then bs[i] else if i == k then bs[k].(next := mid)
    else if i == k + 1 then Block(mid, bs[k].next, false) else bs[i - 1]
  }

  function JoinAt(bs: seq<Block>, k: nat, i: nat): Block
    requires k + 1 < |bs| && i + 1 < |bs|
  {
    if i < k then bs[i] else if i == k then bs[k].(next := bs[k + 1].next) else bs[i + 1]
  }

  lemma JoinIndex(bs: seq<Block>, k: nat, i: nat)
    requires k + 1 < |bs| && i + 1 < |bs|
    ensures |Join(bs, k)| == |bs| - 1 && Join(bs, k)[i] == JoinAt(bs, k, i)
  {
  }

  lemma MarkTiled(bs: seq<Block>, k: nat, used: bool, end: nat, gap: nat)
    requires Tiled(bs, end, gap) && k < |bs|
    ensures Tiled(Mark(bs, k, used), end, gap)
  {
    BySpread(bs, end, gap);
    TiledIsSpread(Mark(bs, k, used), 0, end, gap);
  }

  lemma SplitTiled(bs: seq<Block>, k: nat, mid: nat, end: nat, gap: nat)
    requires Tiled(bs, end, gap) && k < |bs| && bs[k].start + gap < mid && mid + gap < bs[k].next
    ensures Tiled(Split(bs, k, mid), end, gap)
  {
    hide TiledFrom, NoTwoFree;
    BySpread(bs, end, gap);
    var r := Split(bs, k, mid);
    forall i | 0 <= i < |r|
      ensures r[i].start + gap < r[i].next
    {
      assert r[i] == SplitAt(bs, k, mid, i);
    }
    forall i, j | 0 <= i < j < |r|
      ensures r[i].next <= r[j].start && (j <= i + 1 ==> r[i].next == r[j].start)
    {
      assert r[i] == SplitAt(bs, k, mid, i) && r[j] == SplitAt(bs, k, mid, j);
    }
    TiledIsSpread(Split(bs, k, mid), 0, end, gap);
  }

  lemma JoinTiled(bs: seq<Block>, k: nat, end: nat, gap: nat)
    requires Tiled(bs, end, gap) && k + 1 < |bs|
    ensures Tiled(Join(bs, k), end, gap)
  {
    BySpread(bs, end, gap);
    var r := Join(bs, k);
    forall i | 0 <= i < |r|
      ensures r[i].start + gap < r[i].next
    {
      JoinIndex(bs, k, i);
      assert bs[k].next == bs[k + 1].start;
    }
    forall i, j | 0 <= i < j < |r|
      ensures r[i].next <= r[j].start && (j <= i + 1 ==> r[i].next == r[j].start)
    {
      JoinIndex(bs, k, i);
      JoinIndex(bs, k, j);
    }
    JoinIndex(bs, k, 0);
    JoinIndex(bs, k, |r| - 1);
    TiledIsSpread(r, 0, end, gap);
  }

  lemma MarkLive(bs: seq<Block>, k: nat, end: nat, gap: nat)
    requires Tiled(bs, end, gap) && k < |bs|
    ensures bs[k].used ==> Live(Mark(bs, k, false)) == Live(bs) - {bs[k]}
    ensures !bs[k].used ==> Live(Mark(bs, k, true)) == Live(bs) + {bs[k].(used := true)} && bs[k].(used := true) !in Live(bs)
  {
    LiveView(bs);
    LiveView(Mark(bs, k, !bs[k].used));
    var r := Mark(bs, k, !bs[k].used);
    assert r[k] in r;
    forall b | b in bs && b != bs[k]
      ensures b in r
    {
      var i :| 0 <= i < |bs| && bs[i] == b;
      assert r[i] == b;
    }
    forall b | b in r && b != r[k]
      ensures b in bs
    {
      var i :| 0 <= i < |r| && r[i] == b;
      assert bs[i] == b;
    }
    forall i | 0 <= i < |bs| && i != k
      ensures bs[i].start != bs[k].start && r[i] == bs[i]
    {
      StartsDiffer(bs, end, i, k, gap);
    }
  }

  /** The block in use after a split; the rest of the list is as before. */
  lemma SplitLive(bs: seq<Block>, k: nat, mid: nat, end: nat, gap: nat)
    requires Tiled(bs, end, gap) && k < |bs| && bs[k].used
    ensures Live(Split(bs, k, mid)) == Live(bs) - {bs[k]} + {bs[k].(next := mid)}
  {
    LiveView(bs);
    LiveView(Split(bs, k, mid));
    var r := Split(bs, k, mid);
    assert r[k] == bs[k].(next := mid);
    forall b | b in bs && b.used && b != bs[k]
      ensures b in r
    {
      var i :| 0 <= i < |bs| && bs[i] == b;
      assert r[if i < k then i else i + 1] == SplitAt(bs, k, mid, if i < k then i else i + 1);
    }
    forall b | b in r && b.used && b != r[k]
      ensures b in bs && b != bs[k]
    {
      var i :| 0 <= i < |r| && r[i] == b;
      assert r[i] == SplitAt(bs, k, mid, i);
      StartsDiffer(bs, end, if i < k then i else i - 1, k, gap);
    }
  }

  lemma JoinLive(bs: seq<Block>, k: nat)
    requires k + 1 < |bs| && !bs[k].used && !bs[k + 1].used
    ensures Live(Join(bs, k)) == Live(bs)
  {
    LiveView(bs);
    LiveView(Join(bs, k));
    var r := Join(bs, k);
    forall b | b in bs && b.used
      ensures b in r
    {
      var i :| 0 <= i < |bs| && bs[i] == b;
      JoinIndex(bs, k, if i < k then i else i - 1);
    }
    forall b | b in r && b.used
      ensures b in bs
    {
      var i :| 0 <= i < |r| && r[i] == b;
      JoinIndex(bs, k, i);
    }
  }

  /** A block in use that swallows a free successor is the only one to change. */
  lemma JoinLiveUsed(bs: seq<Block>, k: nat, end: nat, gap: nat)
    requires Tiled(bs, end, gap) && k + 1 < |bs| && bs[k].used && !bs[k + 1].used
    ensures Live(Join(bs, k)) == Live(bs) - {bs[k]} + {Join(bs, k)[k]} && Join(bs, k)[k] !in Live(bs)
  {
    hide TiledFrom, NoTwoFree, Live;
    var r := Join(bs, k);
    LiveView(bs);
    LiveView(r);
    BySpread(bs, end, gap);
    JoinIndex(bs, k, k);
    assert r[k] in r;
    forall i | 0 <= i < |bs| && i != k
      ensures bs[i].start != bs[k].start && (i != k + 1 ==> bs[i] in r)
    {
      StartsDiffer(bs, end, i, k, gap);
      if i != k + 1 {
        var i' := if i < k then i else i - 1;
        JoinIndex(bs, k, i');
        assert r[i'] in r;
      }
    }
    forall i | 0 <= i < |r| && i != k
      ensures r[i] in bs && r[i] != bs[k]
    {
      JoinIndex(bs, k, i);
    }
  }

  lemma SplitNoTwoFree(bs: seq<Block>, k: nat, mid: nat)
    requires k < |bs| && bs[k].used && NoTwoFree(bs)
    ensures NoTwoFreeBut(Split(bs, k, mid), k + 1)
    ensures k + 1 < |bs| && bs[k + 1].used ==> NoTwoFree(Split(bs, k, mid))
    ensures k + 1 == |bs| ==> NoTwoFree(Split(bs, k, mid))
  {
    NoTwoFreeAlternates(bs);
    var r := Split(bs, k, mid);
    forall i, j | 0 <= i < j < |r| && j <= i + 1 && ((i != k + 1 && j != k + 1) || k + 1 == |bs| || bs[k + 1].used)
      ensures r[i].used || r[j].used
    {
      assert r[i] == SplitAt(bs, k, mid, i) && r[j] == SplitAt(bs, k, mid, j);
    }
    NoTwoFreeAlternates(r);
  }

  lemma JoinNoTwoFree(bs: seq<Block>, k: nat, but: nat)
    requires k + 1 < |bs| && !bs[k + 1].used && NoTwoFreeBut(bs, but) && (but == k || but == k + 1)
    ensures NoTwoFreeBut(Join(bs, k), k)
    ensures k + 1 < |Join(bs, k)| ==> Join(bs, k)[k + 1] == bs[k + 2]
    ensures k > 0 ==> Join(bs, k)[k - 1] == bs[k - 1]
    ensures but == k && k + 2 < |bs| ==> bs[k + 2].used
    ensures but == k + 1 && k > 0 && !bs[k].used ==> bs[k - 1].used
  {
    var r := Join(bs, k);
    forall i, j | 0 <= i < j < |r| && j <= i + 1 && i != k && j != k
      ensures r[i].used || r[j].used
    {
      JoinIndex(bs, k, i);
      JoinIndex(bs, k, j);
    }
    if k + 1 < |r| {
      JoinIndex(bs, k, k + 1);
    }
    if k > 0 {
      JoinIndex(bs, k, k - 1);
    }
  }

  /** Taking a free block for use, with no free neighbours, keeps the list well formed. */
  lemma MarkedKeeps(bs: seq<Block>, end: nat, k: nat, gap: nat)
    requires Tiled(bs, end, gap) && NoTwoFree(bs) && k < |bs| && !bs[k].used
    ensures var m := Mark(bs, k, true);
            && Tiled(m, end, gap) && NoTwoFree(m) && (k + 1 < |m| ==> m[k + 1].used)
            && Live(m) == Live(bs) + {m[k]} && m[k] !in Live(bs)
  {
    NoTwoFreeAlternates(bs);
    MarkTiled(bs, k, true, end, gap);
    MarkLive(bs, k, end, gap);
    forall i, j | 0 <= i < j < |bs| && j <= i + 1
      ensures Mark(bs, k, true)[i].used || Mark(bs, k, true)[j].used
    {
      assert bs[i].used || bs[j].used;
    }
    if k + 1 < |bs| {
      assert bs[k].used || bs[k + 1].used;
    }
    NoTwoFreeAlternates(Mark(bs, k, true));
  }

  /** Splitting a block in use whose successor is in use keeps the list well formed. */
  lemma SplitKeeps(bs: seq<Block>, end: nat, k: nat, mid: nat, gap: nat)
    requires Tiled(bs, end, gap) && NoTwoFree(bs) && k < |bs| && bs[k].used && (k + 1 < |bs| ==> bs[k + 1].used)
    requires bs[k].start + gap < mid && mid + gap < bs[k].next
    ensures var r := Split(bs, k, mid);
            && Tiled(r, end, gap) && NoTwoFree(r) && r[k] == bs[k].(next := mid)
            && Live(r) == Live(bs) - {bs[k]} + {r[k]}
  {
    SplitTiled(bs, k, mid, end, gap);
    SplitLive(bs, k, mid, end, gap);
    SplitNoTwoFree(bs, k, mid);
  }

  lemma Exchange(s: set<Block>, a: Block, b: Block)
    requires a !in s
    ensures s + {a} - {a} + {b} == s + {b}
  {
  }

  lemma PutBack(s: set<Block>, a: Block)
    requires a in s
    ensures s - {a} + {a} == s
  {
  }

  lemma Replaced(s: set<Block>, a: Block, b: Block)
    requires a != b
    ensures s + {b} - {a} == s - {a} + {b} && b in s - {a} + {b}
  {
  }

  // ---------- sums ----------

  /** What block b adds to the sum over blocks with this used flag, each less cut words. */
  function Share(b: Block, used: bool, cut: nat): int {
    if b.used == used then b.next - b.start - cut else 0
  }

  function SumOf(bs: seq<Block>, used: bool, cut: nat): int {
    if bs == [] then 0 else Share(bs[0], used, cut) + SumOf(bs[1..], used, cut)
  }

  lemma {:induction false} SumOfConcat(a: seq<Block>, b: seq<Block>, used: bool, cut: nat)
    ensures SumOf(a + b, used, cut) == SumOf(a, used, cut) + SumOf(b, used, cut)
  {
    if a == [] {
      assert a + b == b;
    } else {
      assert (a + b)[1..] == a[1..] + b;
      SumOfConcat(a[1..], b, used, cut);
    }
  }

  /** Replacing the middle of a list changes the sum by the middle's difference. */
  lemma SumOfMiddle(l: seq<Block>, m: seq<Block>, m': seq<Block>, r: seq<Block>, used: bool, cut: nat)
    ensures SumOf(l + m' + r, used, cut) - SumOf(l + m + r, used, cut) == SumOf(m', used, cut) - SumOf(m, used, cut)
  {
    SumOfConcat(l + m, r, used, cut);
    SumOfConcat(l, m, used, cut);
    SumOfConcat(l + m', r, used, cut);
    SumOfConcat(l, m', used, cut);
  }

  lemma SumOfPair(a: Block, b: Block, used: bool, cut: nat)
    ensures SumOf([a], used, cut) == Share(a, used, cut)
    ensures SumOf([a, b], used, cut) == Share(a, used, cut) + Share(b, used, cut)
  {
    assert [a, b] == [a] + [b];
    SumOfConcat([a], [b], used, cut);
  }

  lemma MarkSum(bs: seq<Block>, k: nat, mark: bool, used: bool, cut: nat)
    requires k < |bs|
    ensures SumOf(Mark(bs, k, mark), used, cut) ==
              SumOf(bs, used, cut) - Share(bs[k], used, cut) + Share(bs[k].(used := mark), used, cut)
  {
    var b := bs[k].(used := mark);
    assert bs == bs[..k] + [bs[k]] + bs[k + 1..];
    assert Mark(bs, k, mark) == bs[..k] + [b] + bs[k + 1..];
    SumOfMiddle(bs[..k], [bs[k]], [b], bs[k + 1..], used, cut);
  }

  lemma SplitSum(bs: seq<Block>, k: nat, mid: nat, used: bool, cut: nat)
    requires k < |bs|
    ensures SumOf(Split(bs, k, mid), used, cut) ==
              SumOf(bs, used, cut) - Share(bs[k], used, cut)
              + Share(bs[k].(next := mid), used, cut) + Share(Block(mid, bs[k].next, false), used, cut)
  {
    var m := [bs[k].(next := mid), Block(mid, bs[k].next, false)];
    assert bs == bs[..k] + [bs[k]] + bs[k + 1..];
    assert Split(bs, k, mid) == bs[..k] + m + bs[k + 1..];
    SumOfPair(m[0], m[1], used, cut);
    SumOfMiddle(bs[..k], [bs[k]], m, bs[k + 1..], used, cut);
  }

  lemma JoinSum(bs: seq<Block>, k: nat, used: bool, cut: nat)
    requires k + 1 < |bs|
    ensures SumOf(Join(bs, k), used, cut) ==
              SumOf(bs, used, cut) - Share(bs[k], used, cut) - Share(bs[k + 1], used, cut)
              + Share(bs[k].(next := bs[k + 1].next), used, cut)
  {
    var m := [bs[k], bs[k + 1]];
    assert bs == bs[..k] + m + bs[k + 2..];
    assert Join(bs, k) == bs[..k] + [bs[k].(next := bs[k + 1].next)] + bs[k + 2..];
    SumOfPair(m[0], m[1], used, cut);
    SumOfMiddle(bs[..k], m, [bs[k].(next := bs[k + 1].next)], bs[k + 2..], used, cut);
  }

  // ---------- the list is determined by what is in use ----------

  lemma HeadBelowTail(bs: seq<Block>, a: nat, end: nat, gap: nat)
    requires bs != [] && TiledFrom(bs, a, end, gap)
    ensures forall b <- bs[1..] :: bs[0].next <= b.start
    ensures bs[0].next <= end && (bs[1..] != [] ==> bs[1].start == bs[0].next < end)
  {
    TiledIsSpread(bs, a, end, gap);
    TiledIsSpread(bs[1..], bs[0].next, end, gap);
    forall b | b in bs[1..]
      ensures bs[0].next <= b.start
    {
      var i :| 0 <= i < |bs| - 1 && bs[1..][i] == b;
      assert bs[i + 1] == b;
    }
    if |bs| > 1 {
      assert bs[1..][|bs| - 2] == bs[|bs| - 1];
    }
  }

  /** A free first block cannot end earlier than the other list's: what follows it is in use. */
  lemma FreeHeadsAgree(bs: seq<Block>, cs: seq<Block>, a: nat, end: nat, gap: nat)
    requires bs != [] && cs != [] && TiledFrom(bs, a, end, gap) && TiledFrom(cs, a, end, gap)
    requires NoTwoFree(bs) && Live(bs) <= Live(cs) && !bs[0].used && !cs[0].used
    ensures cs[0].next <= bs[0].next
  {
    LiveView(bs);
    LiveView(cs);
    HeadBelowTail(bs, a, end, gap);
    HeadBelowTail(cs, a, end, gap);
    if bs[1..] != [] {
      assert bs[0].used || bs[1].used;
      assert bs[1] in Live(bs);
      assert bs[1] in cs && bs[1] != cs[0] && bs[1] in cs[1..];
    }
  }

  lemma UsedHeadsAgree(bs: seq<Block>, cs: seq<Block>, a: nat, end: nat, gap: nat)
    requires bs != [] && cs != [] && TiledFrom(bs, a, end, gap) && TiledFrom(cs, a, end, gap)
    requires Live(bs) <= Live(cs) && bs[0].used
    ensures cs[0] == bs[0]
  {
    LiveView(bs);
    LiveView(cs);
    HeadBelowTail(cs, a, end, gap);
    assert bs[0] in Live(bs);
    assert cs == [cs[0]] + cs[1..];
  }

  lemma {:induction false} LiveDeterminesBlocks(bs: seq<Block>, cs: seq<Block>, a: nat, end: nat, gap: nat)
    requires TiledFrom(bs, a, end, gap) && TiledFrom(cs, a, end, gap) && NoTwoFree(bs) && NoTwoFree(cs)
    requires Live(bs) == Live(cs)
    ensures bs == cs
  {
    if bs == [] || cs == [] {
      if bs != [] {
        HeadBelowTail(bs, a, end, gap);
      }
      if cs != [] {
        HeadBelowTail(cs, a, end, gap);
      }
    } else {
      if bs[0].used {
        UsedHeadsAgree(bs, cs, a, end, gap);
      } else if cs[0].used {
        UsedHeadsAgree(cs, bs, a, end, gap);
      } else {
        FreeHeadsAgree(bs, cs, a, end, gap);
        FreeHeadsAgree(cs, bs, a, end, gap);
      }
      assert bs[0] == cs[0];
      HeadBelowTail(bs, a, end, gap);
      HeadBelowTail(cs, a, end, gap);
      LiveView(bs[1..]);
      LiveView(cs[1..]);
      assert bs[0] !in Live(bs[1..]) && cs[0] !in Live(cs[1..]);
      LiveDeterminesBlocks(bs[1..], cs[1..], bs[0].next, end, gap);
      assert bs == [bs[0]] + bs[1..] && cs == [cs[0]] + cs[1..];
    }
  }
}
