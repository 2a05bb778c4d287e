/** The page allocator under the slab allocator: a list of runs of free pages, kept in canonical form. Pages are
    numbered by address. */
module Pages {
  import opened Options

  /** count free pages from page start on. */
  datatype Run = Run(start: nat, count: nat)

  // ---------- canonical lists ----------

  /** Runs are not empty, in address order, and never adjacent; all lie above page a. */
  ghost predicate CanonicalFrom(q: seq<Run>, a: nat) {
    q != [] ==> a <= q[0].start && q[0].count > 0 && CanonicalFrom(q[1..], q[0].start + q[0].count + 1)
  }

  ghost predicate Canonical(q: seq<Run>) {
    CanonicalFrom(q, 0)
  }

  predicate InRun(p: nat, n: nat, x: nat) {
    p <= x < p + n
  }

  /** The free pages. */
  ghost predicate IsFree(q: seq<Run>, x: nat) {
    q != [] && (q[0].start <= x < q[0].start + q[0].count || IsFree(q[1..], x))
  }

  lemma {:induction false} AboveFrom(q: seq<Run>, a: nat, b: nat)
    requires CanonicalFrom(q, a) && b <= a
    ensures CanonicalFrom(q, b)
  {
  }

  lemma {:induction false} FreeIsAbove(q: seq<Run>, a: nat, x: nat)
    requires CanonicalFrom(q, a) && IsFree(q, x)
    ensures a <= x && q[0].start <= x
  {
    if !(q[0].start <= x < q[0].start + q[0].count) {
      FreeIsAbove(q[1..], q[0].start + q[0].count + 1, x);
    }
  }

  /** The page after a run is not free. */
  lemma AfterRun(q: seq<Run>, a: nat)
    requires CanonicalFrom(q, a) && q != []
    ensures !IsFree(q, q[0].start + q[0].count)
    ensures forall x :: IsFree(q[1..], x) ==> q[0].start + q[0].count < x
  {
    forall x | IsFree(q[1..], x)
      ensures q[0].start + q[0].count < x
    {
      FreeIsAbove(q[1..], q[0].start + q[0].count + 1, x);
    }
  }

  /** The first run starts at the least free page and ends before the first page that is not free: two canonical
      lists of the same pages begin with the same run. */
  lemma HeadsAgree(q: seq<Run>, r: seq<Run>, a: nat)
    requires CanonicalFrom(q, a) && CanonicalFrom(r, a) && q != [] && r != []
    requires forall x :: IsFree(q, x) <==> IsFree(r, x)
    ensures q[0] == r[0]
  {
    assert IsFree(q, q[0].start) && IsFree(r, r[0].start);
    FreeIsAbove(r, a, q[0].start);
    FreeIsAbove(q, a, r[0].start);
    RunEndsTogether(q, r, a);
    RunEndsTogether(r, q, a);
  }

  lemma RunEndsTogether(q: seq<Run>, r: seq<Run>, a: nat)
    requires CanonicalFrom(q, a) && CanonicalFrom(r, a) && q != [] && r != [] && q[0].start == r[0].start
    requires forall x :: IsFree(q, x) <==> IsFree(r, x)
    ensures r[0].count <= q[0].count
  {
    AfterRun(q, a);
    var x := q[0].start + q[0].count;
    assert !IsFree(r, x);
  }

  /** The list is determined by the set of free pages. */
  lemma {:induction false} PagesDetermineList(q: seq<Run>, r: seq<Run>, a: nat)
    requires CanonicalFrom(q, a) && CanonicalFrom(r, a)
    requires forall x :: IsFree(q, x) <==> IsFree(r, x)
    ensures q == r
  {
    if q == [] || r == [] {
      if q != [] {
        assert IsFree(q, q[0].start);
      }
      if r != [] {
        assert IsFree(r, r[0].start);
      }
    } else {
      HeadsAgree(q, r, a);
      AfterRun(q, a);
      AfterRun(r, a);
      forall x
        ensures IsFree(q[1..], x) <==> IsFree(r[1..], x)
      {
        assert IsFree(q, x) <==> IsFree(r, x);
      }
      PagesDetermineList(q[1..], r[1..], q[0].start + q[0].count + 1);
      assert q == [q[0]] + q[1..] && r == [r[0]] + r[1..];
    }
  }

  // ---------- allocation ----------

  /** The loop of rt_page_alloc: the first run with enough pages, from its start. */
  function Take(q: seq<Run>, n: nat): (r: (seq<Run>, Option<nat>))
  {
    if q == [] then (q, None)
    else if q[0].count > n then ([Run(q[0].start + n, q[0].count - n)] + q[1..], Some(q[0].start))
    else if q[0].count == n then (q[1..], Some(q[0].start))
    else
      var (t, p) := Take(q[1..], n);
      ([q[0]] + t, p)
  }

  /** rt_page_alloc. */
  function Alloc(q: seq<Run>, n: nat): (seq<Run>, Option<nat>) {
    if n == 0 then (q, None) else Take(q, n)
  }

  /** A successful allocation takes exactly the given pages, all of them free before, from the lowest run that is
      long enough; it fails only if no run is. */
  lemma {:induction false} TakeKeeps(q: seq<Run>, n: nat, a: nat)
    requires CanonicalFrom(q, a) && n > 0
    ensures var (r, p) := Take(q, n);
            && CanonicalFrom(r, a)
            && (p.None? <==> forall i | 0 <= i < |q| :: q[i].count < n)
            && (p.None? ==> r == q)
            && (p.Some? ==>
                  && (forall x :: InRun(p.value, n, x) ==> IsFree(q, x))
                  && (forall x :: IsFree(r, x) <==> IsFree(q, x) && !InRun(p.value, n, x))
                  && (forall i | 0 <= i < |q| && q[i].start < p.value :: q[i].count < n)
                  && exists i | 0 <= i < |q| :: q[i].start == p.value && n <= q[i].count)
  {
    if q != [] {
      var b, t := q[0], q[1..];
      AfterRun(q, a);
      SortedFrom(q, a);
      if b.count > n {
        var r := [Run(b.start + n, b.count - n)] + t;
        assert r[1..] == t;
        forall x
          ensures IsFree(r, x) <==> IsFree(q, x) && !InRun(b.start, n, x)
        {
        }
      } else if b.count == n {
        AboveFrom(t, b.start + b.count + 1, a);
      } else {
        TakeKeeps(t, n, b.start + b.count + 1);
        var (t', p) := Take(t, n);
        var r := [b] + t';
        assert r[1..] == t' && q == [b] + t;
        if p.Some? {
          TakeTail(q, t', n, p.value);
        }
      }
    }
  }

  lemma TakeTail(q: seq<Run>, t': seq<Run>, n: nat, p: nat)
    requires q != [] && q[0].count < n && forall x :: IsFree(q[1..], x) ==> q[0].start + q[0].count < x
    requires (forall x :: InRun(p, n, x) ==> IsFree(q[1..], x)) && n > 0
    requires forall x :: IsFree(t', x) <==> IsFree(q[1..], x) && !InRun(p, n, x)
    requires forall i | 0 <= i < |q[1..]| && q[1..][i].start < p :: q[1..][i].count < n
    requires exists i | 0 <= i < |q[1..]| :: q[1..][i].start == p && n <= q[1..][i].count
    ensures forall x :: InRun(p, n, x) ==> IsFree(q, x)
    ensures forall x :: IsFree([q[0]] + t', x) <==> IsFree(q, x) && !InRun(p, n, x)
    ensures forall i | 0 <= i < |q| && q[i].start < p :: q[i].count < n
    ensures exists i | 0 <= i < |q| :: q[i].start == p && n <= q[i].count
  {
    var r := [q[0]] + t';
    assert r[1..] == t';
    assert InRun(p, n, p) && IsFree(q[1..], p);
    forall x
      ensures IsFree(r, x) <==> IsFree(q, x) && !InRun(p, n, x)
    {
      assert InRun(p, n, x) ==> IsFree(q[1..], x);
    }
    forall i | 0 <= i < |q| && q[i].start < p
      ensures q[i].count < n
    {
      assert i > 0 ==> q[i] == q[1..][i - 1];
    }
    var i :| 0 <= i < |q[1..]| && q[1..][i].start == p && n <= q[1..][i].count;
    assert q[i + 1].start == p;
  }

  lemma {:induction false} SortedFrom(q: seq<Run>, a: nat)
    requires CanonicalFrom(q, a)
    ensures forall i | 0 < i < |q| :: q[0].start + q[0].count < q[i].start
    ensures forall i | 0 <= i < |q| :: a <= q[i].start && 0 < q[i].count
  {
    if q != [] {
      SortedFrom(q[1..], q[0].start + q[0].count + 1);
      assert forall i | 0 < i < |q| :: q[i] == q[1..][i - 1];
    }
  }

  // ---------- release ----------

  /** rt_page_free: pages p to p + n - 1 join the run before them, the run after them, or both, or form a new one. */
  function Free(q: seq<Run>, p: nat, n: nat): seq<Run> {
    if q == [] then [Run(p, n)]
    else if q[0].start + q[0].count == p then
      if |q| > 1 && p + n == q[1].start then [Run(q[0].start, q[0].count + n + q[1].count)] + q[2..]
      else [Run(q[0].start, q[0].count + n)] + q[1..]
    else if q[0].start == p + n then [Run(p, n + q[0].count)] + q[1..]
    else if q[0].start > p + n then [Run(p, n)] + q
    else [q[0]] + Free(q[1..], p, n)
  }

  /** Releasing pages that are not free keeps the list canonical and adds exactly these pages. */
  lemma {:induction false} FreeKeeps(q: seq<Run>, p: nat, n: nat, a: nat)
    requires CanonicalFrom(q, a) && a <= p && n > 0
    requires forall x :: InRun(p, n, x) ==> !IsFree(q, x)
    ensures CanonicalFrom(Free(q, p, n), a)
    ensures forall x :: IsFree(Free(q, p, n), x) <==> IsFree(q, x) || InRun(p, n, x)
  {
    var r := Free(q, p, n);
    if q == [] {
      assert r[1..] == [];
    } else {
      var b, t := q[0], q[1..];
      assert IsFree(q, b.start);
      AfterRun(q, a);
      if b.start + b.count == p {
        JoinBefore(q, p, n, a);
      } else if b.start == p + n {
        assert r[1..] == t;
      } else if b.start > p + n {
        assert r[1..] == q;
      } else {
        assert InRun(p, n, p) && (InRun(p, n, b.start) ==> !IsFree(q, b.start)) && !IsFree(q, p);
        FreeKeeps(t, p, n, b.start + b.count + 1);
        assert r[1..] == Free(t, p, n);
      }
    }
  }

  lemma JoinBefore(q: seq<Run>, p: nat, n: nat, a: nat)
    requires CanonicalFrom(q, a) && q != [] && q[0].start + q[0].count == p && n > 0
    requires forall x :: InRun(p, n, x) ==> !IsFree(q, x)
    ensures CanonicalFrom(Free(q, p, n), a)
    ensures forall x :: IsFree(Free(q, p, n), x) <==> IsFree(q, x) || InRun(p, n, x)
  {
    var r, t := Free(q, p, n), q[1..];
    if t != [] {
      assert IsFree(t, t[0].start) && IsFree(q, t[0].start) && !InRun(p, n, t[0].start);
      AfterRun(q, a);
      AfterRun(t, q[0].start + q[0].count + 1);
      assert q[2..] == t[1..] && t[0] == q[1];
      if p + n == q[1].start {
        assert r[1..] == t[1..];
        forall x
          ensures IsFree(r, x) <==> IsFree(q, x) || InRun(p, n, x)
        {
          assert IsFree(q, x) <==> InRun(q[0].start, q[0].count, x) || IsFree(t, x);
        }
      } else {
        assert r[1..] == t;
      }
    } else {
      assert r[1..] == [];
    }
  }

  // ---------- what follows ----------

  /** Giving back what was just taken restores the very list. */
  lemma FreeUndoesAlloc(q: seq<Run>, n: nat)
    requires Canonical(q) && Alloc(q, n).1.Some?
    ensures Free(Alloc(q, n).0, Alloc(q, n).1.value, n) == q
  {
    var (r, p) := Alloc(q, n);
    TakeKeeps(q, n, 0);
    FreeKeeps(r, p.value, n, 0);
    assert forall x :: IsFree(Free(r, p.value, n), x) <==> IsFree(q, x);
    PagesDetermineList(Free(r, p.value, n), q, 0);
  }

  /** The order of releases does not matter. */
  lemma FreesCommute(q: seq<Run>, p: nat, n: nat, p': nat, n': nat)
    requires Canonical(q) && n > 0 && n' > 0
    requires forall x :: InRun(p, n, x) ==> !IsFree(q, x) && !InRun(p', n', x)
    requires forall x :: InRun(p', n', x) ==> !IsFree(q, x)
    ensures Free(Free(q, p, n), p', n') == Free(Free(q, p', n'), p, n)
  {
    FreeKeeps(q, p, n, 0);
    FreeKeeps(q, p', n', 0);
    FreeKeeps(Free(q, p, n), p', n', 0);
    FreeKeeps(Free(q, p', n'), p, n, 0);
    PagesDetermineList(Free(Free(q, p, n), p', n'), Free(Free(q, p', n'), p, n), 0);
  }

  // ---------- pages that were handed out ----------

  /** held maps the first page of every allocation to its length: allocations overlap neither each other nor free pages. */
  ghost predicate HeldOk(q: seq<Run>, held: map<nat, nat>) {
    && Canonical(q)
    && (forall p <- held :: held[p] > 0)
    && (forall p, x | p in held && InRun(p, held[p], x) :: !IsFree(q, x))
    && (forall p, r, x | p in held && r in held && p != r && InRun(p, held[p], x) :: !InRun(r, held[r], x))
  }

  /** The pages from a on, n of them, are all free or handed out, and there are no others. */
  ghost predicate Covers(q: seq<Run>, held: map<nat, nat>, a: nat, n: nat) {
    forall x :: InRun(a, n, x) <==> IsFree(q, x) || exists p <- held :: InRun(p, held[p], x)
  }

  lemma AllocHeld(q: seq<Run>, held: map<nat, nat>, n: nat)
    requires HeldOk(q, held) && Alloc(q, n).1.Some?
    ensures var (r, p) := Alloc(q, n); p.value !in held && HeldOk(r, held[p.value := n])
  {
    TakeKeeps(q, n, 0);
    var p := Alloc(q, n).1.value;
    assert InRun(p, n, p);
    if p in held {
      assert InRun(p, held[p], p);
    }
    forall r, x | r in held && InRun(r, held[r], x)
      ensures !InRun(p, n, x)
    {
      assert InRun(p, n, x) ==> IsFree(q, x);
    }
  }

  lemma FreeHeld(q: seq<Run>, held: map<nat, nat>, p: nat)
    requires HeldOk(q, held) && p in held
    ensures HeldOk(Free(q, p, held[p]), held - {p})
  {
    FreeKeeps(q, p, held[p], 0);
    forall r, x | r in held - {p} && InRun(r, held[r], x)
      ensures !IsFree(Free(q, p, held[p]), x)
    {
      assert !InRun(p, held[p], x);
    }
  }

  datatype Op = DoAlloc(n: nat) | DoFree(p: nat)

  /** The list and what is handed out. */
  datatype Heap = Heap(q: seq<Run>, held: map<nat, nat>)

  predicate Enabled(h: Heap, op: Op) {
    op.DoFree? ==> op.p in h.held
  }

  function Step(h: Heap, op: Op): Heap
    requires Enabled(h, op)
  {
    match op
    case DoAlloc(n) =>
      var (r, p) := Alloc(h.q, n);
      Heap(r, if p.Some? then h.held[p.value := n] else h.held)
    case DoFree(p) => Heap(Free(h.q, p, h.held[p]), h.held - {p})
  }

  lemma StepKeeps(h: Heap, op: Op, a: nat, n: nat)
    requires Enabled(h, op) && HeldOk(h.q, h.held) && Covers(h.q, h.held, a, n)
    ensures var r := Step(h, op); HeldOk(r.q, r.held) && Covers(r.q, r.held, a, n)
  {
    match op
    case DoAlloc(m) =>
      var (r, p) := Alloc(h.q, m);
      if p.Some? {
        AllocHeld(h.q, h.held, m);
        TakeKeeps(h.q, m, 0);
        AllocCovers(h.q, r, h.held, p.value, m, a, n);
      } else if m > 0 {
        TakeKeeps(h.q, m, 0);
      }
    case DoFree(p) =>
      FreeHeld(h.q, h.held, p);
      FreeKeeps(h.q, p, h.held[p], 0);
      FreeCovers(h.q, h.held, p, a, n);
  }

  lemma AllocCovers(q: seq<Run>, r: seq<Run>, held: map<nat, nat>, p: nat, m: nat, a: nat, n: nat)
    requires Covers(q, held, a, n) && p !in held
    requires forall x :: InRun(p, m, x) ==> IsFree(q, x)
    requires forall x :: IsFree(r, x) <==> IsFree(q, x) && !InRun(p, m, x)
    ensures Covers(r, held[p := m], a, n)
  {
    var held' := held[p := m];
    forall x
      ensures InRun(a, n, x) <==> IsFree(r, x) || exists s <- held' :: InRun(s, held'[s], x)
    {
      if InRun(p, m, x) {
        assert p in held' && InRun(p, held'[p], x);
      } else if exists s <- held :: InRun(s, held[s], x) {
        var s :| s in held && InRun(s, held[s], x);
        assert s in held' && InRun(s, held'[s], x);
      }
    }
  }

  lemma FreeCovers(q: seq<Run>, held: map<nat, nat>, p: nat, a: nat, n: nat)
    requires Covers(q, held, a, n) && p in held
    requires forall x :: IsFree(Free(q, p, held[p]), x) <==> IsFree(q, x) || InRun(p, held[p], x)
    ensures Covers(Free(q, p, held[p]), held - {p}, a, n)
  {
    var r, held' := Free(q, p, held[p]), held - {p};
    forall x
      ensures InRun(a, n, x) <==> IsFree(r, x) || exists s <- held' :: InRun(s, held'[s], x)
    {
      if (exists s <- held :: InRun(s, held[s], x)) && !InRun(p, held[p], x) {
        var s :| s in held && InRun(s, held[s], x);
        assert s in held' && InRun(s, held'[s], x);
      }
    }
  }

  ghost predicate Runs(h: Heap, ops: seq<Op>)
    decreases |ops|
  {
    ops != [] ==> Enabled(h, ops[0]) && Runs(Step(h, ops[0]), ops[1..])
  }

  function RunAll(h: Heap, ops: seq<Op>): Heap
    requires Runs(h, ops)
    decreases |ops|
  {
    if ops == [] then h else RunAll(Step(h, ops[0]), ops[1..])
  }

  /** Over every run from rt_page_init on, the list is canonical, no page is handed out twice, none is lost; and when
      everything has been given back, in whatever order, the list is the initial one. */
  lemma {:induction false} EveryPageIsAccountedFor(h: Heap, ops: seq<Op>, a: nat, n: nat)
    requires n > 0 && HeldOk(h.q, h.held) && Covers(h.q, h.held, a, n) && Runs(h, ops)
    ensures var r := RunAll(h, ops);
            && HeldOk(r.q, r.held) && Covers(r.q, r.held, a, n)
            && (r.held == map[] ==> r.q == [Run(a, n)])
    decreases |ops|
  {
    if ops == [] {
      if h.held == map[] {
        assert [Run(a, n)][1..] == [];
        PagesDetermineList(h.q, [Run(a, n)], 0);
      }
    } else {
      StepKeeps(h, ops[0], a, n);
      EveryPageIsAccountedFor(Step(h, ops[0]), ops[1..], a, n);
    }
  }

  // ---------- the list in memory ----------

  /** From pointer a, the headers of q are linked one after the other, and the last leads to b. */
  ghost predicate Segment(next: map<nat, Option<nat>>, page: map<nat, nat>, a: Option<nat>, q: seq<Run>, b: Option<nat>)
    decreases |q|
  {
    if q == [] then a == b
    else
      && a == Some(q[0].start) && q[0].start in next && q[0].start in page && page[q[0].start] == q[0].count
      && Segment(next, page, next[q[0].start], q[1..], b)
  }

  lemma {:induction false} SegmentJoin(next: map<nat, Option<nat>>, page: map<nat, nat>, a: Option<nat>, q: seq<Run>,
                                       b: Option<nat>, r: seq<Run>, c: Option<nat>)
    requires Segment(next, page, a, q, b) && Segment(next, page, b, r, c)
    ensures Segment(next, page, a, q + r, c)
    decreases |q|
  {
    if q == [] {
      assert q + r == r;
    } else {
      assert (q + r)[1..] == q[1..] + r;
      SegmentJoin(next, page, next[q[0].start], q[1..], b, r, c);
    }
  }

  /** Headers outside the segment do not matter. */
  lemma {:induction false} SegmentFrame(next: map<nat, Option<nat>>, page: map<nat, nat>, next': map<nat, Option<nat>>, page': map<nat, nat>,
                                        a: Option<nat>, q: seq<Run>, b: Option<nat>)
    requires Segment(next, page, a, q, b)
    requires forall r <- q :: r.start in next ==> r.start in next' && next'[r.start] == next[r.start]
    requires forall r <- q :: r.start in page ==> r.start in page' && page'[r.start] == page[r.start]
    ensures Segment(next', page', a, q, b)
    decreases |q|
  {
    if q != [] {
      SegmentFrame(next, page, next', page', next[q[0].start], q[1..], b);
    }
  }

  /** Storing c through the last header of the segment makes it lead there. */
  lemma {:induction false} SegmentStore(next: map<nat, Option<nat>>, page: map<nat, nat>, a: Option<nat>, q: seq<Run>,
                                        b: Option<nat>, c: Option<nat>, from: nat)
    requires Segment(next, page, a, q, b) && q != [] && CanonicalFrom(q, from)
    ensures Segment(next[q[|q| - 1].start := c], page, a, q, c)
    decreases |q|
  {
    var last := q[|q| - 1].start;
    if |q| > 1 {
      SortedFrom(q, from);
      assert q[1..][|q| - 2] == q[|q| - 1];
      SegmentStore(next, page, next[q[0].start], q[1..], b, c, q[0].start + q[0].count + 1);
    }
  }

  lemma {:induction false} RestIsCanonical(q: seq<Run>, r: seq<Run>, a: nat)
    requires CanonicalFrom(q + r, a)
    ensures CanonicalFrom(q, a) && CanonicalFrom(r, a)
  {
    if q == [] {
      assert q + r == r;
    } else {
      assert (q + r)[1..] == q[1..] + r && (q + r)[0] == q[0];
      RestIsCanonical(q[1..], r, q[0].start + q[0].count + 1);
      AboveFrom(r, q[0].start + q[0].count + 1, a);
    }
  }

  /** Every run of a later part lies behind every run of an earlier one. */
  lemma {:induction false} PartsApart(q: seq<Run>, r: seq<Run>, a: nat, i: nat, j: nat)
    requires CanonicalFrom(q + r, a) && i < |q| && j < |r|
    ensures q[i].start + q[i].count < r[j].start
  {
    if i == 0 {
      SortedFrom(q + r, a);
      assert (q + r)[|q| + j] == r[j];
    } else {
      assert (q + r)[1..] == q[1..] + r && (q + r)[0] == q[0];
      PartsApart(q[1..], r, q[0].start + q[0].count + 1, i - 1, j);
    }
  }

  lemma CanonicalParts(q: seq<Run>, r: seq<Run>, a: nat)
    requires CanonicalFrom(q + r, a)
    ensures CanonicalFrom(q, a) && CanonicalFrom(r, a)
    ensures forall i, j | 0 <= i < |q| && 0 <= j < |r| :: q[i].start + q[i].count < r[j].start
  {
    RestIsCanonical(q, r, a);
    forall i, j | 0 <= i < |q| && 0 <= j < |r|
      ensures q[i].start + q[i].count < r[j].start
    {
      PartsApart(q, r, a, i, j);
    }
  }

  /** One step of a loop over the list. */
  lemma ScanStep(next: map<nat, Option<nat>>, page: map<nat, nat>, a: Option<nat>, pre: seq<Run>, b: Option<nat>, suf: seq<Run>)
    requires b.Some? && Segment(next, page, a, pre, b) && Segment(next, page, b, suf, None)
    ensures suf != [] && b.value == suf[0].start && b.value in next && b.value in page && page[b.value] == suf[0].count
    ensures Segment(next, page, next[b.value], suf[1..], None)
    ensures Segment(next, page, a, pre + [suf[0]], next[b.value])
    ensures pre + suf == (pre + [suf[0]]) + suf[1..]
  {
    assert suf == [suf[0]] + suf[1..];
    SegmentJoin(next, page, a, pre, b, [suf[0]], next[b.value]);
  }

  lemma RestStarts(pre: seq<Run>, suf: seq<Run>, n: nat)
    requires Canonical(pre + suf) && suf != [] && suf[0].start <= n <= suf[0].start + suf[0].count
    ensures forall r <- pre + suf[1..] :: r.start != n
  {
    CanonicalParts(pre, suf, 0);
    SortedFrom(suf, 0);
    assert suf[0] in suf;
    assert forall i | 0 <= i < |suf| - 1 :: suf[1..][i] == suf[i + 1];
  }

  lemma {:induction false} FreeOfParts(q: seq<Run>, r: seq<Run>, x: nat)
    ensures IsFree(q + r, x) <==> IsFree(q, x) || IsFree(r, x)
  {
    if q == [] {
      assert q + r == r;
    } else {
      assert (q + r)[1..] == q[1..] + r;
      FreeOfParts(q[1..], r, x);
    }
  }

  lemma TakeSkips(pre: seq<Run>, suf: seq<Run>, n: nat)
    requires suf != [] && suf[0].count < n
    ensures pre + Take(suf, n).0 == (pre + [suf[0]]) + Take(suf[1..], n).0 && Take(suf, n).1 == Take(suf[1..], n).1
  {
  }

  lemma TakeStaysCanonical(pre: seq<Run>, suf: seq<Run>, n: nat)
    requires Canonical(pre + suf) && n > 0
    ensures Canonical(pre + Take(suf, n).0)
  {
    JoinCanonical(pre, suf, 0, n);
  }

  lemma {:induction false} JoinCanonical(pre: seq<Run>, suf: seq<Run>, a: nat, n: nat)
    requires CanonicalFrom(pre + suf, a) && n > 0
    ensures CanonicalFrom(pre + Take(suf, n).0, a)
  {
    if pre == [] {
      assert pre + suf == suf && pre + Take(suf, n).0 == Take(suf, n).0;
      TakeKeeps(suf, n, a);
    } else {
      assert (pre + suf)[1..] == pre[1..] + suf;
      JoinCanonical(pre[1..], suf, pre[0].start + pre[0].count + 1, n);
      assert (pre + Take(suf, n).0)[1..] == pre[1..] + Take(suf, n).0;
    }
  }

  lemma FreeSkips(pre: seq<Run>, suf: seq<Run>, p: nat, n: nat)
    requires Canonical(pre + suf) && suf != [] && n > 0 && suf[0].start < p + n && suf[0].start + suf[0].count != p
    requires forall x :: InRun(p, n, x) ==> !IsFree(pre + suf, x)
    ensures suf[0].start < p
    ensures pre + Free(suf, p, n) == (pre + [suf[0]]) + Free(suf[1..], p, n)
  {
    CanonicalParts(pre, suf, 0);
    FreeOfParts(pre, suf, suf[0].start);
    assert IsFree(suf, suf[0].start);
  }

  lemma StartsAbove(suf: seq<Run>, p: nat, n: nat)
    requires Canonical(suf) && (suf != [] ==> p + n <= suf[0].start) && n > 0
    ensures forall r <- suf :: p < r.start
    ensures suf != [] && p + n < suf[0].start ==> Free(suf, p, n) == [Run(p, n)] + suf
    ensures suf == [] ==> Free(suf, p, n) == [Run(p, n)] + suf
  {
    SortedFrom(suf, 0);
  }

  class PageAllocator {
    var head: Option<nat>                  // rt_page_list
    var next: map<nat, Option<nat>>        // the page heads, kept in the free pages themselves
    var page: map<nat, nat>
    ghost var runs: seq<Run>

    ghost predicate Valid()
      reads this
    {
      Canonical(runs) && Segment(next, page, head, runs, None)
    }

    /** rt_page_init. */
    constructor (addr: nat, npages: nat)
      requires npages != 0
      ensures Valid() && runs == [Run(addr, npages)]
    {
      head, next, page := Some(addr), map[addr := None], map[addr := npages];
      runs := [Run(addr, npages)];
      new;
      assert runs[1..] == [];
    }

    /** The loops have passed pre and stand before suf: prev points to where pointer b is stored. */
    ghost predicate Scanned(pre: seq<Run>, suf: seq<Run>, prev: Option<nat>, b: Option<nat>)
      reads this
    {
      && Canonical(pre + suf)
      && Segment(next, page, head, pre, b) && Segment(next, page, b, suf, None)
      && prev == if pre == [] then None else Some(pre[|pre| - 1].start)
    }

    /** Stores value through prev: the list goes on with suf. */
    method Store(prev: Option<nat>, value: Option<nat>, ghost pre: seq<Run>, ghost suf: seq<Run>, ghost b: Option<nat>)
      requires Canonical(pre + suf)
      requires Segment(next, page, head, pre, b) && Segment(next, page, value, suf, None)
      requires prev == if pre == [] then None else Some(pre[|pre| - 1].start)
      modifies this
      ensures Valid() && runs == pre + suf
    {
      CanonicalParts(pre, suf, 0);
      if prev.None? {
        head := value;
      } else {
        SegmentStore(next, page, head, pre, b, value, 0);
        SegmentFrame(next, page, next[prev.value := value], page, value, suf, None);
        next := next[prev.value := value];
      }
      SegmentJoin(next, page, head, pre, value, suf, None);
      runs := pre + suf;
    }

    /** Writes a page head at n, which is none of the headers of the two segments. */
    method WriteHead(n: nat, nx: Option<nat>, count: nat, ghost pre: seq<Run>, ghost b: Option<nat>, ghost suf: seq<Run>)
      requires Segment(next, page, head, pre, b) && Segment(next, page, nx, suf, None)
      requires forall r <- pre + suf :: r.start != n
      modifies this`next, this`page
      ensures Segment(next, page, head, pre, b) && Segment(next, page, Some(n), [Run(n, count)] + suf, None)
    {
      assert forall r <- pre :: r in pre + suf;
      assert forall r <- suf :: r in pre + suf;
      SegmentFrame(next, page, next[n := nx], page[n := count], head, pre, b);
      SegmentFrame(next, page, next[n := nx], page[n := count], nx, suf, None);
      next, page := next[n := nx], page[n := count];
      assert ([Run(n, count)] + suf)[1..] == suf;
    }

    /** rt_page_alloc. */
    method AllocPages(npages: nat) returns (b: Option<nat>)
      requires Valid()
      modifies this
      ensures Valid() && (runs, b) == Alloc(old(runs), npages)
    {
      if npages == 0 {
        return None;
      }
      ghost var pre, suf := [], runs;
      var prev := None;
      b := head;
      assert [] + Take(runs, npages).0 == Take(runs, npages).0 && [] + runs == runs;
      while b.Some?
        invariant runs == old(runs) == pre + suf && Scanned(pre, suf, prev, b)
        invariant Take(runs, npages) == (pre + Take(suf, npages).0, Take(suf, npages).1)
        decreases |suf|
      {
        ScanStep(next, page, head, pre, b, suf);
        if page[b.value] >= npages {
          TakeRun(prev, b.value, npages, pre, suf);
          return;
        }
        TakeSkips(pre, suf, npages);
        prev, b := b, next[b.value];
        pre, suf := pre + [suf[0]], suf[1..];
      }
      assert pre + [] == pre;
    }

    /** Takes npages from the front of the run at b, or the whole run. */
    method TakeRun(prev: Option<nat>, b: nat, npages: nat, ghost pre: seq<Run>, ghost suf: seq<Run>)
      requires runs == pre + suf && Scanned(pre, suf, prev, Some(b)) && suf != [] && npages != 0
      requires b in page && b in next && page[b] >= npages
      modifies this
      ensures Valid() && runs == pre + Take(suf, npages).0
    {
      ghost var rest := suf[1..];
      ScanStep(next, page, head, pre, Some(b), suf);
      TakeStaysCanonical(pre, suf, npages);
      if page[b] > npages {
        var n := b + npages;
        var count := page[b] - npages;
        RestStarts(pre, suf, n);
        WriteHead(n, next[b], count, pre, Some(b), rest);
        Store(prev, Some(n), pre, [Run(n, count)] + rest, Some(b));
      } else {
        Store(prev, next[b], pre, rest, Some(b));
      }
    }

    /** rt_page_free of pages that are not free. */
    method FreePages(addr: nat, npages: nat)
      requires Valid() && npages != 0 && forall x :: InRun(addr, npages, x) ==> !IsFree(runs, x)
      modifies this
      ensures Valid() && runs == Free(old(runs), addr, npages)
    {
      FreeKeeps(runs, addr, npages, 0);
      ghost var pre, suf := [], runs;
      var prev, b := None, head;
      while b.Some?
        invariant runs == old(runs) == pre + suf && Scanned(pre, suf, prev, b)
        invariant Free(runs, addr, npages) == pre + Free(suf, addr, npages)
        invariant forall r <- pre :: r.start < addr
        decreases |suf|
      {
        ScanStep(next, page, head, pre, b, suf);
        if b.value + page[b.value] == addr {
          ExtendRun(b.value, npages, pre, suf);
          return;
        }
        if b.value == addr + npages {
          PrependRun(prev, b.value, addr, npages, pre, suf);
          return;
        }
        if b.value > addr + npages {
          break;
        }
        FreeSkips(pre, suf, addr, npages);
        prev, b := b, next[b.value];
        pre, suf := pre + [suf[0]], suf[1..];
      }
      NewRun(prev, b, addr, npages, pre, suf);
    }

    /** The run at b grows by the pages behind it, and takes over the next run if it now reaches it. */
    method ExtendRun(b: nat, npages: nat, ghost pre: seq<Run>, ghost suf: seq<Run>)
      requires runs == pre + suf && suf != [] && npages != 0
      requires Canonical(runs) && Segment(next, page, head, pre, Some(b)) && Segment(next, page, Some(b), suf, None)
      requires Canonical(pre + Free(suf, suf[0].start + suf[0].count, npages))
      modifies this
      ensures Valid() && runs == pre + Free(suf, suf[0].start + suf[0].count, npages)
    {
      hide Canonical, CanonicalFrom;
      ghost var rest := suf[1..];
      ScanStep(next, page, head, pre, Some(b), suf);
      RestStarts(pre, suf, b);
      var count, nx := page[b] + npages, next[b];
      ghost var after := rest;
      if nx == Some(b + count) {
        ScanStep(next, page, head, pre + [suf[0]], nx, rest);
        count, nx := count + page[nx.value], next[nx.value];
        after := rest[1..];
        assert suf[2..] == after && suf[1] == rest[0];
      }
      assert forall r <- after :: r in rest;
      WriteHead(b, nx, count, pre, Some(b), after);
      SegmentJoin(next, page, head, pre, Some(b), [Run(b, count)] + after, None);
      runs := pre + ([Run(b, count)] + after);
    }

    /** The pages at addr take over the run at b behind them. */
    method PrependRun(prev: Option<nat>, b: nat, addr: nat, npages: nat, ghost pre: seq<Run>, ghost suf: seq<Run>)
      requires runs == pre + suf && Scanned(pre, suf, prev, Some(b)) && suf != [] && npages != 0 && b == addr + npages
      requires (forall r <- pre :: r.start < addr) && Canonical(pre + Free(suf, addr, npages))
      modifies this
      ensures Valid() && runs == pre + Free(suf, addr, npages)
    {
      hide Segment;
      ghost var rest := suf[1..];
      ScanStep(next, page, head, pre, Some(b), suf);
      CanonicalParts(pre, suf, 0);
      StartsAbove(suf, addr, npages);
      assert forall r <- rest :: r in suf;
      var count := page[b] + npages;
      WriteHead(addr, next[b], count, pre, Some(b), rest);
      Store(prev, Some(addr), pre, [Run(addr, count)] + rest, Some(b));
    }

    /** The pages at addr form a run of their own before b. */
    method NewRun(prev: Option<nat>, b: Option<nat>, addr: nat, npages: nat, ghost pre: seq<Run>, ghost suf: seq<Run>)
      requires runs == pre + suf && Scanned(pre, suf, prev, b) && npages != 0
      requires suf != [] ==> addr + npages < suf[0].start
      requires (forall r <- pre :: r.start < addr) && Canonical(pre + Free(suf, addr, npages))
      modifies this
      ensures Valid() && runs == pre + Free(suf, addr, npages)
    {
      CanonicalParts(pre, suf, 0);
      StartsAbove(suf, addr, npages);
      WriteHead(addr, b, npages, pre, b, suf);
      Store(prev, Some(addr), pre, [Run(addr, npages)] + suf, b);
    }
  }
}
