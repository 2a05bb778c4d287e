/** The timer lists as the kernel keeps them: 32-bit ticks, RT_TIMER_SKIP_LIST_LEVEL rows, and a
    search that drops from row to row. Every method is proved to do to the rows, flags and ticks
    what the corresponding operation of Timers does to the plain sorted queue. */
module TimerWheel {
  import opened Ticks
  import opened Seqs
  import opened Timers

  /** The fields of struct rt_timer. */
  datatype TimerObject = TimerObject(initTick: Tick, timeoutTick: Tick, periodic: bool, activated: bool)

  predicate Represents(o: TimerObject, t: Timer) {
    o == TimerObject(o.initTick, Wrap(t.deadline), t.periodic, t.activated) && o.initTick == t.initTick
  }

  ghost predicate TimersMatch(objects: map<Id, TimerObject>, timers: map<Id, Timer>) {
    objects.Keys == timers.Keys && forall t <- objects :: Represents(objects[t], timers[t])
  }

  // ---------- rows ----------

  /** The subsequence of q of the elements in s. */
  function Restrict(q: seq<Id>, s: set<Id>): (r: seq<Id>)
    ensures forall x :: x in r <==> x in q && x in s
  {
    if q == [] then []
    else if q[0] in s then [q[0]] + Restrict(q[1..], s)
    else Restrict(q[1..], s)
  }

  function Elems(q: seq<Id>): set<Id> {
    set x | x in q
  }

  /** The last row is the whole queue, and each row is the subsequence of it on a set of timers
      that grows from row to row. */
  ghost predicate RowsOk(rows: seq<seq<Id>>, q: seq<Id>) {
    && 0 < |rows| && rows[|rows| - 1] == q
    && (forall i | 0 <= i < |rows| :: rows[i] == Restrict(q, Elems(rows[i])))
    && forall i, j | 0 <= i < j < |rows| :: Elems(rows[i]) <= Elems(rows[j])
  }

  lemma {:induction false} RestrictConcat(a: seq<Id>, b: seq<Id>, s: set<Id>)
    ensures Restrict(a + b, s) == Restrict(a, s) + Restrict(b, s)
  {
    if a == [] {
      assert a + b == b;
    } else {
      RestrictConcat(a[1..], b, s);
      assert (a + b)[1..] == a[1..] + b;
      assert Restrict(a + b, s) == if a[0] in s then [a[0]] + Restrict(a[1..] + b, s) else Restrict(a[1..] + b, s);
    }
  }

  lemma {:induction false} RestrictTwice(q: seq<Id>, s: set<Id>, s': set<Id>)
    requires s <= s'
    ensures Restrict(Restrict(q, s'), s) == Restrict(q, s)
  {
    if q != [] {
      RestrictTwice(q[1..], s, s');
      var rest := Restrict(q[1..], s');
      if q[0] in s' {
        assert ([q[0]] + rest)[1..] == rest;
      }
    }
  }

  lemma {:induction false} RestrictAgrees(q: seq<Id>, s: set<Id>, s': set<Id>)
    requires forall x <- q :: x in s <==> x in s'
    ensures Restrict(q, s) == Restrict(q, s')
  {
    if q != [] {
      RestrictAgrees(q[1..], s, s');
    }
  }

  lemma {:induction false} RestrictKeepsOrder(q: seq<Id>, s: set<Id>, timers: map<Id, Timer>)
    requires Ordered(q, timers)
    ensures Ordered(Restrict(q, s), timers)
  {
    if q != [] {
      RestrictKeepsOrder(q[1..], s, timers);
      var r, rest := Restrict(q, s), Restrict(q[1..], s);
      if q[0] in s {
        assert r == [q[0]] + rest;
        forall j | 0 < j < |r|
          ensures Earlier(timers[r[0]].deadline, timers[r[0]].linkNo, timers[r[j]].deadline, timers[r[j]].linkNo)
        {
          assert r[j] == rest[j - 1] && r[j] in q[1..];
        }
      }
    }
  }

  lemma {:induction false} RestrictWithout(q: seq<Id>, s: set<Id>, t: Id)
    ensures Restrict(Without(q, t), s) == Without(Restrict(q, s), t)
  {
    if q != [] {
      RestrictWithout(q[1..], s, t);
      var rest := Restrict(q[1..], s);
      if q[0] in s {
        assert ([q[0]] + rest)[1..] == rest;
      }
    }
  }

  /** Every row is sorted as the queue is. */
  lemma RowsAreSorted(rows: seq<seq<Id>>, q: seq<Id>, timers: map<Id, Timer>)
    requires RowsOk(rows, q) && Ordered(q, timers)
    ensures forall i | 0 <= i < |rows| :: Ordered(rows[i], timers)
  {
    forall i | 0 <= i < |rows|
      ensures Ordered(rows[i], timers)
    {
      RestrictKeepsOrder(q, Elems(rows[i]), timers);
    }
  }

  /** Every row is a subsequence of each row below it. */
  lemma RowsAreNested(rows: seq<seq<Id>>, q: seq<Id>, i: nat, j: nat)
    requires RowsOk(rows, q) && i < j < |rows|
    ensures rows[i] == Restrict(rows[j], Elems(rows[i]))
  {
    RestrictTwice(q, Elems(rows[i]), Elems(rows[j]));
  }

  /** The insertion point in a row is that of the queue, counted among the row's timers. */
  lemma InsertPosInRow(q: seq<Id>, s: set<Id>, timers: map<Id, Timer>, d: int)
    requires Ordered(q, timers)
    ensures var p := InsertPos(q, timers, d);
            InsertPos(Restrict(q, s), timers, d) == |Restrict(q[..p], s)|
            && Restrict(q, s) == Restrict(q[..p], s) + Restrict(q[p..], s)
  {
    var p := InsertPos(q, timers, d);
    assert q == q[..p] + q[p..];
    RestrictConcat(q[..p], q[p..], s);
    assert forall x <- q[..p] :: timers[x].deadline <= d;
    assert forall x <- q[p..] :: timers[x].deadline > d by {
      LaterBehindInsertPos(q, timers, d);
    }
    InsertPosBetween(Restrict(q[..p], s), Restrict(q[p..], s), timers, d);
  }

  lemma InsertPosBetween(front: seq<Id>, back: seq<Id>, timers: map<Id, Timer>, d: int)
    requires forall x <- front :: x in timers && timers[x].deadline <= d
    requires forall x <- back :: x in timers && timers[x].deadline > d
    ensures InsertPos(front + back, timers, d) == |front|
  {
    forall i | 0 <= i < |front + back|
      ensures timers[(front + back)[i]].deadline <= d <==> i < |front|
    {
      if i < |front| {
        assert (front + back)[i] in front;
      } else {
        assert (front + back)[i] in back;
      }
    }
    var atFront := if back == [] then d + 1 else timers[(front + back)[|front|]].deadline;
    assert atFront > d;
  }

  lemma RestrictOne(t: Id, s: set<Id>)
    ensures Restrict([t], s) == if t in s then [t] else []
  {
    assert [t][1..] == [];
  }

  lemma RestrictAround(a: seq<Id>, t: Id, b: seq<Id>, s: set<Id>)
    requires t !in a && t !in b
    ensures Restrict(a + [t] + b, s + {t}) == Restrict(a, s) + [t] + Restrict(b, s)
  {
    var s' := s + {t};
    calc {
      Restrict(a + [t] + b, s');
      { RestrictConcat(a + [t], b, s'); }
      Restrict(a + [t], s') + Restrict(b, s');
      { RestrictConcat(a, [t], s'); RestrictOne(t, s'); }
      Restrict(a, s') + [t] + Restrict(b, s');
      { RestrictAgrees(a, s', s); RestrictAgrees(b, s', s); }
      Restrict(a, s) + [t] + Restrict(b, s);
    }
  }

  /** Inserting t in a row gives the row of the queue with t inserted. */
  lemma InsertInRow(q: seq<Id>, s: set<Id>, timers: map<Id, Timer>, t: Id)
    requires Ordered(q, timers) && t in timers && t !in q
    ensures var d := timers[t].deadline;
            var q' := InsertAt(q, InsertPos(q, timers, d), t);
            var r := Restrict(q, s);
            Restrict(q', s + {t}) == InsertAt(r, InsertPos(r, timers, d), t)
  {
    var p := InsertPos(q, timers, timers[t].deadline);
    InsertPosInRow(q, s, timers, timers[t].deadline);
    RestrictAround(q[..p], t, q[p..], s);
    var front, back := Restrict(q[..p], s), Restrict(q[p..], s);
    assert (front + back)[..|front|] == front && (front + back)[|front|..] == back;
  }

  lemma SkipRow(q: seq<Id>, s: set<Id>, p: nat, t: Id)
    requires p <= |q| && t !in s
    ensures Restrict(InsertAt(q, p, t), s) == Restrict(q, s)
  {
    RestrictConcat(q[..p] + [t], q[p..], s);
    RestrictConcat(q[..p], [t], s);
    assert Restrict([t], s) == [];
    assert q == q[..p] + q[p..] && Restrict(q[..p], s) + [] == Restrict(q[..p], s);
    RestrictConcat(q[..p], q[p..], s);
  }

  /** Linking t into the lowest rows only, each at its insertion point, is a correct linking. */
  lemma InsertKeepsRows(rows: seq<seq<Id>>, rows': seq<seq<Id>>, q: seq<Id>, timers: map<Id, Timer>, t: Id, first: nat)
    requires RowsOk(rows, q) && Ordered(q, timers) && t in timers && t !in q
    requires |rows'| == |rows| && first < |rows|
    requires forall i | 0 <= i < first :: rows'[i] == rows[i]
    requires forall i | 0 <= i < |rows| :: Ordered(rows[i], timers)
    requires forall i | first <= i < |rows| :: rows'[i] == InsertAt(rows[i], InsertPos(rows[i], timers, timers[t].deadline), t)
    ensures RowsOk(rows', InsertAt(q, InsertPos(q, timers, timers[t].deadline), t))
  {
    var q' := InsertAt(q, InsertPos(q, timers, timers[t].deadline), t);
    forall i | 0 <= i < |rows'|
      ensures rows'[i] == Restrict(q', Elems(rows'[i]))
    {
      if i < first {
        SkipRow(q, Elems(rows[i]), InsertPos(q, timers, timers[t].deadline), t);
      } else {
        InsertInRow(q, Elems(rows[i]), timers, t);
        assert Elems(rows'[i]) == Elems(rows[i]) + {t};
      }
    }
  }

  lemma RemoveKeepsRows(rows: seq<seq<Id>>, rows': seq<seq<Id>>, q: seq<Id>, t: Id)
    requires RowsOk(rows, q) && |rows'| == |rows|
    requires forall i | 0 <= i < |rows| :: rows'[i] == Without(rows[i], t)
    ensures RowsOk(rows', Without(q, t))
  {
    forall i | 0 <= i < |rows'|
      ensures rows'[i] == Restrict(Without(q, t), Elems(rows'[i]))
    {
      RestrictWithout(q, Elems(rows[i]), t);
      RestrictAgrees(Without(q, t), Elems(rows[i]), Elems(rows'[i]));
    }
  }

  // ---------- the timer service ----------

  /** The list is sorted, and close enough to t for the half-range test to order t among it. */
  ghost predicate Linkable(s: Sys, t: Id) {
    && Ordered(s.queue, s.timers) && t in s.timers
    && forall x <- s.queue :: HALF_TICKS - TICK_MODULUS <= s.timers[x].deadline - s.timers[t].deadline < HALF_TICKS
  }

  /** What the search needs of the rows: sorted, growing downward, and within the window of the test. */
  ghost predicate RowsLinkable(rows: seq<seq<Id>>, timers: map<Id, Timer>, d: int) {
    && (forall i | 0 <= i < |rows| :: Ordered(rows[i], timers))
    && (forall i, j, x | 0 <= i < j < |rows| && x in rows[i] :: x in rows[j])
    && forall i, x | 0 <= i < |rows| && x in rows[i] :: HALF_TICKS - TICK_MODULUS <= timers[x].deadline - d < HALF_TICKS
  }

  lemma QueueLinkableRowsLinkable(rows: seq<seq<Id>>, s: Sys, t: Id)
    requires RowsOk(rows, s.queue) && Linkable(s, t)
    ensures RowsLinkable(rows, s.timers, s.timers[t].deadline)
  {
    RowsAreSorted(rows, s.queue, s.timers);
    forall i, j, x | 0 <= i < j < |rows| && x in rows[i]
      ensures x in rows[j]
    {
      assert x in Elems(rows[i]) && Elems(rows[i]) <= Elems(rows[j]);
    }
  }

  class Wheel {
    const mask: int                       // RT_TIMER_SKIP_LIST_MASK
    const late: nat                       // the bound on late links, and what intervals leave room for
    var rows: seq<seq<Id>>                // rt_timer_list, one list per level
    var timers: map<Id, TimerObject>
    var tick: Tick
    var randomNr: int                     // the static counter of rt_timer_start
    ghost var sys: Sys

    ghost predicate Valid()
      reads this
    {
      && (mask == 1 || mask == 3)
      && 0 <= randomNr < TICK_MODULUS
      && RowsOk(rows, sys.queue)
      && tick == Wrap(sys.now)
      && TimersMatch(timers, sys.timers) && late == sys.late
    }

    /** Shapes the service after rt_system_timer_init: every list empty, no timer linked. */
    constructor (levels: nat, mask: int, late: nat, objects: map<Id, (Tick, bool)>)
      requires 0 < levels && (mask == 1 || mask == 3)
      requires forall t <- objects :: 1 <= objects[t].0 < HALF_TICKS - late
      ensures Valid() && |rows| == levels && timers.Keys == objects.Keys && this.late == late
      ensures Inv(sys, false) && sys.queue == [] && sys.fired == [] && FlagsAgree(sys)
    {
      this.mask, this.late := mask, late;
      rows := seq(levels, i => []);
      timers := map t | t in objects :: TimerObject(objects[t].0, 0, objects[t].1, false);
      tick := 0;
      randomNr := 0;
      sys := Sys(0, map t | t in objects :: Timer(objects[t].0, 0, 0, 0, objects[t].1, false), [], 0, [], late);
    }

    /** _rt_timer_remove. */
    method RemoveFromRows(t: Id)
      requires 0 < |rows|
      modifies this`rows
      ensures |rows| == |old(rows)|
      ensures forall i | 0 <= i < |rows| :: rows[i] == Without(old(rows)[i], t)
    {
      var i := 0;
      while i < |rows|
        invariant 0 <= i <= |rows| == |old(rows)|
        invariant forall j | 0 <= j < i :: rows[j] == Without(old(rows)[j], t)
        invariant forall j | i <= j < |rows| :: rows[j] == old(rows)[j]
      {
        rows := rows[i := Without(rows[i], t)];
        i := i + 1;
      }
    }

    method Unlink(t: Id)
      requires Valid()
      modifies this`rows, this`sys
      ensures Valid() && |rows| == |old(rows)|
      ensures sys == old(sys).(queue := Without(old(sys).queue, t))
    {
      RemoveFromRows(t);
      RemoveKeepsRows(old(rows), rows, sys.queue, t);
      sys := sys.(queue := Without(sys.queue, t));
    }

    /** First half of rt_timer_start: unlink, clear the flag, compute the timeout. */
    method BeginTimer(t: Id)
      requires Valid() && t in timers && timers[t].initTick < HALF_TICKS
      modifies this
      ensures Valid() && |rows| == |old(rows)|
      ensures sys == BeginStart(old(sys), t)
    {
      hide RowsOk;
      Unlink(t);
      SetTimeout(t);
    }

    method SetTimeout(t: Id)
      requires t in timers && TimersMatch(timers, sys.timers) && tick == Wrap(sys.now)
      modifies this`timers, this`sys
      ensures TimersMatch(timers, sys.timers)
      ensures sys == old(sys).(timers := BeginStart(old(sys), t).timers)
    {
      var o := timers[t].(activated := false);
      timers := timers[t := o];
      WrapPlus(sys.now, o.initTick);
      timers := timers[t := o.(timeoutTick := Wrap(tick + o.initTick))];
      sys := sys.(timers := BeginStart(sys, t).timers);
    }

    /** The search of one row, from the place the row above left off. */
    method SearchRow(row: seq<Id>, start: nat, timeout: Tick, ghost d: int) returns (pos: nat)
      requires TimersMatch(timers, sys.timers) && timeout == Wrap(d)
      requires Ordered(row, sys.timers) && start <= InsertPos(row, sys.timers, d)
      requires forall x <- row :: HALF_TICKS - TICK_MODULUS <= sys.timers[x].deadline - d < HALF_TICKS
      ensures pos == InsertPos(row, sys.timers, d)
    {
      pos := start;
      while pos < |row|
        invariant pos <= InsertPos(row, sys.timers, d)
      {
        var p := timers[row[pos]];
        HalfRangeTest(sys.timers[row[pos]].deadline, d);
        if Minus(p.timeoutTick, timeout) != 0 && Minus(p.timeoutTick, timeout) < HALF_TICKS {
          break;
        }
        pos := pos + 1;
      }
    }

    /** From the place reached in one row to the same node one row down. */
    method StepDown(row: seq<Id>, below: seq<Id>, pos: nat, ghost d: int) returns (start: nat)
      requires Ordered(row, sys.timers) && Ordered(below, sys.timers) && forall x <- row :: x in below
      requires pos == InsertPos(row, sys.timers, d)
      ensures start <= InsertPos(below, sys.timers, d)
    {
      if pos == 0 {
        return 0;
      }
      start := IndexOf(below, row[pos - 1]) + 1;
      NotPastInsertPos(below, sys.timers, d, start - 1);
    }

    method SearchLevel(lvl: nat, start: nat, timeout: Tick, ghost d: int) returns (pos: nat, below: nat)
      requires TimersMatch(timers, sys.timers) && RowsLinkable(rows, sys.timers, d) && timeout == Wrap(d)
      requires lvl < |rows| && start <= InsertPos(rows[lvl], sys.timers, d)
      ensures pos == InsertPos(rows[lvl], sys.timers, d)
      ensures lvl + 1 < |rows| ==> below <= InsertPos(rows[lvl + 1], sys.timers, d)
    {
      pos := SearchRow(rows[lvl], start, timeout, d);
      below := 0;
      if lvl + 1 < |rows| {
        below := StepDown(rows[lvl], rows[lvl + 1], pos, d);
      }
    }

    /** The search of all rows: for each, how many of its timers stay in front. */
    method SearchRows(t: Id) returns (heads: seq<nat>)
      requires TimersMatch(timers, sys.timers) && t in timers
      requires RowsLinkable(rows, sys.timers, sys.timers[t].deadline)
      ensures |heads| == |rows|
      ensures forall i | 0 <= i < |rows| :: heads[i] == InsertPos(rows[i], sys.timers, sys.timers[t].deadline)
    {
      ghost var d := sys.timers[t].deadline;
      heads := [];
      var start: nat := 0;
      while |heads| < |rows|
        invariant |heads| <= |rows|
        invariant forall i | 0 <= i < |heads| :: heads[i] == InsertPos(rows[i], sys.timers, d)
        invariant |heads| < |rows| ==> start <= InsertPos(rows[|heads|], sys.timers, d)
      {
        var pos;
        pos, start := SearchLevel(|heads|, start, timers[t].timeoutTick, d);
        heads := heads + [pos];
      }
    }

    /** The search, and the links into as many rows as the insert counter gives. */
    method SearchAndLink(t: Id) returns (ghost first: nat)
      requires TimersMatch(timers, sys.timers) && t in timers && 0 < |rows|
      requires RowsLinkable(rows, sys.timers, sys.timers[t].deadline)
      requires 0 <= randomNr && (mask == 1 || mask == 3)
      modifies this`rows, this`randomNr
      ensures |rows| == |old(rows)| && first < |rows| && 0 <= randomNr < TICK_MODULUS
      ensures forall i | 0 <= i < first :: rows[i] == old(rows)[i]
      ensures forall i | first <= i < |rows| ::
                rows[i] == InsertAt(old(rows)[i], InsertPos(old(rows)[i], sys.timers, sys.timers[t].deadline), t)
    {
      var heads := SearchRows(t);
      randomNr := (randomNr + 1) % TICK_MODULUS;
      first := LinkRows(t, heads, randomNr);
    }

    method LinkAllRows(t: Id)
      requires TimersMatch(timers, sys.timers) && t in timers && t !in sys.queue && Linkable(sys, t)
      requires RowsOk(rows, sys.queue)
      requires 0 <= randomNr && (mask == 1 || mask == 3)
      modifies this`rows, this`randomNr
      ensures |rows| == |old(rows)| && 0 <= randomNr < TICK_MODULUS
      ensures RowsOk(rows, LinkStart(sys, t).queue)
    {
      QueueLinkableRowsLinkable(rows, sys, t);
      ghost var first := SearchAndLink(t);
      LinkedRows(old(rows), rows, sys, t, first);
    }

    /** Second half of rt_timer_start: the search, the links, and the flag. */
    method LinkTimer(t: Id)
      requires Valid() && t in timers && t !in sys.queue && Linkable(sys, t)
      modifies this
      ensures Valid() && |rows| == |old(rows)|
      ensures sys == LinkStart(old(sys), t)
    {
      LinkAllRows(t);
      MarkLinked(t);
    }

    method MarkLinked(t: Id)
      requires t in timers && TimersMatch(timers, sys.timers) && forall x <- sys.queue :: x in sys.timers
      modifies this`timers, this`sys
      ensures sys == LinkStart(old(sys), t) && TimersMatch(timers, sys.timers)
    {
      timers := timers[t := timers[t].(activated := true)];
      sys := LinkStart(sys, t);
    }

    /** Links t into the last row, and upward while the low bits of the counter are clear. */
    method LinkRows(t: Id, heads: seq<nat>, nr: int) returns (ghost first: nat)
      requires 0 < |rows| == |heads| && 0 <= nr && (mask == 1 || mask == 3)
      requires forall i | 0 <= i < |rows| :: heads[i] <= |rows[i]|
      modifies this`rows
      ensures |rows| == |old(rows)| && first < |rows|
      ensures forall i | 0 <= i < first :: rows[i] == old(rows)[i]
      ensures forall i | first <= i < |rows| :: rows[i] == InsertAt(old(rows)[i], heads[i], t)
    {
      var tstNr, lvl := nr, |rows| - 1;
      rows := rows[lvl := InsertAt(rows[lvl], heads[lvl], t)];
      while 0 < lvl
        invariant 0 <= lvl < |rows| == |old(rows)| && 0 <= tstNr
        invariant forall i | 0 <= i < lvl :: rows[i] == old(rows)[i]
        invariant forall i | lvl <= i < |rows| :: rows[i] == InsertAt(old(rows)[i], heads[i], t)
      {
        if tstNr % (mask + 1) != 0 {
          break;
        }
        lvl := lvl - 1;
        rows := rows[lvl := InsertAt(rows[lvl], heads[lvl], t)];
        tstNr := tstNr / (if mask == 1 then 2 else 4);
      }
      first := lvl;
    }

    /** rt_timer_start with interrupts off. */
    method StartTimer(t: Id, ghost checking: bool)
      requires Valid() && Inv(sys, checking) && t in timers
      modifies this
      ensures Valid() && Inv(sys, checking) && |rows| == |old(rows)|
      ensures sys == StartNow(old(sys), t)
    {
      assert InRange(sys.timers[t], sys.now, sys.late);
      BeginKeepsInv(sys, t, checking);
      StartKeepsInv(sys, t, checking);
      BeginTimer(t);
      LinkWindow(sys, t, checking);
      LinkTimer(t);
    }

    /** The section of rt_timer_stop. */
    method StopSection(t: Id, ghost checking: bool)
      requires Valid() && Inv(sys, checking) && t in timers
      modifies this`rows, this`sys
      ensures Valid() && Inv(sys, checking) && |rows| == |old(rows)|
      ensures sys == Unlist(old(sys), t)
    {
      UnlistKeepsInv(sys, t, checking);
      Unlink(t);
    }

    /** The write to the flag that ends it. */
    method ClearActivated(t: Id, ghost checking: bool)
      requires Valid() && Inv(sys, checking) && t in timers
      modifies this`timers, this`sys
      ensures Valid() && Inv(sys, checking) && sys == ClearFlag(old(sys), t)
    {
      ClearFlagKeepsInv(sys, t, checking);
      timers := timers[t := timers[t].(activated := false)];
      sys := ClearFlag(sys, t);
    }

    /** rt_timer_stop, when nothing interrupts it. */
    method StopIfActive(t: Id, ghost checking: bool) returns (ok: bool)
      requires Valid() && Inv(sys, checking) && t in timers
      modifies this
      ensures Valid() && Inv(sys, checking) && |rows| == |old(rows)|
      ensures ok == old(timers)[t].activated
      ensures sys == StopTimer(old(sys), t)
    {
      if !timers[t].activated {
        return false;
      }
      StopSection(t, checking);
      ClearActivated(t, checking);
      return true;
    }

    /** rt_timer_list_next_timeout: the earliest deadline, or RT_TICK_MAX when nothing is linked. */
    method NextTimeout() returns (r: Tick)
      requires Valid() && Ordered(sys.queue, sys.timers)
      ensures sys.queue == [] ==> r == TICK_MAX
      ensures sys.queue != [] ==> exists t <- sys.queue :: r == Wrap(sys.timers[t].deadline)
                                    && forall x <- sys.queue :: sys.timers[t].deadline <= sys.timers[x].deadline
    {
      var last := rows[|rows| - 1];
      if last == [] {
        return TICK_MAX;
      }
      forall x | x in sys.queue
        ensures sys.timers[last[0]].deadline <= sys.timers[x].deadline
      {
        var i :| 0 <= i < |last| && last[i] == x;
        if i > 0 {
          assert Earlier(sys.timers[last[0]].deadline, sys.timers[last[0]].linkNo, sys.timers[x].deadline, sys.timers[x].linkNo);
        }
      }
      return timers[last[0]].timeoutTick;
    }

    /** One call out of a timeout function, or out of a thread when no check is running. */
    method Perform(c: Command, ghost checking: bool)
      requires Valid() && Inv(sys, checking)
      modifies this
      ensures Valid() && Inv(sys, checking) && |rows| == |old(rows)|
      ensures sys == Apply(old(sys), c)
    {
      ApplyKeepsInv(sys, c, checking);
      if c.id in timers {
        match c {
          case Start(t) => StartTimer(t, checking);
          case Stop(t) => var _ := StopIfActive(t, checking);
          case SetTime(t, d) =>
            if 1 <= d < HALF_TICKS - late {
              timers := timers[t := timers[t].(initTick := d)];
            }
            sys := Apply(sys, c);
          case SetPeriodic(t, on) =>
            timers := timers[t := timers[t].(periodic := on)];
            sys := Apply(sys, c);
        }
      }
    }

    method PerformAll(cs: seq<Command>)
      requires Valid() && Inv(sys, true)
      modifies this
      ensures Valid() && Inv(sys, true) && |rows| == |old(rows)|
      ensures sys == ApplyAll(old(sys), cs)
    {
      var i := 0;
      while i < |cs|
        invariant 0 <= i <= |cs|
        invariant Valid() && Inv(sys, true) && |rows| == |old(rows)|
        invariant ApplyAll(old(sys), cs) == ApplyAll(sys, cs[i..])
      {
        Perform(cs[i], true);
        assert cs[i..][1..] == cs[i + 1..];
        i := i + 1;
      }
    }

    /** The body of the check loop. */
    method FireFirst(cb: Callbacks)
      requires Valid() && Inv(sys, true) && sys.queue != [] && sys.timers[sys.queue[0]].deadline <= sys.now
      modifies this
      ensures Valid() && Inv(sys, true) && |rows| == |old(rows)|
      ensures sys == FireHead(old(sys), cb)
    {
      var t := rows[|rows| - 1][0];
      LoggedKeepsInv(sys);
      FireHeadKeepsInv(sys, cb);
      Unlink(t);
      sys := Logged(old(sys));
      PerformAll(if t in cb then cb[t] else []);
      RearmTimer(t);
    }

    method RearmTimer(t: Id)
      requires Valid() && Inv(sys, true) && t in timers
      modifies this
      ensures Valid() && |rows| == |old(rows)|
      ensures sys == Rearm(old(sys), t)
    {
      var again := timers[t].periodic && timers[t].activated;
      timers := timers[t := timers[t].(activated := false)];
      sys := sys.(timers := sys.timers[t := sys.timers[t].(activated := false)]);
      OrderedFrame(sys.queue, old(sys).timers, sys.timers);
      if again {
        StartTimer(t, true);
      }
    }

    /** rt_timer_check. */
    method CheckTimers(cb: Callbacks)
      requires Valid() && Inv(sys, true)
      modifies this
      ensures Valid() && |rows| == |old(rows)|
      ensures sys == Check(old(sys), cb)
    {
      while rows[|rows| - 1] != []
        invariant Valid() && Inv(sys, true) && |rows| == |old(rows)|
        invariant Check(sys, cb) == Check(old(sys), cb)
        decreases Due(sys)
      {
        var t := rows[|rows| - 1][0];
        HeadTest(sys, t);
        if !(Minus(tick, timers[t].timeoutTick) < HALF_TICKS) {
          break;
        }
        FireHeadDue(sys, cb);
        FireFirst(cb);
      }
    }

    /** The timer part of rt_tick_increase. */
    method TickIncrease(cb: Callbacks)
      requires Valid() && Inv(sys, false)
      modifies this
      ensures Valid() && Inv(sys, false) && |rows| == |old(rows)|
      ensures sys == TickInterrupt(old(sys), cb)
    {
      WrapPlus(sys.now, 1);
      tick := Wrap(tick + 1);
      sys := sys.(now := sys.now + 1);
      CheckTimers(cb);
    }
  }

  lemma LinkedRows(rows: seq<seq<Id>>, rows': seq<seq<Id>>, s: Sys, t: Id, first: nat)
    requires RowsOk(rows, s.queue) && Ordered(s.queue, s.timers) && t in s.timers && t !in s.queue
    requires |rows'| == |rows| && first < |rows|
    requires forall i | 0 <= i < |rows| :: Ordered(rows[i], s.timers)
    requires forall i | 0 <= i < first :: rows'[i] == rows[i]
    requires forall i | first <= i < |rows| ::
               rows'[i] == InsertAt(rows[i], InsertPos(rows[i], s.timers, s.timers[t].deadline), t)
    ensures RowsOk(rows', LinkStart(s, t).queue)
  {
    InsertKeepsRows(rows, rows', s.queue, s.timers, t, first);
    var timers' := s.timers[t := s.timers[t].(linkedAt := s.now, linkNo := s.links, activated := true)];
    SameDeadlinesSamePos(s.queue, s.timers, timers', s.timers[t].deadline);
  }

  /** Everything listed is close enough to a timer being linked for the half-range test. */
  lemma LinkWindow(s: Sys, t: Id, checking: bool)
    requires Inv(s, checking) && t in s.timers && s.now <= s.timers[t].deadline + s.late
    ensures Linkable(s, t)
  {
    assert InRange(s.timers[t], s.now, s.late);
    forall x | x in s.queue
      ensures HALF_TICKS - TICK_MODULUS <= s.timers[x].deadline - s.timers[t].deadline < HALF_TICKS
    {
      assert InRange(s.timers[x], s.now, s.late);
    }
  }

  lemma NotPastInsertPos(row: seq<Id>, timers: map<Id, Timer>, d: int, i: nat)
    requires Ordered(row, timers) && i < |row| && timers[row[i]].deadline <= d
    ensures i < InsertPos(row, timers, d)
  {
    var p := InsertPos(row, timers, d);
    assert p < i ==> Earlier(timers[row[p]].deadline, timers[row[p]].linkNo, timers[row[i]].deadline, timers[row[i]].linkNo);
  }

  lemma {:induction false} SameDeadlinesSamePos(q: seq<Id>, timers: map<Id, Timer>, timers': map<Id, Timer>, d: int)
    requires forall x <- q :: x in timers && x in timers' && timers[x].deadline == timers'[x].deadline
    ensures InsertPos(q, timers, d) == InsertPos(q, timers', d)
  {
    if q != [] {
      SameDeadlinesSamePos(q[1..], timers, timers', d);
    }
  }

  /** The check's unsigned test on the head says whether it is due. */
  lemma HeadTest(s: Sys, t: Id)
    requires Checking(s) && t in s.queue
    ensures Minus(Wrap(s.now), Wrap(s.timers[t].deadline)) < HALF_TICKS <==> s.timers[t].deadline <= s.now
  {
    assert InRange(s.timers[t], s.now, s.late);
    HalfRangeTest(s.now, s.timers[t].deadline);
  }
}
