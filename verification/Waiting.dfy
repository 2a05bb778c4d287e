/** The order of wait lists: sorted by priority, and nobody overtaken, through every step of the kernel. */
module Waiting {
  import opened Seqs
  import opened Scheduler
  import opened Steps
  import opened Threads

  ghost predicate NoErrors(q: seq<Tid>, threads: map<Tid, Thread>) {
    forall t <- q :: t in threads && threads[t].error == EOK
  }

  // ---------- sorted wait lists ----------

  ghost predicate SortedByPriority(q: seq<Tid>, threads: map<Tid, Thread>) {
    && (forall t <- q :: t in threads)
    && forall i, j | 0 <= i < j < |q| :: threads[q[i]].currentPriority <= threads[q[j]].currentPriority
  }

  lemma {:induction false} SortedWithout(q: seq<Tid>, threads: map<Tid, Thread>, t: Tid)
    requires SortedByPriority(q, threads)
    ensures SortedByPriority(Without(q, t), threads)
  {
    if q != [] {
      SortedWithout(q[1..], threads, t);
      var rest := Without(q[1..], t);
      if q[0] != t {
        assert forall j | 0 <= j < |rest| :: rest[j] in q[1..];
      }
    }
  }

  lemma SamePrioritiesStaySorted(q: seq<Tid>, threads: map<Tid, Thread>, threads': map<Tid, Thread>)
    requires SortedByPriority(q, threads)
    requires forall t <- q :: t in threads' && threads'[t].currentPriority == threads[t].currentPriority
    ensures SortedByPriority(q, threads')
  {
  }

  /** Inserting behind every waiter of no worse priority keeps a list sorted, and keeps waiters of
      equal priority in arrival order. */
  lemma SortedInsert(q: seq<Tid>, threads: map<Tid, Thread>, t: Tid)
    requires SortedByPriority(q, threads) && t in threads
    ensures SortedByPriority(InsertAt(q, PriorityPos(q, threads, threads[t].currentPriority), t), threads)
  {
    var i := PriorityPos(q, threads, threads[t].currentPriority);
    NoBetterBehind(q, threads, threads[t].currentPriority);
    assert q == q[..i] + q[i..];
    SortedSplice(q[..i], t, q[i..], threads);
  }

  /** The waiters in front of the insertion place are exactly those of no worse priority. */
  lemma NoBetterBehind(q: seq<Tid>, threads: map<Tid, Thread>, p: nat)
    requires SortedByPriority(q, threads)
    ensures forall k | 0 <= k < |q| :: threads[q[k]].currentPriority <= p <==> k < PriorityPos(q, threads, p)
  {
    var i := PriorityPos(q, threads, p);
    forall k | i < k < |q|
      ensures p < threads[q[k]].currentPriority
    {
      assert threads[q[i]].currentPriority <= threads[q[k]].currentPriority;
    }
  }

  lemma SortedSplice(a: seq<Tid>, t: Tid, b: seq<Tid>, threads: map<Tid, Thread>)
    requires SortedByPriority(a + b, threads) && t in threads
    requires forall x <- a :: x in threads && threads[x].currentPriority <= threads[t].currentPriority
    requires forall x <- b :: x in threads && threads[t].currentPriority <= threads[x].currentPriority
    ensures SortedByPriority(a + [t] + b, threads)
  {
    var q, r := a + b, a + [t] + b;
    forall j, k | 0 <= j < k < |r|
      ensures threads[r[j]].currentPriority <= threads[r[k]].currentPriority
    {
      var j', k' := if j < |a| then j else j - 1, if k < |a| then k else k - 1;
      if j != |a| && k != |a| {
        assert r[j] == q[j'] && r[k] == q[k'];
      }
    }
  }

  // ---------- nobody is overtaken ----------

  /** x is in front of t on the list. */
  ghost predicate Ahead(q: seq<Tid>, x: Tid, t: Tid) {
    exists i, j :: 0 <= i < j < |q| && q[i] == x && q[j] == t
  }

  lemma {:induction false} LeavingKeepsAhead(q: seq<Tid>, x: Tid, t: Tid, y: Tid)
    requires Ahead(Without(q, y), x, t)
    ensures Ahead(q, x, t)
  {
    if q[0] == y {
      LeavingKeepsAhead(q[1..], x, t, y);
      var i, j :| 0 <= i < j < |q[1..]| && q[1..][i] == x && q[1..][j] == t;
      assert q[i + 1] == x && q[j + 1] == t;
    } else {
      var r := Without(q[1..], y);
      var i, j :| 0 <= i < j < |[q[0]] + r| && ([q[0]] + r)[i] == x && ([q[0]] + r)[j] == t;
      if i == 0 {
        assert r[j - 1] == t && t in q[1..];
        var k :| 0 <= k < |q[1..]| && q[1..][k] == t;
        assert q[0] == x && q[k + 1] == t;
      } else {
        assert r[i - 1] == x && r[j - 1] == t;
        LeavingKeepsAhead(q[1..], x, t, y);
        var i', j' :| 0 <= i' < j' < |q[1..]| && q[1..][i'] == x && q[1..][j'] == t;
        assert q[i' + 1] == x && q[j' + 1] == t;
      }
    }
  }

  lemma JoiningKeepsAhead(q: seq<Tid>, p: nat, c: Tid, x: Tid, t: Tid)
    requires p <= |q| && Ahead(InsertAt(q, p, c), x, t) && t != c
    ensures Ahead(q, x, t) || (x == c && exists j :: p <= j < |q| && q[j] == t)
  {
    var r := InsertAt(q, p, c);
    var i, j :| 0 <= i < j < |r| && r[i] == x && r[j] == t;
    assert j != p;
    var j' := if j < p then j else j - 1;
    assert q[j'] == t;
    if i != p {
      var i' := if i < p then i else i - 1;
      assert q[i'] == x && i' < j';
    }
  }

  /** A thread in front of waiter t after a step was in front of it before, unless it is a newcomer,
      the list is a priority list and the newcomer's priority is strictly better. */
  ghost predicate NoOvertaking(s: Sched, r: Sched, w: nat, flag: Flag) {
    forall x, t | t in Waiters(s, w) && Ahead(Waiters(r, w), x, t) ::
      Ahead(Waiters(s, w), x, t)
      || (flag == PRIO && x !in Waiters(s, w) && x in s.threads && t in s.threads
          && s.threads[x].currentPriority < s.threads[t].currentPriority)
  }

  lemma KernelStepOvertakesNobody(s: Sched, a: Step, w: nat, flag: Flag)
    requires Inv(s) && Enabled(s, a) && (a.DoBlock? ==> a.w != w)
    ensures NoOvertaking(s, Apply(s, a), w, flag)
  {
    StepWaiters(s, a, w);
    forall x, t | t in Waiters(s, w) && Ahead(Waiters(Apply(s, a), w), x, t)
      ensures Ahead(Waiters(s, w), x, t)
    {
      if Leaver(s, a).Some? {
        LeavingKeepsAhead(Waiters(s, w), x, t, Leaver(s, a).value);
      }
    }
  }

  /** Behind the place the caller gets there are only waiters of strictly worse priority. */
  predicate FindsPlace(s: Sched, w: nat, flag: Flag)
    requires Shaped(s) && s.current.Some? && forall t <- Waiters(s, w) :: t in s.threads
  {
    forall k | WaitPos(s, w, flag) <= k < |Waiters(s, w)| ::
      s.threads[s.current.value].currentPriority < s.threads[Waiters(s, w)[k]].currentPriority
  }

  lemma SortedFindsPlace(s: Sched, w: nat, flag: Flag)
    requires Shaped(s) && s.current.Some? && forall t <- Waiters(s, w) :: t in s.threads
    requires flag == PRIO ==> SortedByPriority(Waiters(s, w), s.threads)
    ensures FindsPlace(s, w, flag)
  {
    if flag == PRIO {
      NoBetterBehind(Waiters(s, w), s.threads, s.threads[s.current.value].currentPriority);
    }
  }

  /** A newcomer overtakes only waiters of strictly worse priority if and only if only such waiters are behind its
      place, as on a sorted list or one in arrival order. */
  lemma BlockOvertakesIff(s: Sched, w: nat, flag: Flag, timed: bool)
    requires Inv(s) && s.current.Some? && WaitList(w) in s.lists && s.threads[s.current.value].stat == READY
    ensures (forall t <- Waiters(s, w) :: t in s.threads)
    ensures NoOvertaking(s, Block(s, w, flag, timed), w, flag) <==> FindsPlace(s, w, flag)
  {
    BlockEffect(s, w, flag, timed);
    if FindsPlace(s, w, flag) {
      BlockOvertakesNobody(s, w, flag, timed);
    } else {
      var k :| WaitPos(s, w, flag) <= k < |Waiters(s, w)|
               && s.threads[s.current.value].currentPriority >= s.threads[Waiters(s, w)[k]].currentPriority;
      BehindTheNewcomer(Waiters(s, w), WaitPos(s, w, flag), s.current.value, k);
      assert Ahead(Waiters(Block(s, w, flag, timed), w), s.current.value, Waiters(s, w)[k]);
    }
  }

  lemma BehindTheNewcomer(q: seq<Tid>, p: nat, c: Tid, k: nat)
    requires p <= k < |q| && c !in q
    ensures Ahead(InsertAt(q, p, c), c, q[k]) && !Ahead(q, c, q[k]) && q[k] in q
  {
    assert InsertAt(q, p, c)[p] == c && InsertAt(q, p, c)[k + 1] == q[k];
  }

  lemma BlockOvertakesNobody(s: Sched, w: nat, flag: Flag, timed: bool)
    requires Inv(s) && s.current.Some? && WaitList(w) in s.lists && s.threads[s.current.value].stat == READY
    requires (forall t <- Waiters(s, w) :: t in s.threads) && FindsPlace(s, w, flag)
    ensures NoOvertaking(s, Block(s, w, flag, timed), w, flag)
  {
    BlockEffect(s, w, flag, timed);
    var c, q, p := s.current.value, Waiters(s, w), WaitPos(s, w, flag);
    forall x, t | t in q && Ahead(InsertAt(q, p, c), x, t)
      ensures Ahead(q, x, t) || (flag == PRIO && x == c && s.threads[c].currentPriority < s.threads[t].currentPriority)
    {
      JoiningKeepsAhead(q, p, c, x, t);
    }
  }

  // ---------- changing the priority of a waiter ----------

  /** p lies between the priorities of the waiters in front of t and behind it. */
  ghost predicate FitsItsPlace(q: seq<Tid>, threads: map<Tid, Thread>, t: Tid, p: nat)
    requires forall x <- q :: x in threads
  {
    && (forall i, j | 0 <= i < j < |q| && q[j] == t && q[i] != t :: threads[q[i]].currentPriority <= p)
    && (forall i, j | 0 <= i < j < |q| && q[i] == t && q[j] != t :: p <= threads[q[j]].currentPriority)
  }

  /** The list is not sorted anew when the priority of a waiter changes: it stays sorted if and only if the new
      priority fits the place the waiter has. */
  lemma ChangeKeepsSortedIff(q: seq<Tid>, threads: map<Tid, Thread>, threads': map<Tid, Thread>, t: Tid, p: nat)
    requires SortedByPriority(q, threads) && NoDup(q) && (forall x <- q :: x in threads') && t in threads
    requires forall x <- q :: threads'[x].currentPriority == if x == t then p else threads[x].currentPriority
    ensures SortedByPriority(q, threads') <==> FitsItsPlace(q, threads, t, p)
  {
    if SortedByPriority(q, threads') {
      forall i, j | 0 <= i < j < |q| && q[j] == t && q[i] != t
        ensures threads[q[i]].currentPriority <= p
      {
        assert threads'[q[i]].currentPriority <= threads'[q[j]].currentPriority;
      }
      forall i, j | 0 <= i < j < |q| && q[i] == t && q[j] != t
        ensures p <= threads[q[j]].currentPriority
      {
        assert threads'[q[i]].currentPriority <= threads'[q[j]].currentPriority;
      }
    }
    if FitsItsPlace(q, threads, t, p) {
      forall i, j | 0 <= i < j < |q|
        ensures threads'[q[i]].currentPriority <= threads'[q[j]].currentPriority
      {
        assert q[i] in q && q[j] in q;
      }
    }
  }

  // ---------- waking ----------

  /** Waking every waiter of one list leaves the other lists alone. */
  lemma {:induction false} WakeAllOtherLists(s: Sched, w: nat, v: nat)
    requires Inv(s) && v != w
    ensures Waiters(WakeAll(s, w), v) == Waiters(s, v)
    decreases |Waiters(s, w)|
  {
    if Waiters(s, w) != [] {
      var t := Waiters(s, w)[0];
      assert t in Waiters(s, w) && PlacedRight(s, t);
      ReleaseFirstEffect(s, w, ERROR);
      ReleaseKeeps(s, t, ERROR);
      ReleaseWaiters(s, t, ERROR, v);
      WakeAllOtherLists(Release(s, t, ERROR), w, v);
    }
  }
}
