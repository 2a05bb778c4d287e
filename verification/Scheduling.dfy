/** What the scheduling points come to, as equations on the whole state: which thread runs next, and every ready queue. */
module Scheduling {
  import opened Options
  import opened Seqs
  import opened Scheduler
  import opened Threads
  import opened Steps

  /** p is the best priority with a queued thread. */
  ghost predicate Best(s: Sched, p: nat) {
    Queue(s, p) != [] && forall q: nat | q < p :: Queue(s, q) == []
  }

  ghost predicate NobodyQueued(s: Sched) {
    forall p: nat :: Queue(s, p) == []
  }

  /** What the running thread is queued behind when it gives way: nothing, if it is not ready. */
  function GivingWay(s: Sched, q: nat): seq<Tid> {
    if s.current.Some? && s.current.value in s.threads && s.threads[s.current.value].stat == READY
       && s.threads[s.current.value].currentPriority == q
    then [s.current.value] else []
  }

  /** The first thread of the best queue runs. It is off its queue, a ready thread that gave way is at the end of its
      own, and nothing else has changed. */
  ghost predicate FirstRuns(s: Sched, r: Sched, p: nat)
    requires Queue(s, p) != []
  {
    && r.current == Some(Queue(s, p)[0])
    && (forall q: nat :: Queue(r, q) == (if q == p then Queue(s, p)[1..] else Queue(s, q)) + GivingWay(s, q))
    && (forall w: nat :: Waiters(r, w) == Waiters(s, w))
    && r.threads == s.threads && r.lists.Keys == s.lists.Keys && r.priorityMax == s.priorityMax
    && r.lockNest == s.lockNest && r.limbo == s.limbo
  }

  /** The running thread is ready and strictly better than priority p. */
  predicate GoesOn(s: Sched, p: nat) {
    && s.current.Some? && s.current.value in s.threads
    && s.threads[s.current.value].stat == READY && s.threads[s.current.value].currentPriority < p
  }

  /** The outcome of rt_schedule: nothing while the scheduler is locked, nobody is queued, or the running thread is ready
      and strictly better than all queued ones; else the first thread of the best queue runs. */
  ghost predicate Scheduled(s: Sched, r: Sched) {
    && (s.lockNest != 0 || NobodyQueued(s) ==> r == s)
    && forall p: nat | s.lockNest == 0 && Best(s, p) :: if GoesOn(s, p) then r == s else FirstRuns(s, r, p)
  }

  lemma HighestIsBest(s: Sched)
    requires Inv(s)
    ensures Highest(s).Some? ==> Best(s, Highest(s).value)
    ensures Highest(s).None? ==> NobodyQueued(s)
    ensures forall p: nat | Best(s, p) :: Highest(s) == Some(p)
  {
    forall p: nat | Queue(s, p) != []
      ensures p < s.priorityMax
    {
      var t := Queue(s, p)[0];
      assert t in Queue(s, p) && ReadyList(p) in s.lists && PlacedRight(s, t);
    }
  }

  lemma SwitchIs(s: Sched, p: nat)
    requires Inv(s) && s.current.Some? && Queue(s, p) != []
    ensures FirstRuns(s, SwitchTo(s, Queue(s, p)[0]), p)
  {
    var c, next := s.current.value, Queue(s, p)[0];
    var r := SwitchTo(s, next);
    QueuedIsReady(s, p);
    assert PlacedRight(s, c) && PlacedRight(s, next);
    forall q: nat
      ensures Queue(r, q) == (if q == p then Queue(s, p)[1..] else Queue(s, q)) + GivingWay(s, q)
    {
      QueueAfterSwitch(s, p, q);
    }
    assert s.threads[c].stat == READY ==> s.threads[c := s.threads[c].(stat := READY)] == s.threads && s.limbo - {c} == s.limbo;
    forall w: nat
      ensures Waiters(r, w) == Waiters(s, w)
    {
      ReadyIsNotWaiting(s, next, w);
    }
  }

  /** rt_schedule, from every state: which thread runs, and every list. */
  lemma ScheduleIs(s: Sched)
    requires Inv(s) && s.current.Some?
    ensures Scheduled(s, Schedule(s))
  {
    hide SwitchTo, FirstRuns;
    HighestIsBest(s);
    if s.lockNest == 0 && Highest(s).Some? {
      var c, p := s.current.value, Highest(s).value;
      if s.threads[c].stat == READY && s.threads[c].currentPriority < p {
        CurrentIsOnNoQueue(s, c);
        DetachAbsent(s, c);
      } else {
        SwitchIs(s, p);
      }
    }
  }

  /** When the running thread is not ready, or a queued one is no worse, the first of the best queue takes over. */
  lemma FirstOfBestRuns(s: Sched, p: nat)
    requires Inv(s) && s.current.Some? && s.lockNest == 0 && Best(s, p)
    requires s.threads[s.current.value].stat == READY ==> p <= s.threads[s.current.value].currentPriority
    ensures Schedule(s).current == Some(Queue(s, p)[0]) && Queue(Schedule(s), p)[..|Queue(s, p)| - 1] == Queue(s, p)[1..]
  {
    ScheduleIs(s);
  }

  /** The outcome is determined: two states that both are it are equal. */
  lemma OneOutcome(s: Sched, r: Sched, r': Sched)
    requires Inv(s) && Scheduled(s, r) && Scheduled(s, r')
    ensures r == r'
  {
    HighestIsBest(s);
    if s.lockNest == 0 && !NobodyQueued(s) {
      var p := Highest(s).value;
      assert Best(s, p);
      if !GoesOn(s, p) {
        SameLists(r, r');
      }
    }
  }

  lemma SameLists(r: Sched, r': Sched)
    requires r.lists.Keys == r'.lists.Keys
    requires (forall q: nat :: Queue(r, q) == Queue(r', q)) && forall w: nat :: Waiters(r, w) == Waiters(r', w)
    ensures r.lists == r'.lists
  {
    forall h | h in r.lists
      ensures r.lists[h] == r'.lists[h]
    {
      match h
      case ReadyList(q) => assert Queue(r, q) == Queue(r', q);
      case WaitList(w) => assert Waiters(r, w) == Waiters(r', w);
    }
  }

  // ---------- the other scheduling points ----------

  /** rt_system_scheduler_start: the first of the best queue, if anybody is queued. */
  lemma StartIs(s: Sched)
    requires Inv(s) && s.current.None?
    ensures NobodyQueued(s) ==> StartScheduler(s) == s
    ensures forall p: nat | Best(s, p) :: FirstRuns(s, StartScheduler(s), p)
  {
    HighestIsBest(s);
    if Highest(s).Some? {
      StartSwitchIs(s, Highest(s).value);
    }
  }

  lemma StartSwitchIs(s: Sched, p: nat)
    requires Inv(s) && s.current.None? && Queue(s, p) != []
    ensures FirstRuns(s, Detach(s.(current := Some(Queue(s, p)[0])), Queue(s, p)[0]), p)
  {
    var next := Queue(s, p)[0];
    var r := Detach(s.(current := Some(next)), next);
    QueuedIsReady(s, p);
    assert PlacedRight(s, next);
    HeadWithout(s.lists[ReadyList(p)]);
    forall w: nat
      ensures Waiters(r, w) == Waiters(s, w)
    {
      ReadyIsNotWaiting(s, next, w);
    }
  }

  /** rt_enter_critical and rt_exit_critical: the count, which does not fall below zero, and at zero a scheduling decision. */
  lemma CriticalIs(s: Sched)
    requires Inv(s) && s.current.Some?
    ensures EnterCritical(s) == s.(lockNest := s.lockNest + 1)
    ensures s.lockNest > 1 ==> ExitCritical(s) == s.(lockNest := s.lockNest - 1)
    ensures s.lockNest <= 1 ==> Scheduled(s.(lockNest := 0), ExitCritical(s))
  {
    if s.lockNest <= 1 {
      LockKeeps(s, 0);
      ScheduleIs(s.(lockNest := 0));
    }
  }

  /** The state with the running thread's slice counted down, or reloaded with its initial one. */
  function Counted(s: Sched, left: nat): Sched
    requires s.current.Some? && s.current.value in s.threads
  {
    s.(threads := s.threads[s.current.value := s.threads[s.current.value].(remainingTick := left)])
  }

  /** A tick takes one off the slice, which is an unsigned word. The last one reloads it and asks for the scheduler, which
      gives the processor to the first thread of the same priority, if there is one. */
  lemma SliceIs(s: Sched)
    requires Inv(s) && s.current.Some?
    ensures var c := s.threads[s.current.value];
            && (c.remainingTick == 0 ==> TimeSlice(s) == Counted(s, 0xFFFF_FFFF))
            && (c.remainingTick > 1 ==> TimeSlice(s) == Counted(s, c.remainingTick - 1))
            && (c.remainingTick == 1 ==> Scheduled(Counted(s, c.initTick), TimeSlice(s)))
  {
    var c := s.current.value;
    if s.threads[c].remainingTick == 1 {
      var r := s.threads[c].(remainingTick := s.threads[c].initTick);
      assert PlacedRight(s, c);
      UpdateInPlace(s, c, r);
      assert Update(s, c, r) == Counted(s, s.threads[c].initTick);
      ScheduleIs(Counted(s, s.threads[c].initTick));
    }
  }

  /** At the end of its slice a best thread gives way to the first of its equals, and waits behind the last of them. */
  lemma SliceEndYields(s: Sched)
    requires Inv(s) && s.lockNest == 0 && RunsBest(s) && s.threads[s.current.value].remainingTick == 1
    requires Queue(s, s.threads[s.current.value].currentPriority) != []
    ensures var c, r := s.current.value, TimeSlice(s);
            var p := s.threads[c].currentPriority;
            && r.current == Some(Queue(s, p)[0]) && Queue(r, p) == Queue(s, p)[1..] + [c]
            && c in r.threads && r.threads[c].remainingTick == s.threads[c].initTick
  {
    var c := s.current.value;
    var p, u := s.threads[c].currentPriority, Counted(s, s.threads[c].initTick);
    SliceIs(s);
    assert forall q: nat :: Queue(u, q) == Queue(s, q);
    assert Best(u, p);
  }

  /** rt_thread_timeout: the thread is off its wait list, ready, with the timeout error, at the end of its queue unless it
      runs, and then the scheduler is asked. */
  lemma TimeoutIs(s: Sched, t: Tid)
    requires Inv(s) && s.current.Some? && t in s.threads && s.threads[t].timer
    ensures Inv(TimeoutThread(s, t))
    ensures var u := TimeoutThread(s, t);
            && u.threads == s.threads[t := s.threads[t].(stat := READY, timer := false, error := ETIMEOUT)]
            && u.current == s.current && u.lockNest == s.lockNest
            && (forall w: nat :: Waiters(u, w) == Without(Waiters(s, w), t))
            && (forall p: nat :: Queue(u, p) == Queue(s, p)
                                 + if s.current != Some(t) && s.threads[t].currentPriority == p then [t] else [])
            && Scheduled(u, TimeoutAndSchedule(s, t))
  {
    hide Release, Schedule;
    var u := TimeoutThread(s, t);
    ReleaseKeeps(s, t, ETIMEOUT);
    ReleaseEffect(s, t, ETIMEOUT);
    forall w: nat
      ensures Waiters(u, w) == Without(Waiters(s, w), t)
    {
      ReleaseWaiters(s, t, ETIMEOUT, w);
    }
    forall p: nat
      ensures Queue(u, p) == Queue(s, p) + if s.current != Some(t) && s.threads[t].currentPriority == p then [t] else []
    {
      MovedQueue(s, s, t, ETIMEOUT, p);
      assert PlacedRight(s, t) && t !in Queue(s, p);
    }
    ScheduleIs(u);
  }

  /** So a thread better than the running one and than all that are ready runs at once when its time is out. */
  lemma BestTimeoutRuns(s: Sched, t: Tid)
    requires Inv(s) && s.current.Some? && s.lockNest == 0 && t in s.threads && s.threads[t].timer && s.current != Some(t)
    requires s.threads[s.current.value].stat == READY ==> s.threads[t].currentPriority <= s.threads[s.current.value].currentPriority
    requires forall p: nat | p <= s.threads[t].currentPriority :: Queue(s, p) == []
    ensures TimeoutAndSchedule(s, t).current == Some(t)
  {
    TimeoutIs(s, t);
    assert Best(TimeoutThread(s, t), s.threads[t].currentPriority);
  }

  /** rt_thread_startup: the thread is ready at its initial priority, at the end of its queue, and the scheduler is asked if
      it runs. */
  lemma StartupIs(s: Sched, t: Tid)
    requires Inv(s) && t in s.threads && s.threads[t].stat == INIT
    ensures Inv(StartThread(s, t))
    ensures var u, p0 := StartThread(s, t), s.threads[t].initPriority;
            && u.threads == s.threads[t := s.threads[t].(stat := READY, currentPriority := p0, timer := false)]
            && u.current == s.current && u.lockNest == s.lockNest
            && (forall w: nat :: Waiters(u, w) == Waiters(s, w))
            && (forall p: nat :: Queue(u, p) == Queue(s, p) + if s.current != Some(t) && p == p0 then [t] else [])
            && (s.current.None? ==> StartAndSchedule(s, t) == u)
            && (s.current.Some? ==> Scheduled(u, StartAndSchedule(s, t)))
  {
    hide Schedule;
    var a, u := DoStart(t), StartThread(s, t);
    StartKeeps(s, t);
    StepRecords(s, a);
    assert PlacedRight(s, t);
    forall w: nat
      ensures Waiters(u, w) == Waiters(s, w)
    {
      StepWaiters(s, a, w);
    }
    forall p: nat
      ensures Queue(u, p) == Queue(s, p) + if s.current != Some(t) && p == s.threads[t].initPriority then [t] else []
    {
      StepReadyQueues(s, a, p);
    }
    StepReadyQueues(s, a, 0);
    StepLocks(s, a);
    if s.current.Some? {
      ScheduleIs(u);
    }
  }

  /** What a sleeper does when it runs again: a timeout is what it waited for; any other error stays. */
  lemma AwakeIs(s: Sched)
    requires Shaped(s) && s.current.Some?
    ensures var c := s.current.value;
            && (s.threads[c].error != ETIMEOUT ==> AwakeFromSleep(s) == s)
            && (s.threads[c].error == ETIMEOUT ==> AwakeFromSleep(s) == s.(threads := s.threads[c := s.threads[c].(error := EOK)]))
  {
  }

  // ---------- what is left of a step ----------

  /** The lock count changes in critical sections only. */
  lemma StepLocks(s: Sched, a: Step)
    requires Inv(s) && Enabled(s, a)
    ensures Apply(s, a).lockNest ==
              match a
              case DoEnter => s.lockNest + 1
              case DoExit => if s.lockNest == 0 then 0 else s.lockNest - 1
              case _ => s.lockNest
  {
    hide PlacedRight, ListsOk, Scheduled;
    if a.DoSchedule? {
      ScheduleEffect(s);
    } else if a.DoExit? && s.lockNest <= 1 {
      LockKeeps(s, 0);
      ScheduleEffect(s.(lockNest := 0));
    } else if a.DoSlice? {
      SliceIs(s);
    } else if a.DoBlock? {
      BlockEffect(s, a.w, a.flag, a.timed);
    } else if a.DoWake? && Waiters(s, a.w) != [] {
      assert Waiters(s, a.w)[0] in Waiters(s, a.w);
    }
  }

  // ---------- waking a whole list ----------

  /** The threads of q that are of priority p and not running, in order. */
  function OfPriority(s: Sched, q: seq<Tid>, p: nat): seq<Tid> {
    if q == [] then []
    else (if q[0] in s.threads && s.threads[q[0]].currentPriority == p && s.current != Some(q[0]) then [q[0]] else [])
         + OfPriority(s, q[1..], p)
  }

  lemma {:induction false} SameOfPriority(s: Sched, r: Sched, q: seq<Tid>, p: nat)
    requires r.current == s.current
    requires forall t <- q :: (t in r.threads <==> t in s.threads) && (t in s.threads ==> r.threads[t].currentPriority == s.threads[t].currentPriority)
    ensures OfPriority(r, q, p) == OfPriority(s, q, p)
  {
    if q != [] {
      SameOfPriority(s, r, q[1..], p);
    }
  }

  /** rt_ipc_list_resume_all queues the waiters in the order of the list, each behind what its queue holds. */
  lemma {:induction false} WakeAllQueues(s: Sched, w: nat, p: nat)
    requires Inv(s)
    ensures Queue(WakeAll(s, w), p) == Queue(s, p) + OfPriority(s, Waiters(s, w), p)
    decreases |Waiters(s, w)|
  {
    hide Release, PlacedRight, ListsOk, Queue;
    var q := Waiters(s, w);
    if q != [] {
      FirstQueued(s, w, p);
      var r := Release(s, q[0], ERROR);
      WakeAllQueues(r, w, p);
      SameOfPriority(s, r, q[1..], p);
      assert WakeAll(s, w) == WakeAll(r, w);
    }
  }

  lemma FirstQueued(s: Sched, w: nat, p: nat)
    requires Inv(s) && Waiters(s, w) != []
    ensures var t := Waiters(s, w)[0];
            && t in s.threads
            && var r := Release(s, t, ERROR);
            && Inv(r) && Waiters(r, w) == Waiters(s, w)[1..] && r.current == s.current
            && r.threads == s.threads[t := s.threads[t].(stat := READY, timer := false, error := ERROR)]
            && Queue(r, p) == Queue(s, p) + if s.threads[t].currentPriority == p && s.current != Some(t) then [t] else []
  {
    var t := Waiters(s, w)[0];
    assert t in Waiters(s, w) && PlacedRight(s, t) && t !in Queue(s, p);
    ReleaseFirstEffect(s, w, ERROR);
    ReleaseKeeps(s, t, ERROR);
    ReleaseEffect(s, t, ERROR);
    MovedQueue(s, s, t, ERROR, p);
  }

  // ---------- waiting and waking ----------

  /** t has joined the list q: first come, first served at its end; by priority behind the waiters of no worse priority
      that are in front, and before the first one that is worse. */
  ghost predicate Joined(q: seq<Tid>, r: seq<Tid>, threads: map<Tid, Thread>, t: Tid, flag: Flag)
    requires t in threads && forall x <- q :: x in threads
  {
    if flag == FIFO then r == q + [t]
    else
      exists i | 0 <= i <= |q| ::
        && r == q[..i] + [t] + q[i..]
        && (forall j | 0 <= j < i :: threads[q[j]].currentPriority <= threads[t].currentPriority)
        && (i < |q| ==> threads[t].currentPriority < threads[q[i]].currentPriority)
  }

  /** The running thread has gone to sleep on the list: suspended, without an error, with its timer running or not, and
      in its place. Nothing else has changed. */
  ghost predicate WentToSleep(s: Sched, r: Sched, w: nat, flag: Flag, timed: bool)
    requires s.current.Some? && s.current.value in s.threads && forall t <- Waiters(s, w) :: t in s.threads
  {
    var c := s.current.value;
    && r.threads == s.threads[c := s.threads[c].(stat := SUSPEND, error := EOK, timer := timed)]
    && Joined(Waiters(s, w), Waiters(r, w), s.threads, c, flag)
    && (forall v: nat | v != w :: Waiters(r, v) == Waiters(s, v))
    && (forall p: nat :: Queue(r, p) == Queue(s, p))
    && r.current == s.current && r.lists.Keys == s.lists.Keys && r.priorityMax == s.priorityMax
    && r.lockNest == s.lockNest && r.limbo == s.limbo
  }

  lemma BlockIs(s: Sched, w: nat, flag: Flag, timed: bool)
    requires Inv(s) && Running(s) && WaitList(w) in s.lists
    ensures s.current.value in s.threads && forall t <- Waiters(s, w) :: t in s.threads
    ensures WentToSleep(s, Block(s, w, flag, timed), w, flag, timed)
  {
    hide PlacedRight, ListsOk, Joined, InsertAt, Block, WaitPos;
    BlockEffect(s, w, flag, timed);
    BlockListsElsewhere(s, w, flag, timed);
    PlaceIsByFlag(s, w, flag);
  }

  lemma PlaceIsByFlag(s: Sched, w: nat, flag: Flag)
    requires Shaped(s) && s.current.Some? && forall t <- Waiters(s, w) :: t in s.threads
    ensures var q, c := Waiters(s, w), s.current.value; Joined(q, InsertAt(q, WaitPos(s, w, flag), c), s.threads, c, flag)
  {
    var q := Waiters(s, w);
    assert q[..|q|] == q && q[|q|..] == [];
  }

  lemma BlockListsElsewhere(s: Sched, w: nat, flag: Flag, timed: bool)
    requires Inv(s) && Running(s) && WaitList(w) in s.lists && forall t <- Waiters(s, w) :: t in s.threads
    ensures var r := Block(s, w, flag, timed);
            && (forall v: nat | v != w :: Waiters(r, v) == Waiters(s, v))
            && (forall p: nat :: Queue(r, p) == Queue(s, p))
  {
    hide WaitPos;
    var c := s.current.value;
    assert PlacedRight(s, c);
    assert forall v: nat :: c !in Waiters(s, v);
    assert forall p: nat :: c !in Queue(s, p);
  }

  /** The first waiter, if there is one, has been resumed: ready, its timer stopped, at the end of the queue of its
      priority. Nothing else has changed. */
  ghost predicate FirstWoke(s: Sched, r: Sched, w: nat)
    requires forall t <- Waiters(s, w) :: t in s.threads
  {
    var q := Waiters(s, w);
    if q == [] then r == s
    else
      && r.threads == s.threads[q[0] := s.threads[q[0]].(stat := READY, timer := false)]
      && (forall v: nat :: Waiters(r, v) == if v == w then q[1..] else Waiters(s, v))
      && (forall p: nat :: Queue(r, p) == Queue(s, p) + OfPriority(s, [q[0]], p))
      && r.current == s.current && r.lists.Keys == s.lists.Keys && r.priorityMax == s.priorityMax
      && r.lockNest == s.lockNest && r.limbo == s.limbo
  }

  lemma WakeFirstIs(s: Sched, w: nat)
    requires Inv(s)
    ensures forall t <- Waiters(s, w) :: t in s.threads
    ensures FirstWoke(s, WakeFirst(s, w), w)
  {
    hide PlacedRight, ListsOk;
    WaitersAreThreads(s, w);
    var q := Waiters(s, w);
    if q != [] {
      WaiterResumed(s, w, q[0]);
      WaitersOnce(s, w);
      HeadWithout(q);
    }
  }

  lemma WaitersAreThreads(s: Sched, w: nat)
    requires Inv(s)
    ensures forall t <- Waiters(s, w) :: t in s.threads && t !in s.limbo && s.threads[t].stat == SUSPEND
  {
    forall t | t in Waiters(s, w)
      ensures t in s.threads && t !in s.limbo && s.threads[t].stat == SUSPEND
    {
      assert PlacedRight(s, t);
    }
  }

  /** A waiter, wherever in its list, is made ready with an error code: its record, and the lists. */
  ghost predicate WaiterLeft(s: Sched, r: Sched, w: nat, t: Tid, e: Error)
    requires t in s.threads
  {
    && r.threads == s.threads[t := s.threads[t].(stat := READY, timer := false, error := e)]
    && (forall v: nat :: Waiters(r, v) == if v == w then Without(Waiters(s, w), t) else Waiters(s, v))
    && (forall p: nat :: Queue(r, p) == Queue(s, p) + OfPriority(s, [t], p))
    && r.current == s.current && r.lists.Keys == s.lists.Keys && r.priorityMax == s.priorityMax
    && r.lockNest == s.lockNest && r.limbo == s.limbo
  }

  lemma WaiterReleased(s: Sched, w: nat, t: Tid, e: Error)
    requires Inv(s) && t in Waiters(s, w)
    ensures t in s.threads && WaiterLeft(s, Release(s, t, e), w, t, e)
  {
    hide PlacedRight, ListsOk;
    WaitersAreThreads(s, w);
    ReleaseEffect(s, t, e);
    assert s.limbo - {t} == s.limbo;
    forall p: nat
      ensures Queue(Release(s, t, e), p) == Queue(s, p) + OfPriority(s, [t], p)
    {
      assert [t][1..] == [];
      NotQueued(s, w, t, p);
      MovedQueue(s, s, t, e, p);
    }
    forall v: nat
      ensures Waiters(Release(s, t, e), v) == if v == w then Without(Waiters(s, w), t) else Waiters(s, v)
    {
      ReleaseWaiters(s, t, e, v);
      if v != w {
        NotElsewhere(s, w, v, t);
      }
    }
  }

  /** A resume of a waiter that nothing interrupts. */
  lemma WaiterResumed(s: Sched, w: nat, t: Tid)
    requires Inv(s) && t in Waiters(s, w)
    ensures t in s.threads && WaiterLeft(s, ResumeThread(s, t), w, t, s.threads[t].error)
  {
    hide WaiterLeft;
    WaitersAreThreads(s, w);
    WaiterReleased(s, w, t, s.threads[t].error);
    assert ResumeThread(s, t) == Release(s, t, s.threads[t].error);
  }

  lemma NotQueued(s: Sched, w: nat, t: Tid, p: nat)
    requires Inv(s) && t in Waiters(s, w)
    ensures t !in Queue(s, p)
  {
    assert PlacedRight(s, t);
  }

  lemma NotElsewhere(s: Sched, w: nat, v: nat, t: Tid)
    requires Inv(s) && t in Waiters(s, w) && v != w
    ensures t !in Waiters(s, v)
  {
    assert PlacedRight(s, t);
  }

  /** All waiters have been resumed, in order, with the error of a reset. Nothing else has changed. */
  ghost predicate AllWoke(s: Sched, r: Sched, w: nat)
    requires forall t <- Waiters(s, w) :: t in s.threads
  {
    var q := Waiters(s, w);
    && r.threads.Keys == s.threads.Keys
    && (forall t <- s.threads :: t in r.threads
          && r.threads[t] == if t in q then s.threads[t].(stat := READY, timer := false, error := ERROR) else s.threads[t])
    && (forall v: nat :: Waiters(r, v) == if v == w then [] else Waiters(s, v))
    && (forall p: nat :: Queue(r, p) == Queue(s, p) + OfPriority(s, q, p))
    && r.current == s.current && r.lists.Keys == s.lists.Keys && r.priorityMax == s.priorityMax
    && r.lockNest == s.lockNest && r.limbo == s.limbo
  }

  lemma WakeAllIs(s: Sched, w: nat)
    requires Inv(s)
    ensures forall t <- Waiters(s, w) :: t in s.threads
    ensures AllWoke(s, WakeAll(s, w), w)
  {
    hide PlacedRight, ListsOk, WakeAll, Queue;
    WaitersAreThreads(s, w);
    WakeAllRecords(s, w);
    forall p: nat
      ensures Queue(WakeAll(s, w), p) == Queue(s, p) + OfPriority(s, Waiters(s, w), p)
    {
      WakeAllQueues(s, w, p);
    }
  }

  lemma {:induction false} WakeAllRecords(s: Sched, w: nat)
    requires Inv(s)
    ensures var q, r := Waiters(s, w), WakeAll(s, w);
            && r.threads.Keys == s.threads.Keys
            && (forall t <- s.threads :: t in r.threads
                  && r.threads[t] == if t in q then s.threads[t].(stat := READY, timer := false, error := ERROR) else s.threads[t])
            && (forall v: nat :: Waiters(r, v) == if v == w then [] else Waiters(s, v))
            && r.current == s.current && r.lists.Keys == s.lists.Keys && r.priorityMax == s.priorityMax
            && r.lockNest == s.lockNest && r.limbo == s.limbo
    decreases |Waiters(s, w)|
  {
    hide PlacedRight, ListsOk, Release;
    if Waiters(s, w) != [] {
      var t := Waiters(s, w)[0];
      FirstQueued(s, w, 0);
      var s1 := Release(s, t, ERROR);
      ReleaseEffect(s, t, ERROR);
      WaiterReleased(s, w, t, ERROR);
      WaitersOnce(s, w);
      HeadWithout(Waiters(s, w));
      WakeAllRecords(s1, w);
      assert WakeAll(s, w) == WakeAll(s1, w);
    }
  }

  lemma WaitersOnce(s: Sched, w: nat)
    requires Inv(s)
    ensures NoDup(Waiters(s, w))
  {
  }
}
