/** The thread state machine: startup, suspend, resume, timeout, sleep, blocking on and waking from
    wait lists, priority change, deletion, critical sections and time slices. Startup, resume and deletion
    leave interrupts on between their sections, so each section is a step of its own as well. A run keeps the
    global invariant of Scheduler if and only if each of its steps is taken in a safe state. */
module Threads {
  import opened Options
  import opened Seqs
  import opened Scheduler

  // ---------- operations ----------

  /** rt_thread_suspend on the running thread; a thread that is not ready is left alone. */
  function SuspendSelf(s: Sched): Sched
    requires Shaped(s) && s.current.Some?
  {
    var c := s.current.value;
    if s.threads[c].stat != READY then s
    else Detach(Update(s, c, s.threads[c].(stat := SUSPEND, timer := false)), c)
  }

  /** What a resume and a timeout have in common: off the list, timer stopped, ready. */
  function Release(s: Sched, t: Tid, e: Error): Sched
    requires Shaped(s) && t in s.threads
  {
    Insert(Detach(Update(s, t, s.threads[t].(timer := false, error := e)), t), t)
  }

  /** rt_thread_resume, undisturbed; a thread that is not suspended is left alone. */
  function ResumeThread(s: Sched, t: Tid): Sched
    requires Shaped(s) && t in s.threads
  {
    if s.threads[t].stat != SUSPEND then s else Release(s, t, s.threads[t].error)
  }

  /** rt_thread_timeout, called with the timer already unlinked, up to its rt_schedule. */
  function TimeoutThread(s: Sched, t: Tid): Sched
    requires Shaped(s) && t in s.threads
  {
    Release(s, t, ETIMEOUT)
  }

  /** The first section of rt_thread_resume: off the list, timer stopped. The second one is Insert. */
  function Unlink(s: Sched, t: Tid): Sched
    requires Shaped(s) && t in s.threads
  {
    Detach(Update(s, t, s.threads[t].(timer := false)), t)
  }

  /** What rt_thread_startup writes before it resumes the thread. */
  function InitThread(s: Sched, t: Tid): Sched
    requires Shaped(s) && t in s.threads
  {
    var r := s.threads[t];
    Update(s, t, r.(currentPriority := r.initPriority, stat := SUSPEND))
  }

  /** rt_thread_startup up to its rt_schedule, undisturbed. */
  function StartThread(s: Sched, t: Tid): Sched
    requires Shaped(s) && t in s.threads
  {
    ResumeThread(InitThread(s, t), t)
  }

  /** RT_THREAD_CTRL_CHANGE_PRIORITY: a ready thread changes queue. */
  function ChangePriority(s: Sched, t: Tid, p: nat): Sched
    requires Shaped(s) && t in s.threads && p < s.priorityMax
  {
    if s.threads[t].stat == READY
    then
      var s1 := Detach(s, t);
      Insert(Update(s1, t, s.threads[t].(currentPriority := p)), t)
    else Update(s, t, s.threads[t].(currentPriority := p))
  }

  /** The suspending half of rt_thread_sleep. */
  function Sleep(s: Sched): Sched
    requires Shaped(s) && s.current.Some?
  {
    var s1, c := SuspendSelf(s), s.current.value;
    Update(s1, c, s1.threads[c].(timer := true))
  }

  /** What rt_thread_sleep does when its caller runs again. */
  function AwakeFromSleep(s: Sched): Sched
    requires Shaped(s) && s.current.Some?
  {
    var c := s.current.value;
    if s.threads[c].error == ETIMEOUT then Update(s, c, s.threads[c].(error := EOK)) else s
  }

  /** How many waiters stay in front of a thread of priority p: all whose priority is no worse. */
  function PriorityPos(q: seq<Tid>, threads: map<Tid, Thread>, p: nat): (i: nat)
    requires forall t <- q :: t in threads
    ensures i <= |q|
    ensures forall k | 0 <= k < i :: threads[q[k]].currentPriority <= p
    ensures i < |q| ==> p < threads[q[i]].currentPriority
  {
    if q == [] || p < threads[q[0]].currentPriority then 0 else 1 + PriorityPos(q[1..], threads, p)
  }

  function WaitPos(s: Sched, w: nat, flag: Flag): (i: nat)
    requires Shaped(s) && s.current.Some? && (forall t <- Waiters(s, w) :: t in s.threads)
    ensures i <= |Waiters(s, w)|
  {
    if flag == FIFO then |Waiters(s, w)|
    else PriorityPos(Waiters(s, w), s.threads, s.threads[s.current.value].currentPriority)
  }

  /** rt_ipc_list_suspend on a thread that is already suspended, and the start of its timer. */
  function Join(s: Sched, w: nat, flag: Flag, timed: bool): Sched
    requires Shaped(s) && s.current.Some? && WaitList(w) in s.lists
    requires forall t <- Waiters(s, w) :: t in s.threads
  {
    var c := s.current.value;
    var s1 := s.(lists := s.lists[WaitList(w) := InsertAt(Waiters(s, w), WaitPos(s, w, flag), c)]);
    Update(s1, c, s1.threads[c].(timer := s1.threads[c].timer || timed))
  }

  /** The blocking section of the ipc calls: reset the error, suspend, rt_ipc_list_suspend, start the timer. */
  function Block(s: Sched, w: nat, flag: Flag, timed: bool): Sched
    requires Shaped(s) && s.current.Some? && WaitList(w) in s.lists
    requires forall t <- Waiters(s, w) :: t in s.threads
  {
    Join(SuspendSelf(Update(s, s.current.value, s.threads[s.current.value].(error := EOK))), w, flag, timed)
  }

  /** rt_ipc_list_resume. */
  function WakeFirst(s: Sched, w: nat): Sched
    requires Shaped(s) && forall t <- Waiters(s, w) :: t in s.threads
  {
    if Waiters(s, w) == [] then s else ResumeThread(s, Waiters(s, w)[0])
  }

  /** The first section of rt_thread_delete and rt_thread_detach, rt_schedule_remove_thread. */
  function TakeOff(s: Sched, t: Tid): Sched
    requires Shaped(s) && t in s.threads
  {
    if s.threads[t].stat == INIT then s
    else
      var s1 := Detach(s, t);
      if s.threads[t].stat == READY && s.current != Some(t) then s1.(limbo := s.limbo + {t}) else s1
  }

  /** The second one, rt_timer_detach. */
  function StopTimer(s: Sched, t: Tid): Sched
    requires Shaped(s) && t in s.threads
  {
    Update(s, t, s.threads[t].(timer := false))
  }

  /** The write to the state that follows. */
  function MarkClosed(s: Sched, t: Tid): Sched
    requires Shaped(s) && t in s.threads
  {
    LeaveLimbo(Update(s, t, s.threads[t].(stat := CLOSE)), t)
  }

  /** rt_thread_delete or rt_thread_detach, undisturbed, and the one section of rt_thread_exit. */
  function Close(s: Sched, t: Tid): Sched
    requires Shaped(s) && t in s.threads
  {
    MarkClosed(StopTimer(TakeOff(s, t), t), t)
  }

  function EnterCritical(s: Sched): Sched {
    s.(lockNest := s.lockNest + 1)
  }

  /** rt_exit_critical. */
  function ExitCritical(s: Sched): Sched
    requires Shaped(s) && ListsOk(s) && s.current.Some?
  {
    if s.lockNest <= 1 then Schedule(s.(lockNest := 0)) else s.(lockNest := s.lockNest - 1)
  }

  /** The time-slice part of rt_tick_increase; the counter is an unsigned word. */
  function TimeSlice(s: Sched): Sched
    requires Shaped(s) && ListsOk(s) && s.current.Some?
  {
    var c := s.current.value;
    var left := if s.threads[c].remainingTick == 0 then 0xFFFF_FFFF else s.threads[c].remainingTick - 1;
    if left == 0
    then Schedule(Update(s, c, s.threads[c].(remainingTick := s.threads[c].initTick)))
    else Update(s, c, s.threads[c].(remainingTick := left))
  }

  // ---------- the invariant is kept ----------

  /** Changing fields of a record that its place does not depend on. */
  lemma UpdateInPlace(s: Sched, t: Tid, r: Thread)
    requires Inv(s) && t in s.threads
    requires r.stat == s.threads[t].stat && r.initPriority == s.threads[t].initPriority
    requires r.timer ==> r.stat == SUSPEND
    requires r.currentPriority == s.threads[t].currentPriority || (r.stat != READY && r.currentPriority < s.priorityMax)
    ensures Inv(Update(s, t, r))
  {
    var s' := Update(s, t, r);
    forall x | x in s'.threads
      ensures PlacedRight(s', x)
    {
      assert PlacedRight(s, x);
      assert forall p :: Queue(s', p) == Queue(s, p);
      assert forall w :: Waiters(s', w) == Waiters(s, w);
    }
  }

  lemma SuspendSelfKeeps(s: Sched)
    requires Inv(s) && s.current.Some?
    ensures Inv(SuspendSelf(s))
    ensures s.threads[s.current.value].stat == READY ==> InvExcept(SuspendSelf(s), s.current.value)
  {
    var c := s.current.value;
    if s.threads[c].stat == READY {
      DetachKeeps(s, c);
      UpdateKeeps(Detach(s, c), c, s.threads[c].(stat := SUSPEND, timer := false));
      assert SuspendSelf(s) == Update(Detach(s, c), c, s.threads[c].(stat := SUSPEND, timer := false));
      CloseUp(SuspendSelf(s), c);
    }
  }

  lemma ReleaseKeeps(s: Sched, t: Tid, e: Error)
    requires Inv(s) && t in s.threads
    ensures Inv(Release(s, t, e))
  {
    var r := s.threads[t].(timer := false, error := e);
    DetachKeeps(s, t);
    UpdateKeeps(Detach(s, t), t, r);
    assert Detach(Update(s, t, r), t) == Update(Detach(s, t), t, r);
    InsertKeeps(Update(Detach(s, t), t, r), t);
  }

  lemma ResumeKeeps(s: Sched, t: Tid)
    requires Inv(s) && t in s.threads
    ensures Inv(ResumeThread(s, t))
  {
    ReleaseKeeps(s, t, s.threads[t].error);
  }

  /** A thread in the initial state is on no list, so it may be called suspended. */
  lemma StartedIsPlaced(s: Sched, t: Tid)
    requires Inv(s) && t in s.threads && s.threads[t].stat == INIT
    ensures Inv(InitThread(s, t))
  {
    var s' := InitThread(s, t);
    forall x | x in s'.threads
      ensures PlacedRight(s', x)
    {
      assert PlacedRight(s, x);
      assert forall p :: Queue(s', p) == Queue(s, p);
      assert forall w :: Waiters(s', w) == Waiters(s, w);
    }
  }

  lemma StartKeeps(s: Sched, t: Tid)
    requires Inv(s) && t in s.threads && s.threads[t].stat == INIT
    ensures Inv(StartThread(s, t))
  {
    StartedIsPlaced(s, t);
    ResumeKeeps(InitThread(s, t), t);
  }

  /** All of rt_thread_startup. */
  function StartAndSchedule(s: Sched, t: Tid): (r: Sched)
    requires Inv(s) && t in s.threads && s.threads[t].stat == INIT
    ensures Inv(r)
  {
    StartKeeps(s, t);
    var s1 := StartThread(s, t);
    if s1.current.None? then s1
    else
      ScheduleKeeps(s1);
      Schedule(s1)
  }

  /** All of rt_thread_timeout. */
  function TimeoutAndSchedule(s: Sched, t: Tid): (r: Sched)
    requires Inv(s) && s.current.Some? && t in s.threads
    ensures Inv(r)
  {
    ReleaseKeeps(s, t, ETIMEOUT);
    ScheduleKeeps(TimeoutThread(s, t));
    Schedule(TimeoutThread(s, t))
  }

  lemma ChangePriorityKeeps(s: Sched, t: Tid, p: nat)
    requires Inv(s) && t in s.threads && p < s.priorityMax
    ensures Inv(ChangePriority(s, t, p))
  {
    assert PlacedRight(s, t);
    if s.threads[t].stat == READY {
      DetachKeeps(s, t);
      UpdateKeeps(Detach(s, t), t, s.threads[t].(currentPriority := p));
      InsertKeeps(Update(Detach(s, t), t, s.threads[t].(currentPriority := p)), t);
    } else {
      UpdateInPlace(s, t, s.threads[t].(currentPriority := p));
    }
  }

  lemma SleepKeeps(s: Sched)
    requires Inv(s) && s.current.Some?
    requires s.threads[s.current.value].stat == READY || s.threads[s.current.value].stat == SUSPEND
    ensures Inv(Sleep(s))
  {
    var c := s.current.value;
    SuspendSelfKeeps(s);
    assert PlacedRight(SuspendSelf(s), c);
    UpdateInPlace(SuspendSelf(s), c, SuspendSelf(s).threads[c].(timer := true));
  }

  lemma JoinKeeps(s: Sched, w: nat, flag: Flag, timed: bool)
    requires s.current.Some? && InvExcept(s, s.current.value) && WaitList(w) in s.lists
    requires s.threads[s.current.value].stat == SUSPEND && s.current.value !in s.limbo
    ensures Inv(Join(s, w, flag, timed))
  {
    var c := s.current.value;
    InsertWaiting(s, c, w, WaitPos(s, w, flag));
    var s1 := s.(lists := s.lists[WaitList(w) := InsertAt(Waiters(s, w), WaitPos(s, w, flag), c)]);
    UpdateInPlace(s1, c, s1.threads[c].(timer := s1.threads[c].timer || timed));
  }

  lemma BlockKeeps(s: Sched, w: nat, flag: Flag, timed: bool)
    requires Inv(s) && s.current.Some? && WaitList(w) in s.lists
    requires s.threads[s.current.value].stat == READY
    ensures (forall t <- Waiters(s, w) :: t in s.threads) && Inv(Block(s, w, flag, timed))
  {
    var c := s.current.value;
    var s0 := Update(s, c, s.threads[c].(error := EOK));
    assert PlacedRight(s, c);
    UpdateInPlace(s, c, s.threads[c].(error := EOK));
    SuspendSelfKeeps(s0);
    assert PlacedRight(SuspendSelf(s0), c);
    JoinKeeps(SuspendSelf(s0), w, flag, timed);
  }

  /** Releasing the first waiter of a list takes it off and touches no other thread. */
  lemma ReleaseFirstEffect(s: Sched, w: nat, e: Error)
    requires Inv(s) && Waiters(s, w) != []
    ensures var t := Waiters(s, w)[0];
            && t in s.threads
            && var r := Release(s, t, e);
            && Waiters(r, w) == Waiters(s, w)[1..] && r.current == s.current && WaitList(w) in r.lists
            && r.threads == s.threads[t := r.threads[t]]
            && r.threads[t].stat == READY && r.threads[t].error == e && !r.threads[t].timer
  {
    var t := Waiters(s, w)[0];
    assert t in Waiters(s, w) && PlacedRight(s, t);
    HeadWithout(Waiters(s, w));
  }

  lemma UnlinkKeeps(s: Sched, t: Tid)
    requires Inv(s) && t in s.threads && forall p :: t !in Queue(s, p)
    ensures Inv(Unlink(s, t))
  {
    var r := s.threads[t].(timer := false);
    assert PlacedRight(s, t);
    UpdateInPlace(s, t, r);
    var s1, s2 := Update(s, t, r), Unlink(s, t);
    DetachKeeps(s1, t);
    assert t !in Queue(s, s.threads[t].currentPriority);
    assert forall p :: t !in Queue(s2, p);
    assert forall w :: t !in Waiters(s2, w);
    assert PlacedRight(s2, t);
  }

  lemma RemoveKeeps(s: Sched, t: Tid)
    requires Inv(s) && t in s.threads
    ensures Inv(TakeOff(s, t))
    ensures forall h <- s.lists :: t !in TakeOff(s, t).lists[h]
  {
    assert PlacedRight(s, t);
    var r := TakeOff(s, t);
    if s.threads[t].stat == INIT {
      OnNoList(s, t);
    } else {
      DetachKeeps(s, t);
      forall x | x in r.threads
        ensures PlacedRight(r, x)
      {
        assert x != t ==> PlacedRight(Detach(s, t), x);
        assert forall p :: Queue(r, p) == Queue(Detach(s, t), p);
        assert forall w :: Waiters(r, w) == Waiters(Detach(s, t), w);
        assert x == t ==> (forall p :: t !in Queue(r, p)) && forall w :: t !in Waiters(r, w);
      }
    }
  }

  /** A thread is on no list if it is on no queue and no wait list. */
  lemma OnNoList(s: Sched, t: Tid)
    requires forall p :: t !in Queue(s, p)
    requires forall w :: t !in Waiters(s, w)
    ensures forall h <- s.lists :: t !in s.lists[h]
  {
    forall h | h in s.lists
      ensures t !in s.lists[h]
    {
      match h
      case ReadyList(p) => assert t !in Queue(s, p);
      case WaitList(v) => assert t !in Waiters(s, v);
    }
  }

  lemma StopTimerKeeps(s: Sched, t: Tid)
    requires Inv(s) && t in s.threads
    ensures Inv(StopTimer(s, t))
  {
    assert PlacedRight(s, t);
    UpdateInPlace(s, t, s.threads[t].(timer := false));
  }

  /** On no list and with its timer stopped, as the last section of a resume and of a deletion assume. */
  predicate Loose(s: Sched, t: Tid)
    requires t in s.threads
  {
    (forall h <- s.lists :: t !in s.lists[h]) && !s.threads[t].timer
  }

  lemma LooseExcept(s: Sched, t: Tid)
    requires Inv(s) && t in s.threads && Loose(s, t)
    ensures InvExcept(s, t)
  {
  }

  lemma MarkKeeps(s: Sched, t: Tid)
    requires Inv(s) && t in s.threads && Loose(s, t)
    ensures Inv(MarkClosed(s, t))
  {
    var r := s.threads[t].(stat := CLOSE);
    LooseExcept(s, t);
    UpdateKeeps(s, t, r);
    LeaveLimboKeeps(Update(s, t, r), t);
    CloseUp(MarkClosed(s, t), t);
  }

  lemma CloseKeeps(s: Sched, t: Tid)
    requires Inv(s) && t in s.threads
    ensures Inv(Close(s, t))
  {
    RemoveKeeps(s, t);
    StopTimerKeeps(TakeOff(s, t), t);
    MarkKeeps(StopTimer(TakeOff(s, t), t), t);
  }

  /** What an undisturbed deletion comes to. */
  lemma CloseIs(s: Sched, t: Tid)
    requires Inv(s) && t in s.threads
    ensures Close(s, t) == LeaveLimbo(Update(Detach(s, t), t, s.threads[t].(stat := CLOSE, timer := false)), t)
  {
    assert PlacedRight(s, t);
    if s.threads[t].stat == INIT {
      OnNoList(s, t);
      DetachAbsent(s, t);
    }
    assert (s.limbo + {t}) - {t} == s.limbo - {t};
  }

  lemma TimeSliceKeeps(s: Sched)
    requires Inv(s) && s.current.Some?
    ensures Inv(TimeSlice(s))
  {
    var c := s.current.value;
    assert PlacedRight(s, c);
    var left := if s.threads[c].remainingTick == 0 then 0xFFFF_FFFF else s.threads[c].remainingTick - 1;
    if left == 0 {
      UpdateInPlace(s, c, s.threads[c].(remainingTick := s.threads[c].initTick));
      ScheduleKeeps(Update(s, c, s.threads[c].(remainingTick := s.threads[c].initTick)));
    } else {
      UpdateInPlace(s, c, s.threads[c].(remainingTick := left));
    }
  }

  /** rt_ipc_list_resume_all: every waiter is released with an error, first to last. */
  function WakeAll(s: Sched, w: nat): (r: Sched)
    requires Inv(s)
    ensures Inv(r) && Waiters(r, w) == [] && r.current == s.current && r.lists.Keys == s.lists.Keys
    decreases |Waiters(s, w)|
  {
    if Waiters(s, w) == [] then s
    else
      ReleaseFirstEffect(s, w, ERROR);
      ReleaseKeeps(s, Waiters(s, w)[0], ERROR);
      WakeAll(Release(s, Waiters(s, w)[0], ERROR), w)
  }

  /** It wakes exactly the waiters, each with the error set, and changes no other thread. */
  lemma {:induction false} WakeAllWakesTheWaiters(s: Sched, w: nat)
    requires Inv(s)
    ensures var r := WakeAll(s, w);
            && r.threads.Keys == s.threads.Keys
            && (forall t <- Waiters(s, w) :: t in r.threads && r.threads[t].stat == READY && r.threads[t].error == ERROR)
            && (forall t <- s.threads | t !in Waiters(s, w) :: r.threads[t] == s.threads[t])
    decreases |Waiters(s, w)|
  {
    if Waiters(s, w) != [] {
      var t := Waiters(s, w)[0];
      var s1 := Release(s, t, ERROR);
      ReleaseFirstEffect(s, w, ERROR);
      ReleaseKeeps(s, t, ERROR);
      assert t !in Waiters(s, w)[1..];
      WakeAllWakesTheWaiters(s1, w);
    }
  }

  // ---------- blocking twice ----------

  /** With the scheduler locked a thread runs on after it has blocked. If it then blocks again its
      node is linked into a second list, and that is the only way a blocking call breaks the lists. */
  lemma BlockIsSafeIff(s: Sched, w: nat, flag: Flag, timed: bool)
    requires Inv(s) && s.current.Some? && WaitList(w) in s.lists
    requires s.threads[s.current.value].stat == READY || s.threads[s.current.value].stat == SUSPEND
    ensures forall t <- Waiters(s, w) :: t in s.threads
    ensures Inv(Block(s, w, flag, timed)) <==> forall v :: s.current.value !in Waiters(s, v)
  {
    var c := s.current.value;
    assert PlacedRight(s, c);
    if s.threads[c].stat == READY {
      BlockKeeps(s, w, flag, timed);
    } else {
      var s0 := Update(s, c, s.threads[c].(error := EOK));
      UpdateInPlace(s, c, s.threads[c].(error := EOK));
      var i := WaitPos(s0, w, flag);
      var r := Block(s, w, flag, timed);
      if exists v :: c in Waiters(s, v) {
        var v :| c in Waiters(s, v);
        assert c in Waiters(r, v) && c in Waiters(r, w);
        if v == w {
          TwiceIsNotDistinct(Waiters(s0, w), i, c);
          assert !NoDup(r.lists[WaitList(w)]);
        } else {
          assert !PlacedRight(r, c);
        }
      } else {
        assert forall v :: Waiters(s0, v) == Waiters(s, v);
        NoListNoNode(s0, c);
        JoinKeeps(s0, w, flag, timed);
      }
    }
  }

  lemma TwiceIsNotDistinct(q: seq<Tid>, i: nat, t: Tid)
    requires t in q && i <= |q|
    ensures !NoDup(InsertAt(q, i, t))
  {
    var k :| 0 <= k < |q| && q[k] == t;
    var r := InsertAt(q, i, t);
    assert r[i] == t && r[if k < i then k else k + 1] == t;
  }

  lemma NoListNoNode(s: Sched, t: Tid)
    requires Inv(s) && t in s.threads && s.threads[t].stat == SUSPEND && forall w :: t !in Waiters(s, w)
    ensures InvExcept(s, t) && t !in s.limbo
  {
    assert PlacedRight(s, t);
    OnNoList(s, t);
  }

  // ---------- the second halves ----------

  /** The second section of a resume keeps the invariant if and only if the thread is, at that moment, on no list
      and without a timer: otherwise its node is linked twice. */
  lemma InsertIsSafeIff(s: Sched, t: Tid)
    requires Inv(s) && t in s.threads
    ensures Inv(Insert(s, t)) <==> Loose(s, t)
  {
    var r := Insert(s, t);
    if Loose(s, t) {
      LooseExcept(s, t);
      InsertKeeps(s, t);
    } else if Inv(r) {
      InsertTwice(s, t);
    }
  }

  lemma InsertTwice(s: Sched, t: Tid)
    requires Inv(s) && t in s.threads && !Loose(s, t)
    ensures !Inv(Insert(s, t))
  {
    var r := Insert(s, t);
    assert PlacedRight(s, t);
    if exists p :: t in Queue(s, p) {
      var p :| t in Queue(s, p);
      var q := s.lists[ReadyList(p)];
      assert ReadyList(p) in r.lists && r.lists[ReadyList(p)] == q + [t];
      TwiceIsNotDistinct(q, |q|, t);
      assert InsertAt(q, |q|, t) == q + [t];
    } else if exists w :: t in Waiters(s, w) {
      var w :| t in Waiters(s, w);
      assert t in Waiters(r, w) && t in r.threads && r.threads[t].stat == READY;
      assert !PlacedRight(r, t);
    } else {
      OnNoList(s, t);
      assert r.threads[t].timer && r.threads[t].stat == READY;
      assert !PlacedRight(r, t);
    }
  }

  /** The last write of a deletion keeps the invariant if and only if the thread is, at that moment, on no list and
      without a timer: otherwise a closed thread stays linked. */
  lemma MarkIsSafeIff(s: Sched, t: Tid)
    requires Inv(s) && t in s.threads
    ensures Inv(MarkClosed(s, t)) <==> Loose(s, t)
  {
    var r := MarkClosed(s, t);
    if Loose(s, t) {
      MarkKeeps(s, t);
    } else {
      if exists p :: t in Queue(s, p) {
        var p :| t in Queue(s, p);
        assert t in Queue(r, p);
      } else if exists w :: t in Waiters(s, w) {
        var w :| t in Waiters(s, w);
        assert t in Waiters(r, w);
      } else {
        OnNoList(s, t);
      }
      assert t in r.threads && r.threads[t].stat == CLOSE;
      assert !PlacedRight(r, t);
    }
  }

  predicate InQueue(s: Sched, t: Tid)
    requires t in s.threads
  {
    s.threads[t].stat == READY && s.current != Some(t) && t !in s.limbo
  }

  /** The first section of a resume keeps the invariant if and only if the thread is not queued, which somebody else's
      resume after the caller's test of the state may have made it. */
  lemma UnlinkIsSafeIff(s: Sched, t: Tid)
    requires Inv(s) && t in s.threads
    ensures Inv(Unlink(s, t)) <==> !InQueue(s, t)
  {
    assert PlacedRight(s, t);
    if InQueue(s, t) {
      var r := Unlink(s, t);
      assert t !in Queue(r, s.threads[t].currentPriority);
      assert t in r.threads && r.threads[t].stat == READY && r.current != Some(t) && t !in r.limbo;
      assert !PlacedRight(r, t);
    } else {
      assert forall p :: t !in Queue(s, p);
      UnlinkKeeps(s, t);
    }
  }

  // ---------- runs ----------

  datatype Step =
    | DoStart(t: Tid) | DoSuspend | DoResume(t: Tid) | DoTimeout(t: Tid) | DoSleep
    | DoBlock(w: nat, flag: Flag, timed: bool) | DoWake(w: nat) | DoChangePriority(t: Tid, p: nat)
    | DoClose(t: Tid) | DoSchedule | DoStartScheduler | DoEnter | DoExit | DoSlice | DoSetError(t: Tid, e: Error)
    | DoInit(t: Tid) | DoUnlink(t: Tid) | DoInsert(t: Tid)          // the sections of a startup and of a resume
    | DoRemove(t: Tid) | DoStopTimer(t: Tid) | DoMark(t: Tid)       // the sections of a deletion

  /** What may happen at all: a startup is of a thread in the initial state, a timeout is of a linked timer, and the
      caller of a sleep or of a blocking call is ready or, with the scheduler locked, already suspended. */
  predicate Possible(s: Sched, a: Step)
    requires Shaped(s)
  {
    match a
    case DoStart(t) => t in s.threads && s.threads[t].stat == INIT
    case DoInit(t) => t in s.threads && s.threads[t].stat == INIT
    case DoTimeout(t) => t in s.threads && s.threads[t].timer
    case DoSleep => MayBlock(s)
    case DoBlock(w, _, _) => MayBlock(s) && WaitList(w) in s.lists
    case DoChangePriority(t, p) => t in s.threads && p < s.priorityMax
    case DoSuspend => s.current.Some?
    case DoSchedule => s.current.Some?
    case DoExit => s.current.Some?
    case DoSlice => s.current.Some?
    case DoStartScheduler => s.current.None?
    case DoWake(_) => true
    case DoEnter => true
    case _ => a.t in s.threads
  }

  predicate MayBlock(s: Sched)
    requires Shaped(s)
  {
    s.current.Some? && (s.threads[s.current.value].stat == READY || s.threads[s.current.value].stat == SUSPEND)
  }

  /** The states in which a step does no harm. */
  predicate Safe(s: Sched, a: Step)
    requires Shaped(s) && Possible(s, a)
  {
    match a
    case DoBlock(_, _, _) => s.threads[s.current.value].stat == READY || forall h <- s.lists :: s.current.value !in s.lists[h]
    case DoUnlink(t) => !InQueue(s, t)
    case DoInsert(t) => Loose(s, t)
    case DoMark(t) => Loose(s, t)
    case _ => true
  }

  /** A safe step by which no thread blocks or sleeps that is suspended already. */
  predicate Enabled(s: Sched, a: Step)
    requires Shaped(s)
  {
    Possible(s, a) && Safe(s, a) && (a.DoSleep? || a.DoBlock? ==> s.threads[s.current.value].stat == READY)
  }

  function Perform(s: Sched, a: Step): (r: Sched)
    requires Inv(s) && Possible(s, a) && Safe(s, a)
    ensures Inv(r)
  {
    StepIsSafeIff(s, a);
    Apply(s, a)
  }

  function Apply(s: Sched, a: Step): Sched
    requires Inv(s) && Possible(s, a)
  {
    match a
    case DoStart(t) => StartThread(s, t)
    case DoSuspend => SuspendSelf(s)
    case DoResume(t) => ResumeThread(s, t)
    case DoTimeout(t) => TimeoutThread(s, t)
    case DoSleep => Sleep(s)
    case DoBlock(w, flag, timed) => Block(s, w, flag, timed)
    case DoWake(w) => WakeFirst(s, w)
    case DoChangePriority(t, p) => ChangePriority(s, t, p)
    case DoClose(t) => Close(s, t)
    case DoSchedule => Schedule(s)
    case DoStartScheduler => StartScheduler(s)
    case DoEnter => EnterCritical(s)
    case DoExit => ExitCritical(s)
    case DoSlice => TimeSlice(s)
    case DoSetError(t, e) => Update(s, t, s.threads[t].(error := e))
    case DoInit(t) => InitThread(s, t)
    case DoUnlink(t) => Unlink(s, t)
    case DoInsert(t) => Insert(s, t)
    case DoRemove(t) => TakeOff(s, t)
    case DoStopTimer(t) => StopTimer(s, t)
    case DoMark(t) => MarkClosed(s, t)
  }

  lemma LockKeeps(s: Sched, n: nat)
    requires Inv(s)
    ensures Inv(s.(lockNest := n))
  {
    var r := s.(lockNest := n);
    forall x | x in r.threads
      ensures PlacedRight(r, x)
    {
      assert PlacedRight(s, x);
      assert forall p :: Queue(r, p) == Queue(s, p);
      assert forall w :: Waiters(r, w) == Waiters(s, w);
    }
  }

  /** A step keeps the invariant if and only if it is safe. */
  lemma StepIsSafeIff(s: Sched, a: Step)
    requires Inv(s) && Possible(s, a)
    ensures Inv(Apply(s, a)) <==> Safe(s, a)
  {
    match a
    case DoUnlink(t) => UnlinkIsSafeIff(s, t);
    case DoInsert(t) => InsertIsSafeIff(s, t);
    case DoMark(t) => MarkIsSafeIff(s, t);
    case DoBlock(w, flag, timed) => BlockSafety(s, w, flag, timed);
    case DoSleep => SleepKeeps(s);
    case _ => StepKeeps(s, a);
  }

  lemma BlockSafety(s: Sched, w: nat, flag: Flag, timed: bool)
    requires Inv(s) && Possible(s, DoBlock(w, flag, timed))
    ensures Inv(Apply(s, DoBlock(w, flag, timed))) <==> Safe(s, DoBlock(w, flag, timed))
  {
    var c := s.current.value;
    BlockIsSafeIff(s, w, flag, timed);
    assert PlacedRight(s, c);
    if forall v :: c !in Waiters(s, v) {
      if s.threads[c].stat != READY {
        OnNoList(s, c);
      }
    } else {
      var v :| c in Waiters(s, v);
      assert WaitList(v) in s.lists;
    }
  }

  lemma StepKeeps(s: Sched, a: Step)
    requires Inv(s) && Enabled(s, a)
    ensures Inv(Apply(s, a))
  {
    match a
    case DoStart(t) => StartKeeps(s, t);
    case DoSuspend => SuspendSelfKeeps(s);
    case DoResume(t) => ResumeKeeps(s, t);
    case DoTimeout(t) => ReleaseKeeps(s, t, ETIMEOUT);
    case DoSleep => SleepKeeps(s);
    case DoBlock(w, flag, timed) => BlockKeeps(s, w, flag, timed);
    case DoWake(w) =>
      if Waiters(s, w) != [] {
        ResumeKeeps(s, Waiters(s, w)[0]);
      }
    case DoChangePriority(t, p) => ChangePriorityKeeps(s, t, p);
    case DoClose(t) => CloseKeeps(s, t);
    case DoSchedule => ScheduleKeeps(s);
    case DoStartScheduler => StartSchedulerKeeps(s);
    case DoEnter => LockKeeps(s, s.lockNest + 1);
    case DoExit => ExitKeeps(s);
    case DoSlice => TimeSliceKeeps(s);
    case DoSetError(t, e) => ErrorKeeps(s, t, e);
    case DoInit(t) => StartedIsPlaced(s, t);
    case DoUnlink(t) => UnlinkIsSafeIff(s, t);
    case DoInsert(t) => InsertIsSafeIff(s, t);
    case DoRemove(t) => RemoveKeeps(s, t);
    case DoStopTimer(t) => StopTimerKeeps(s, t);
    case DoMark(t) => MarkKeeps(s, t);
  }

  lemma ExitKeeps(s: Sched)
    requires Inv(s) && s.current.Some?
    ensures Inv(ExitCritical(s))
  {
    if s.lockNest <= 1 {
      LockKeeps(s, 0);
      ScheduleKeeps(s.(lockNest := 0));
    } else {
      LockKeeps(s, s.lockNest - 1);
    }
  }

  lemma ErrorKeeps(s: Sched, t: Tid, e: Error)
    requires Inv(s) && t in s.threads
    ensures Inv(Update(s, t, s.threads[t].(error := e)))
  {
    assert PlacedRight(s, t);
    UpdateInPlace(s, t, s.threads[t].(error := e));
  }

  /** All steps are possible and safe when they are taken. */
  ghost predicate Runs(s: Sched, steps: seq<Step>)
    requires Inv(s)
    decreases |steps|
  {
    steps != [] ==> Possible(s, steps[0]) && Safe(s, steps[0]) && Runs(Perform(s, steps[0]), steps[1..])
  }

  function Run(s: Sched, steps: seq<Step>): (r: Sched)
    requires Inv(s) && Runs(s, steps)
    ensures Inv(r)
    decreases |steps|
  {
    if steps == [] then s else Run(Perform(s, steps[0]), steps[1..])
  }

  /** The state after rt_system_scheduler_init with every thread still in the initial state. */
  ghost predicate Initial(s: Sched) {
    && Shaped(s) && s.current.None?
    && (forall h <- s.lists :: s.lists[h] == []) && s.limbo == {}
    && forall t <- s.threads :: s.threads[t].stat == INIT && !s.threads[t].timer
  }

  lemma InitialInv(s: Sched)
    requires Initial(s)
    ensures Inv(s)
  {
  }

  /** All steps are possible when they are taken, and every state on the way has all threads placed right. */
  ghost predicate AlwaysPlaced(s: Sched, steps: seq<Step>)
    decreases |steps|
  {
    Inv(s) && (steps != [] ==> Possible(s, steps[0]) && AlwaysPlaced(Apply(s, steps[0]), steps[1..]))
  }

  /** A run of possible steps, the sections of all calls interleaved in any way, keeps every thread placed right at
      every moment if and only if each of its steps is safe when it is taken. */
  lemma {:induction false} PlacementHoldsIff(s: Sched, steps: seq<Step>)
    requires Inv(s)
    ensures AlwaysPlaced(s, steps) <==> Runs(s, steps)
    decreases |steps|
  {
    if steps != [] && Possible(s, steps[0]) {
      StepIsSafeIff(s, steps[0]);
      if Safe(s, steps[0]) {
        PlacementHoldsIff(Apply(s, steps[0]), steps[1..]);
      }
    }
  }

  /** In every state a run of safe steps reaches: a started thread is on a ready queue exactly when it is ready,
      not running and not just taken off for deletion, then only on that of its current priority and once; a
      thread on a wait list is suspended and on no other list; and a linked thread timer belongs to a suspended
      thread, so the assertion at the head of rt_thread_timeout cannot fail. */
  lemma EveryThreadIsInItsPlace(s: Sched, steps: seq<Step>, t: Tid)
    requires Initial(s) && Inv(s) && Runs(s, steps) && t in Run(s, steps).threads
    ensures var r := Run(s, steps);
            && (forall p :: t in Queue(r, p) <==>
                  r.threads[t].stat == READY && r.current != Some(t) && t !in r.limbo && r.threads[t].currentPriority == p)
            && (forall w :: t in Waiters(r, w) ==> r.threads[t].stat == SUSPEND)
            && (forall w, w' :: t in Waiters(r, w) && t in Waiters(r, w') ==> w == w')
            && (r.threads[t].timer ==> r.threads[t].stat == SUSPEND)
            && (forall h <- r.lists :: NoDup(r.lists[h]))
  {
    assert PlacedRight(Run(s, steps), t);
  }
}
