/** What each kernel step does, said without the surgery on lists and bitmaps: the record of every
    thread, every ready queue, every wait list and the choice of the running thread, as tables over the steps.
    This is the frame the ipc objects rely on while other threads, interrupts and timeouts run in between. */
module Steps {
  import opened Options
  import opened Seqs
  import opened Scheduler
  import opened Threads

  predicate Running(k: Sched) {
    k.current.Some? && k.current.value in k.threads && k.threads[k.current.value].stat == READY
  }

  // ---------- single operations ----------

  lemma ReadyIsNotWaiting(s: Sched, t: Tid, w: nat)
    requires Inv(s) && t in s.threads && s.threads[t].stat != SUSPEND
    ensures Without(Waiters(s, w), t) == Waiters(s, w)
  {
    assert PlacedRight(s, t);
  }

  lemma ReleaseWaiters(s: Sched, t: Tid, e: Error, w: nat)
    requires Inv(s) && t in s.threads
    ensures Waiters(Release(s, t, e), w) == Without(Waiters(s, w), t)
  {
  }

  /** A release changes one record, and neither the running thread nor what lists there are. */
  lemma ReleaseEffect(s: Sched, t: Tid, e: Error)
    requires Shaped(s) && t in s.threads
    ensures var r := Release(s, t, e);
            && r.threads == s.threads[t := s.threads[t].(stat := READY, timer := false, error := e)]
            && r.current == s.current && r.lists.Keys == s.lists.Keys && r.priorityMax == s.priorityMax
            && r.lockNest == s.lockNest && r.limbo == s.limbo - {t}
  {
  }

  /** rt_schedule changes no record. */
  lemma ScheduleEffect(s: Sched)
    requires Inv(s) && s.current.Some?
    ensures var r := Schedule(s);
            && r.threads == s.threads && r.lists.Keys == s.lists.Keys && r.priorityMax == s.priorityMax
            && r.lockNest == s.lockNest
  {
    if s.lockNest == 0 && Highest(s).Some? {
      var c := s.current.value;
      QueuedIsReady(s, Highest(s).value);
      assert s.threads[c].stat == READY ==> s.threads[c := s.threads[c].(stat := READY)] == s.threads;
    }
  }

  lemma ScheduleWaiters(s: Sched, w: nat)
    requires Inv(s) && s.current.Some?
    ensures Waiters(Schedule(s), w) == Waiters(s, w)
  {
    if s.lockNest == 0 && Highest(s).Some? {
      var c, p := s.current.value, Highest(s).value;
      if s.threads[c].stat == READY && s.threads[c].currentPriority < p {
        ReadyIsNotWaiting(s, c, w);
      } else {
        QueuedIsReady(s, p);
        ReadyIsNotWaiting(s, Queue(s, p)[0], w);
      }
    }
  }

  /** What the suspending half of a blocking call does. */
  lemma SuspendEffect(s: Sched, w: nat)
    requires Inv(s) && s.current.Some? && s.threads[s.current.value].stat == READY
    ensures var c := s.current.value;
            var r := SuspendSelf(Update(s, c, s.threads[c].(error := EOK)));
            && Waiters(r, w) == Waiters(s, w)
            && r.threads == s.threads[c := s.threads[c].(stat := SUSPEND, error := EOK, timer := false)]
            && r.current == s.current && r.lists.Keys == s.lists.Keys && r.priorityMax == s.priorityMax
            && r.lockNest == s.lockNest && r.limbo == s.limbo
  {
    ReadyIsNotWaiting(s, s.current.value, w);
  }

  /** What a blocking call does to its list and to the thread's record. */
  lemma BlockEffect(s: Sched, w: nat, flag: Flag, timed: bool)
    requires Inv(s) && s.current.Some? && WaitList(w) in s.lists && s.threads[s.current.value].stat == READY
    ensures forall t <- Waiters(s, w) :: t in s.threads
    ensures var c, r := s.current.value, Block(s, w, flag, timed);
            && Waiters(r, w) == InsertAt(Waiters(s, w), WaitPos(s, w, flag), c) && c !in Waiters(s, w)
            && r.threads == s.threads[c := s.threads[c].(stat := SUSPEND, error := EOK, timer := timed)]
            && r.current == s.current && r.lists.Keys == s.lists.Keys && r.priorityMax == s.priorityMax
            && r.lockNest == s.lockNest && r.limbo == s.limbo
  {
    hide PlacedRight;
    var c := s.current.value;
    RunningDoesNotWait(s, c);
    SuspendEffect(s, w);
    var s1 := SuspendSelf(Update(s, c, s.threads[c].(error := EOK)));
    assert Block(s, w, flag, timed) == Join(s1, w, flag, timed);
    SamePlace(s, s1, w, flag);
  }

  lemma SamePlace(s: Sched, r: Sched, w: nat, flag: Flag)
    requires Shaped(s) && Shaped(r) && s.current.Some? && r.current == s.current && Waiters(r, w) == Waiters(s, w)
    requires forall t <- Waiters(s, w) :: t in s.threads
    requires r.threads.Keys == s.threads.Keys
    requires forall t <- s.threads :: r.threads[t].currentPriority == s.threads[t].currentPriority
    ensures WaitPos(r, w, flag) == WaitPos(s, w, flag)
  {
    SamePrioritiesSamePos(Waiters(s, w), s.threads, r.threads, s.threads[s.current.value].currentPriority);
  }

  lemma {:induction false} SamePrioritiesSamePos(q: seq<Tid>, threads: map<Tid, Thread>, threads': map<Tid, Thread>, p: nat)
    requires forall t <- q :: t in threads && t in threads' && threads[t].currentPriority == threads'[t].currentPriority
    ensures PriorityPos(q, threads, p) == PriorityPos(q, threads', p)
  {
    if q != [] {
      SamePrioritiesSamePos(q[1..], threads, threads', p);
    }
  }

  lemma RunningDoesNotWait(k: Sched, t: Tid)
    requires Inv(k) && t in k.threads && k.threads[t].stat != SUSPEND
    ensures forall v :: t !in Waiters(k, v)
  {
    assert PlacedRight(k, t);
  }

  lemma WaitersAreNotInitial(k: Sched, w: nat)
    requires Inv(k)
    ensures forall t <- Waiters(k, w) :: t in k.threads && k.threads[t].stat == SUSPEND
  {
    forall t | t in Waiters(k, w)
      ensures t in k.threads && k.threads[t].stat == SUSPEND
    {
      assert PlacedRight(k, t);
    }
  }

  lemma WakeFirstEffect(k: Sched, id: nat)
    requires Inv(k) && Waiters(k, id) != []
    ensures var t, r := Waiters(k, id)[0], WakeFirst(k, id);
            && t in k.threads && Inv(r) && r.lists.Keys == k.lists.Keys && r.priorityMax == k.priorityMax && r.current == k.current
            && r.threads == k.threads[t := k.threads[t].(stat := READY, timer := false)]
            && forall v :: Waiters(r, v) == if v == id then Waiters(k, id)[1..] else Waiters(k, v)
  {
    var t := Waiters(k, id)[0];
    assert t in Waiters(k, id) && PlacedRight(k, t);
    ReleaseEffect(k, t, k.threads[t].error);
    ResumeKeeps(k, t);
    forall v
      ensures Waiters(WakeFirst(k, id), v) == if v == id then Waiters(k, id)[1..] else Waiters(k, v)
    {
      ReleaseWaiters(k, t, k.threads[t].error, v);
      HeadWithout(Waiters(k, id));
      assert v != id ==> t !in Waiters(k, v);
    }
  }

  // ---------- records ----------

  /** The one thread a step concerns. */
  function Subject(s: Sched, a: Step): Option<Tid> {
    match a
    case DoSuspend => s.current
    case DoSleep => s.current
    case DoBlock(_, _, _) => s.current
    case DoSlice => s.current
    case DoWake(w) => if Waiters(s, w) != [] then Some(Waiters(s, w)[0]) else None
    case DoSchedule => None
    case DoStartScheduler => None
    case DoEnter => None
    case DoExit => None
    case _ => Some(a.t)
  }

  /** The life of one thread: what a step makes of its subject. */
  function RecordAfter(a: Step, r: Thread): Thread {
    match a
    case DoStart(_) => r.(stat := READY, currentPriority := r.initPriority)
    case DoInit(_) => r.(stat := SUSPEND, currentPriority := r.initPriority)
    case DoSuspend => if r.stat == READY then r.(stat := SUSPEND) else r
    case DoResume(_) => if r.stat == SUSPEND then r.(stat := READY, timer := false) else r
    case DoUnlink(_) => r.(timer := false)
    case DoInsert(_) => r.(stat := READY)
    case DoTimeout(_) => r.(stat := READY, timer := false, error := ETIMEOUT)
    case DoSleep => r.(stat := SUSPEND, timer := true)
    case DoBlock(_, _, timed) => r.(stat := SUSPEND, timer := timed, error := EOK)
    case DoWake(_) => r.(stat := READY, timer := false)
    case DoChangePriority(_, p) => r.(currentPriority := p)
    case DoClose(_) => r.(stat := CLOSE, timer := false)
    case DoStopTimer(_) => r.(timer := false)
    case DoMark(_) => r.(stat := CLOSE)
    case DoSlice =>
      if r.remainingTick == 1 then r.(remainingTick := r.initTick)
      else r.(remainingTick := if r.remainingTick == 0 then 0xFFFF_FFFF else r.remainingTick - 1)
    case DoSetError(_, e) => r.(error := e)
    case _ => r
  }

  function RecordsAfter(s: Sched, a: Step): map<Tid, Thread> {
    var t := Subject(s, a);
    if t.Some? && t.value in s.threads then s.threads[t.value := RecordAfter(a, s.threads[t.value])] else s.threads
  }

  /** r has the records of the table, and the lists and priorities there were. */
  predicate Framed(s: Sched, a: Step, r: Sched) {
    r.threads == RecordsAfter(s, a) && r.lists.Keys == s.lists.Keys && r.priorityMax == s.priorityMax
  }

  predicate Switches(a: Step) {
    a.DoSchedule? || a.DoStartScheduler? || a.DoExit? || a.DoSlice?
  }

  /** The steps that make their subject ready and put it on its queue. */
  predicate Queues(a: Step) {
    a.DoStart? || a.DoResume? || a.DoInsert? || a.DoTimeout? || a.DoWake? || a.DoChangePriority?
  }

  /** Every step changes exactly the record the table says, to exactly what it says. */
  lemma StepRecords(s: Sched, a: Step)
    requires Inv(s) && Enabled(s, a)
    ensures Framed(s, a, Apply(s, a))
  {
    if Switches(a) {
      SwitchRecords(s, a);
    } else if Queues(a) {
      ReleasedRecords(s, a);
    } else {
      OtherRecords(s, a);
    }
  }

  lemma SwitchRecords(s: Sched, a: Step)
    requires Inv(s) && Enabled(s, a) && Switches(a)
    ensures Framed(s, a, Apply(s, a))
  {
    if a.DoSchedule? {
      ScheduleEffect(s);
    } else if a.DoExit? && s.lockNest <= 1 {
      LockKeeps(s, 0);
      ScheduleEffect(s.(lockNest := 0));
    } else if a.DoSlice? {
      var c := s.current.value;
      var r := s.threads[c].(remainingTick := s.threads[c].initTick);
      assert PlacedRight(s, c);
      UpdateInPlace(s, c, r);
      ScheduleEffect(Update(s, c, r));
    }
  }

  lemma ReleasedRecords(s: Sched, a: Step)
    requires Inv(s) && Enabled(s, a) && Queues(a)
    ensures Framed(s, a, Apply(s, a))
  {
    hide PlacedRight, ListsOk;
    match a
    case DoStart(t) => StartedRecords(s, t);
    case DoWake(w) =>
      if Waiters(s, w) != [] {
        WakeFirstEffect(s, w);
      }
    case DoResume(t) => ReleaseEffect(s, t, s.threads[t].error);
    case DoTimeout(t) => ReleaseEffect(s, t, ETIMEOUT);
    case DoInsert(t) =>
    case DoChangePriority(t, p) => ChangedRecords(s, t, p);
  }

  lemma StartedRecords(s: Sched, t: Tid)
    requires Inv(s) && Enabled(s, DoStart(t))
    ensures Framed(s, DoStart(t), StartThread(s, t))
  {
    assert PlacedRight(s, t);
    ReleaseEffect(InitThread(s, t), t, s.threads[t].error);
  }

  lemma ChangedRecords(s: Sched, t: Tid, p: nat)
    requires Inv(s) && Enabled(s, DoChangePriority(t, p))
    ensures Framed(s, DoChangePriority(t, p), ChangePriority(s, t, p))
  {
  }

  lemma OtherRecords(s: Sched, a: Step)
    requires Inv(s) && Enabled(s, a) && !Switches(a) && !Queues(a)
    ensures Framed(s, a, Apply(s, a))
  {
    assert s.current.Some? ==> PlacedRight(s, s.current.value);
    if a.DoBlock? {
      BlockEffect(s, a.w, a.flag, a.timed);
    } else if a.DoClose? {
      CloseIs(s, a.t);
    }
  }

  /** Kernel steps other than a priority change keep every priority, but a startup sets the initial one. */
  predicate SamePriorities(s: Sched, r: Sched, a: Step) {
    && r.priorityMax == s.priorityMax && r.threads.Keys == s.threads.Keys
    && forall t <- s.threads ::
         && r.threads[t].initPriority == s.threads[t].initPriority
         && r.threads[t].currentPriority ==
              if a == DoStart(t) || a == DoInit(t) then s.threads[t].initPriority else s.threads[t].currentPriority
  }

  lemma StepPriorities(s: Sched, a: Step)
    requires Inv(s) && Enabled(s, a) && !a.DoChangePriority?
    ensures SamePriorities(s, Apply(s, a), a)
  {
    hide PlacedRight, ListsOk, SamePriorities, Framed;
    StepRecords(s, a);
    TablePriorities(s, a, Apply(s, a));
  }

  lemma TablePriorities(s: Sched, a: Step, r: Sched)
    requires Framed(s, a, r) && !a.DoChangePriority?
    ensures SamePriorities(s, r, a)
  {
    hide Subject, RecordAfter;
    SubjectIs(s, a);
    var t := Subject(s, a);
    if t.Some? && t.value in s.threads {
      RecordPriority(a, s.threads[t.value]);
    }
  }

  lemma RecordPriority(a: Step, x: Thread)
    requires !a.DoChangePriority?
    ensures RecordAfter(a, x).initPriority == x.initPriority
    ensures RecordAfter(a, x).currentPriority == if a.DoStart? || a.DoInit? then x.initPriority else x.currentPriority
  {
  }

  lemma SubjectIs(s: Sched, a: Step)
    ensures a.DoStart? || a.DoInit? ==> Subject(s, a) == Some(a.t)
  {
  }

  lemma StepListKeys(s: Sched, a: Step)
    requires Inv(s) && Enabled(s, a)
    ensures Apply(s, a).lists.Keys == s.lists.Keys
  {
    StepRecords(s, a);
  }

  /** A ready thread stays ready through every step but its own suspension and its deletion. */
  lemma StepStaysReady(s: Sched, a: Step, t: Tid)
    requires Inv(s) && Enabled(s, a) && t in s.threads && s.threads[t].stat == READY
    requires a.DoSuspend? || a.DoSleep? || a.DoBlock? ==> s.current != Some(t)
    requires a != DoClose(t) && a != DoMark(t) && (a.DoSetError? ==> a.t != t)
    ensures var r := Apply(s, a); t in r.threads && r.threads[t].stat == READY && r.threads[t].error == s.threads[t].error
  {
    assert PlacedRight(s, t);
    StepRecords(s, a);
    if a.DoWake? && Waiters(s, a.w) != [] {
      assert Waiters(s, a.w)[0] in Waiters(s, a.w) && PlacedRight(s, Waiters(s, a.w)[0]);
    }
  }

  // ---------- wait lists ----------

  /** The thread a step takes off whatever wait list it is on. */
  function Leaver(s: Sched, a: Step): Option<Tid> {
    match a
    case DoResume(t) => Some(t)
    case DoUnlink(t) => Some(t)
    case DoTimeout(t) => Some(t)
    case DoClose(t) => Some(t)
    case DoRemove(t) => Some(t)
    case DoWake(w) => if Waiters(s, w) != [] then Some(Waiters(s, w)[0]) else None
    case _ => None
  }

  function Leave(q: seq<Tid>, t: Option<Tid>): seq<Tid> {
    if t.Some? then Without(q, t.value) else q
  }

  /** Every kernel step but a block on list w leaves the list as it was, less the thread that leaves. */
  lemma StepWaiters(s: Sched, a: Step, w: nat)
    requires Inv(s) && Enabled(s, a) && (a.DoBlock? ==> a.w != w)
    ensures Waiters(Apply(s, a), w) == Leave(Waiters(s, w), Leaver(s, a))
  {
    if Switches(a) {
      SwitchWaiters(s, a, w);
    } else if Queues(a) {
      ReleasedWaiters(s, a, w);
    } else {
      OtherWaiters(s, a, w);
    }
  }

  lemma SwitchWaiters(s: Sched, a: Step, w: nat)
    requires Inv(s) && Enabled(s, a) && Switches(a)
    ensures Waiters(Apply(s, a), w) == Waiters(s, w)
  {
    match a
    case DoSchedule => ScheduleWaiters(s, w);
    case DoStartScheduler =>
      if Highest(s).Some? {
        QueuedIsReady(s, Highest(s).value);
        ReadyIsNotWaiting(s, Queue(s, Highest(s).value)[0], w);
      }
    case DoExit =>
      if s.lockNest <= 1 {
        LockKeeps(s, 0);
        ScheduleWaiters(s.(lockNest := 0), w);
      }
    case DoSlice =>
      var c := s.current.value;
      assert PlacedRight(s, c);
      var r := s.threads[c].(remainingTick := s.threads[c].initTick);
      UpdateInPlace(s, c, r);
      ScheduleWaiters(Update(s, c, r), w);
  }

  lemma ReleasedWaiters(s: Sched, a: Step, w: nat)
    requires Inv(s) && Enabled(s, a) && Queues(a)
    ensures Waiters(Apply(s, a), w) == Leave(Waiters(s, w), Leaver(s, a))
  {
    match a
    case DoStart(t) =>
      StartedIsPlaced(s, t);
      ReadyIsNotWaiting(s, t, w);
      ReleaseWaiters(InitThread(s, t), t, s.threads[t].error, w);
    case DoResume(t) =>
      if s.threads[t].stat != SUSPEND {
        ReadyIsNotWaiting(s, t, w);
      } else {
        ReleaseWaiters(s, t, s.threads[t].error, w);
      }
    case DoTimeout(t) => ReleaseWaiters(s, t, ETIMEOUT, w);
    case DoWake(v) =>
      if Waiters(s, v) != [] {
        var t := Waiters(s, v)[0];
        assert t in Waiters(s, v) && PlacedRight(s, t);
        ReleaseWaiters(s, t, s.threads[t].error, w);
      }
    case DoInsert(t) =>
    case DoChangePriority(t, p) =>
      if s.threads[t].stat == READY {
        ReadyIsNotWaiting(s, t, w);
      }
  }

  lemma OtherWaiters(s: Sched, a: Step, w: nat)
    requires Inv(s) && Enabled(s, a) && !Switches(a) && !Queues(a) && (a.DoBlock? ==> a.w != w)
    ensures Waiters(Apply(s, a), w) == Leave(Waiters(s, w), Leaver(s, a))
  {
    if s.current.Some? && s.threads[s.current.value].stat == READY {
      ReadyIsNotWaiting(s, s.current.value, w);
    }
    if a.DoClose? {
      CloseIs(s, a.t);
    } else if a.DoRemove? && s.threads[a.t].stat == INIT {
      ReadyIsNotWaiting(s, a.t, w);
    }
  }

  /** The error of a thread that stays on its wait list is left alone. */
  lemma StepErrors(s: Sched, a: Step, w: nat)
    requires Inv(s) && Enabled(s, a)
    requires a.DoSetError? ==> a.t !in Waiters(s, w)
    ensures var r := Apply(s, a);
            forall t | t in Waiters(s, w) && Leaver(s, a) != Some(t) ::
              t in s.threads && t in r.threads && r.threads[t].error == s.threads[t].error
  {
    WaitersAreNotInitial(s, w);
    StepRecords(s, a);
  }

  /** A waiter that leaves other than by deletion or in the middle of a resume becomes ready. */
  lemma LeaverIsReady(s: Sched, a: Step, t: Tid, w: nat)
    requires Inv(s) && Enabled(s, a) && !a.DoClose? && !a.DoRemove? && !a.DoUnlink? && t in Waiters(s, w) && Leaver(s, a) == Some(t)
    ensures var r := Apply(s, a); t in r.threads && r.threads[t].stat == READY
  {
    assert PlacedRight(s, t);
    StepRecords(s, a);
  }

  // ---------- ready queues ----------

  /** The steps that leave the queues alone. */
  predicate StaysPut(s: Sched, a: Step) {
    a.DoSetError? || a.DoInit? || a.DoStopTimer? || (a.DoResume? && a.t in s.threads && s.threads[a.t].stat != SUSPEND)
  }

  function QueueAfter(s: Sched, a: Step, p: nat): seq<Tid> {
    var t := Subject(s, a);
    if StaysPut(s, a) || t.None? || t.value !in s.threads then Queue(s, p)
    else
      var r := RecordAfter(a, s.threads[t.value]);
      Without(Queue(s, p), t.value)
      + if Queues(a) && r.stat == READY && r.currentPriority == p && s.current != t then [t.value] else []
  }

  /** A step that does not switch leaves the running thread and every ready queue as they were, but for
      one thread: it leaves its old place, and if it is then ready and not running, it goes to the end of
      the queue of its priority. */
  lemma StepReadyQueues(s: Sched, a: Step, p: nat)
    requires Inv(s) && Enabled(s, a) && !Switches(a)
    ensures Apply(s, a).current == s.current
    ensures Queue(Apply(s, a), p) == QueueAfter(s, a, p)
  {
    if Queues(a) {
      ReleasedQueue(s, a, p);
    } else {
      OtherQueue(s, a, p);
    }
  }

  lemma ReleasedQueue(s: Sched, a: Step, p: nat)
    requires Inv(s) && Enabled(s, a) && Queues(a)
    ensures Apply(s, a).current == s.current && Queue(Apply(s, a), p) == QueueAfter(s, a, p)
  {
    match a
    case DoStart(t) => StartedQueue(s, t, p);
    case DoWake(w) => WokenQueue(s, w, p);
    case DoTimeout(t) => MovedQueue(s, s, t, ETIMEOUT, p);
    case DoResume(t) => ResumedQueue(s, t, p);
    case DoInsert(t) => InsertedQueue(s, t, p);
    case DoChangePriority(t, q) => ChangedQueue(s, t, q, p);
  }

  lemma StartedQueue(s: Sched, t: Tid, p: nat)
    requires Inv(s) && Enabled(s, DoStart(t))
    ensures StartThread(s, t).current == s.current && Queue(StartThread(s, t), p) == QueueAfter(s, DoStart(t), p)
  {
    StartedIsPlaced(s, t);
    MovedQueue(s, InitThread(s, t), t, s.threads[t].error, p);
  }

  lemma ResumedQueue(s: Sched, t: Tid, p: nat)
    requires Inv(s) && Enabled(s, DoResume(t))
    ensures ResumeThread(s, t).current == s.current && Queue(ResumeThread(s, t), p) == QueueAfter(s, DoResume(t), p)
  {
    if s.threads[t].stat == SUSPEND {
      MovedQueue(s, s, t, s.threads[t].error, p);
    }
  }

  lemma WokenQueue(s: Sched, w: nat, p: nat)
    requires Inv(s) && Enabled(s, DoWake(w))
    ensures Apply(s, DoWake(w)).current == s.current && Queue(Apply(s, DoWake(w)), p) == QueueAfter(s, DoWake(w), p)
  {
    if Waiters(s, w) != [] {
      WaitersAreNotInitial(s, w);
      MovedQueue(s, s, Waiters(s, w)[0], s.threads[Waiters(s, w)[0]].error, p);
    }
  }

  lemma InsertedQueue(s: Sched, t: Tid, p: nat)
    requires Inv(s) && Enabled(s, DoInsert(t))
    ensures Insert(s, t).current == s.current && Queue(Insert(s, t), p) == QueueAfter(s, DoInsert(t), p)
  {
    assert t !in Queue(s, p);
  }

  lemma ChangedQueue(s: Sched, t: Tid, q: nat, p: nat)
    requires Inv(s) && Enabled(s, DoChangePriority(t, q))
    ensures var r := ChangePriority(s, t, q); r.current == s.current && Queue(r, p) == QueueAfter(s, DoChangePriority(t, q), p)
  {
    assert PlacedRight(s, t);
  }

  lemma OtherQueue(s: Sched, a: Step, p: nat)
    requires Inv(s) && Enabled(s, a) && !Switches(a) && !Queues(a)
    ensures Apply(s, a).current == s.current && Queue(Apply(s, a), p) == QueueAfter(s, a, p)
  {
    hide ListsOk;
    assert s.current.Some? ==> PlacedRight(s, s.current.value);
    if a.DoClose? {
      CloseIs(s, a.t);
    } else if a.DoRemove? || a.DoUnlink? || a.DoMark? {
      assert PlacedRight(s, a.t);
    }
  }

  lemma MovedQueue(s: Sched, s1: Sched, t: Tid, e: Error, p: nat)
    requires Shaped(s1) && t in s1.threads && s1.lists == s.lists
    ensures Release(s1, t, e).current == s1.current
    ensures Queue(Release(s1, t, e), p) ==
              Without(Queue(s, p), t) + if s1.current != Some(t) && s1.threads[t].currentPriority == p then [t] else []
  {
  }

  // ---------- the running thread ----------

  predicate SomebodyReady(s: Sched)
    requires s.current.Some? && s.current.value in s.threads
  {
    s.threads[s.current.value].stat == READY || Highest(s).Some?
  }

  /** Whenever the scheduler is unlocked and asked, a best ready thread runs next: after rt_schedule,
      after the outermost rt_exit_critical, at the end of a time slice, and at rt_system_scheduler_start.
      Inside a time slice and inside nested critical sections nothing is switched. */
  lemma BestThreadRuns(s: Sched, a: Step)
    requires Inv(s) && Enabled(s, a)
    ensures a.DoSchedule? && s.lockNest == 0 && SomebodyReady(s) ==> RunsBest(Apply(s, a))
    ensures a.DoExit? && s.lockNest <= 1 && SomebodyReady(s) ==> RunsBest(Apply(s, a)) && Apply(s, a).lockNest == 0
    ensures a.DoExit? && s.lockNest > 1 ==> Apply(s, a) == s.(lockNest := s.lockNest - 1)
    ensures a.DoSchedule? && s.lockNest != 0 ==> Apply(s, a) == s
    ensures a.DoSlice? && s.lockNest == 0 && SomebodyReady(s) && s.threads[s.current.value].remainingTick == 1 ==> RunsBest(Apply(s, a))
    ensures a.DoSlice? && s.threads[s.current.value].remainingTick != 1 ==>
              Apply(s, a).current == s.current && Apply(s, a).lists == s.lists
    ensures a.DoStartScheduler? && Highest(s).Some? ==> RunsBest(Apply(s, a))
  {
    if a.DoSchedule? && s.lockNest == 0 && SomebodyReady(s) {
      ScheduleRunsBest(s);
    } else if a.DoExit? && s.lockNest <= 1 && SomebodyReady(s) {
      LockKeeps(s, 0);
      SameHighest(s, s.(lockNest := 0), 0);
      ScheduleRunsBest(s.(lockNest := 0));
      ScheduleEffect(s.(lockNest := 0));
    } else if a.DoSlice? && s.lockNest == 0 && SomebodyReady(s) && s.threads[s.current.value].remainingTick == 1 {
      var c := s.current.value;
      var s1 := Update(s, c, s.threads[c].(remainingTick := s.threads[c].initTick));
      assert PlacedRight(s, c);
      UpdateInPlace(s, c, s1.threads[c]);
      SameHighest(s, s1, 0);
      ScheduleRunsBest(s1);
    } else if a.DoStartScheduler? && Highest(s).Some? {
      StartRunsBest(s);
    }
  }

  lemma {:induction false} SameHighest(s: Sched, r: Sched, p: nat)
    requires r.lists == s.lists && r.priorityMax == s.priorityMax
    ensures HighestFrom(r, p) == HighestFrom(s, p)
    decreases s.priorityMax - p
  {
    if p < s.priorityMax {
      SameHighest(s, r, p + 1);
    }
  }

  lemma StartRunsBest(s: Sched)
    requires Inv(s) && s.current.None? && Highest(s).Some?
    ensures RunsBest(StartScheduler(s))
  {
    var p := Highest(s).value;
    QueuedIsReady(s, p);
    forall q | Queue(StartScheduler(s), q) != []
      ensures p <= q
    {
      assert ReadyList(q) in s.lists && Queue(s, q) != [];
      var t := Queue(s, q)[0];
      assert t in Queue(s, q) && PlacedRight(s, t);
    }
  }

  // ---------- calls in several sections ----------

  /** On no list, suspended or in the middle of a deletion: what the first section of a resume and of a deletion leave. */
  predicate Adrift(s: Sched, t: Tid) {
    && t in s.threads && (s.threads[t].stat == SUSPEND || t in s.limbo)
    && forall h <- s.lists :: t !in s.lists[h]
  }

  lemma UnlinkSetsAdrift(s: Sched, t: Tid)
    requires Inv(s) && t in s.threads && s.threads[t].stat == SUSPEND
    ensures Safe(s, DoUnlink(t)) && Inv(Unlink(s, t)) && Adrift(Unlink(s, t), t) && !Unlink(s, t).threads[t].timer
    ensures Insert(Unlink(s, t), t) == ResumeThread(s, t)
  {
    UnlinkIsSafeIff(s, t);
    assert PlacedRight(s, t);
    assert Insert(Unlink(s, t), t) == Release(s, t, s.threads[t].error);
  }

  /** Nobody but the subject of a step leaves limbo. */
  lemma StepLimbo(s: Sched, a: Step, t: Tid)
    requires Inv(s) && Enabled(s, a) && t in s.limbo && t in s.threads && Subject(s, a) != Some(t)
    ensures t in Apply(s, a).limbo
  {
    hide ListsOk;
    assert PlacedRight(s, t);
    if a.DoSlice? {
      var c := s.current.value;
      assert PlacedRight(s, c);
      UpdateInPlace(s, c, s.threads[c].(remainingTick := s.threads[c].initTick));
    } else if a.DoWake? {
      WaitersAreNotInitial(s, a.w);
    }
  }

  /** A thread that is on no wait list gets on none but by blocking itself. */
  lemma StepLists(s: Sched, a: Step, t: Tid)
    requires Inv(s) && Enabled(s, a) && (a.DoBlock? ==> s.current != Some(t)) && forall w :: t !in Waiters(s, w)
    ensures forall w :: t !in Waiters(Apply(s, a), w)
  {
    forall w
      ensures t !in Waiters(Apply(s, a), w)
    {
      assert t !in Waiters(s, w);
      if a.DoBlock? && a.w == w {
        BlockEffect(s, w, a.flag, a.timed);
      } else {
        StepWaiters(s, a, w);
      }
    }
  }

  /** A blocking call of a thread that is suspended already. */
  lemma SecondBlockLists(s: Sched, a: Step, t: Tid)
    requires Inv(s) && Possible(s, a) && Safe(s, a) && !Enabled(s, a) && Adrift(s, t) && s.current != Some(t)
    ensures var r := Apply(s, a);
            t in r.threads && r.threads[t] == s.threads[t] && r.limbo == s.limbo && forall w :: t !in Waiters(r, w)
  {
    assert forall w :: t !in Waiters(s, w);
  }

  lemma AdriftStays(s: Sched, a: Step, t: Tid)
    requires Inv(s) && Possible(s, a) && Safe(s, a) && Adrift(s, t) && Subject(s, a) != Some(t)
    ensures Inv(Apply(s, a)) && Adrift(Apply(s, a), t) && Apply(s, a).threads[t] == s.threads[t]
  {
    StepIsSafeIff(s, a);
    var r := Apply(s, a);
    if Enabled(s, a) {
      StepRecords(s, a);
      assert forall w :: t !in Waiters(s, w);
      StepLists(s, a, t);
      if t in s.limbo {
        StepLimbo(s, a, t);
      }
    } else {
      SecondBlockLists(s, a, t);
    }
    AdriftByPlace(r, t);
  }

  lemma AdriftByPlace(r: Sched, t: Tid)
    requires Inv(r) && t in r.threads && (r.threads[t].stat == SUSPEND || t in r.limbo)
    requires forall w :: t !in Waiters(r, w)
    ensures Adrift(r, t)
  {
    assert PlacedRight(r, t);
    OnNoList(r, t);
  }

  /** A run in which no step concerns t. */
  ghost predicate LeftAlone(s: Sched, steps: seq<Step>, t: Tid)
    requires Inv(s) && Runs(s, steps)
    decreases |steps|
  {
    steps != [] ==> Subject(s, steps[0]) != Some(t) && LeftAlone(Perform(s, steps[0]), steps[1..], t)
  }

  lemma {:induction false} AdriftThroughRun(s: Sched, steps: seq<Step>, t: Tid)
    requires Inv(s) && Runs(s, steps) && LeftAlone(s, steps, t) && Adrift(s, t)
    ensures Adrift(Run(s, steps), t) && Run(s, steps).threads[t] == s.threads[t]
    decreases |steps|
  {
    if steps != [] {
      AdriftStays(s, steps[0], t);
      AdriftThroughRun(Perform(s, steps[0]), steps[1..], t);
    }
  }

  /** A resume whose thread nobody else resumes, starts or deletes between its two sections is safe, whatever else
      runs in between. */
  lemma UndisturbedResumeIsSafe(s: Sched, steps: seq<Step>, t: Tid)
    requires Inv(s) && t in s.threads && s.threads[t].stat == SUSPEND
    requires Inv(Unlink(s, t)) && Runs(Unlink(s, t), steps) && LeftAlone(Unlink(s, t), steps, t)
    ensures var r := Run(Unlink(s, t), steps); t in r.threads && Safe(r, DoInsert(t)) && Inv(Apply(r, DoInsert(t)))
  {
    UnlinkSetsAdrift(s, t);
    AdriftThroughRun(Unlink(s, t), steps, t);
    InsertIsSafeIff(Run(Unlink(s, t), steps), t);
  }

  /** Likewise a deletion of a waiting or of a queued thread, with anything else in both gaps between its sections. */
  lemma UndisturbedDeletionIsSafe(s: Sched, first: seq<Step>, second: seq<Step>, t: Tid)
    requires Inv(s) && t in s.threads && (s.threads[t].stat == SUSPEND || InQueue(s, t))
    requires Inv(TakeOff(s, t)) && Runs(TakeOff(s, t), first) && LeftAlone(TakeOff(s, t), first, t)
    requires var u := Run(TakeOff(s, t), first);
             t in u.threads && Inv(StopTimer(u, t)) && Runs(StopTimer(u, t), second) && LeftAlone(StopTimer(u, t), second, t)
    ensures var r := Run(StopTimer(Run(TakeOff(s, t), first), t), second);
            t in r.threads && Safe(r, DoMark(t)) && Inv(Apply(r, DoMark(t)))
  {
    RemoveKeeps(s, t);
    assert Adrift(TakeOff(s, t), t);
    AdriftThroughRun(TakeOff(s, t), first, t);
    var u := StopTimer(Run(TakeOff(s, t), first), t);
    assert Adrift(u, t);
    AdriftThroughRun(u, second, t);
    MarkIsSafeIff(Run(u, second), t);
  }

  /** A run is a step and a run. */
  lemma OneMoreStep(s: Sched, a: Step, steps: seq<Step>)
    requires Inv(s) && Possible(s, a) && Safe(s, a) && Inv(Apply(s, a)) && Runs(Apply(s, a), steps)
    ensures Runs(s, [a] + steps) && Run(s, [a] + steps) == Run(Apply(s, a), steps)
  {
    assert ([a] + steps)[1..] == steps;
  }

  lemma ThreeSteps(s: Sched, a: Step, b: Step, c: Step)
    requires Inv(s) && Possible(s, a) && Safe(s, a)
    requires var u := Apply(s, a);
             && Inv(u) && Possible(u, b) && Safe(u, b)
             && var v := Apply(u, b);
             && Inv(v) && Possible(v, c) && Safe(v, c) && Inv(Apply(v, c))
    ensures var steps := [a] + ([b] + ([c] + [])); Runs(s, steps) && Run(s, steps) == Apply(Apply(Apply(s, a), b), c)
  {
    var u, v := Apply(s, a), Apply(Apply(s, a), b);
    var r := Apply(v, c);
    assert Runs(r, []) && Run(r, []) == r;
    OneMoreStep(v, c, []);
    OneMoreStep(u, b, [c] + []);
    OneMoreStep(s, a, [b] + ([c] + []));
  }

  lemma ResumeHalves(s: Sched, t: Tid)
    requires Inv(s) && t in s.threads && s.threads[t].stat == SUSPEND && s.current != Some(t)
    ensures var u := Unlink(s, t);
            && Inv(u) && t in u.threads && Safe(s, DoUnlink(t)) && Safe(u, DoUnlink(t))
            && var v := Unlink(u, t);
            && Inv(v) && t in v.threads && Safe(v, DoInsert(t))
            && var r := Insert(v, t);
            && Inv(r) && t in r.threads && t in Queue(r, s.threads[t].currentPriority) && !Inv(Insert(r, t))
  {
    var u, p := Unlink(s, t), s.threads[t].currentPriority;
    UnlinkSetsAdrift(s, t);
    UnlinkSetsAdrift(u, t);
    var v := Unlink(u, t);
    InsertIsSafeIff(v, t);
    var r := Insert(v, t);
    assert r.lists[ReadyList(p)] == v.lists[ReadyList(p)] + [t];
    assert t in r.lists[ReadyList(p)];
    InsertIsSafeIff(r, t);
  }

  /** An interrupt that resumes the same thread between the two sections: every step before is safe, but the second
      half of the interrupted resume links a node that is queued already. */
  lemma InterruptedResume(s: Sched, t: Tid)
    requires Inv(s) && t in s.threads && s.threads[t].stat == SUSPEND && s.current != Some(t)
    ensures var steps := [DoUnlink(t)] + ([DoUnlink(t)] + ([DoInsert(t)] + []));
            && Runs(s, steps)
            && var r := Run(s, steps);
            && t in r.threads && t in Queue(r, s.threads[t].currentPriority)
            && Possible(r, DoInsert(t)) && !Inv(Apply(r, DoInsert(t)))
  {
    ResumeHalves(s, t);
    ThreeSteps(s, DoUnlink(t), DoUnlink(t), DoInsert(t));
  }

  lemma DeletionHalves(s: Sched, t: Tid)
    requires Inv(s) && t in s.threads && s.threads[t].timer && s.current != Some(t)
    ensures var u := TakeOff(s, t);
            && Inv(u) && t in u.threads && u.threads[t].timer
            && var v := TimeoutThread(u, t);
            && Inv(v) && t in v.threads
            && var r := StopTimer(v, t);
            && Inv(r) && t in r.threads && t in Queue(r, s.threads[t].currentPriority) && !Inv(MarkClosed(r, t))
  {
    assert PlacedRight(s, t);
    RemoveKeeps(s, t);
    var u, p := TakeOff(s, t), s.threads[t].currentPriority;
    assert u.threads == s.threads && u.current == s.current;
    ReleaseKeeps(u, t, ETIMEOUT);
    var v := TimeoutThread(u, t);
    ReleaseEffect(u, t, ETIMEOUT);
    StopTimerKeeps(v, t);
    var r := StopTimer(v, t);
    assert PlacedRight(v, t) && t in Queue(v, p) && r.lists == v.lists && ReadyList(p) in r.lists && t in r.lists[ReadyList(p)];
    MarkIsSafeIff(r, t);
  }

  /** A timeout between the sections of a deletion: the thread is queued as ready, and then marked closed. */
  lemma InterruptedDeletion(s: Sched, t: Tid)
    requires Inv(s) && t in s.threads && s.threads[t].timer && s.current != Some(t)
    ensures var steps := [DoRemove(t)] + ([DoTimeout(t)] + ([DoStopTimer(t)] + []));
            && Runs(s, steps)
            && var r := Run(s, steps);
            && t in r.threads && t in Queue(r, s.threads[t].currentPriority)
            && Possible(r, DoMark(t)) && !Inv(Apply(r, DoMark(t)))
  {
    DeletionHalves(s, t);
    ThreeSteps(s, DoRemove(t), DoTimeout(t), DoStopTimer(t));
  }

  // ---------- a thread that blocks twice ----------

  /** Inside a critical section a blocked thread runs on, through rt_schedule too. Its next blocking call breaks the lists. */
  lemma BlocksTwice(s: Sched, w: nat, v: nat, flag: Flag, timed: bool)
    requires Inv(s) && Running(s) && WaitList(w) in s.lists && WaitList(v) in s.lists
    ensures var a, b := DoBlock(w, flag, timed), DoBlock(v, flag, timed);
            var s1 := EnterCritical(s);
            && Enabled(s, DoEnter) && Inv(s1) && Enabled(s1, a)
            && var s2 := Apply(s1, a);
            && Inv(s2) && Enabled(s2, DoSchedule) && Apply(s2, DoSchedule) == s2
            && s2.current == s.current && Possible(s2, b) && !Inv(Apply(s2, b))
  {
    var a, b, s1, c := DoBlock(w, flag, timed), DoBlock(v, flag, timed), EnterCritical(s), s.current.value;
    LockKeeps(s, s.lockNest + 1);
    BlockKeeps(s1, w, flag, timed);
    BlockEffect(s1, w, flag, timed);
    var s2 := Apply(s1, a);
    assert Waiters(s2, w)[WaitPos(s1, w, flag)] == c;
    assert c in Waiters(s2, w);
    BlockSafety(s2, v, flag, timed);
    assert c in s2.lists[WaitList(w)];
  }

  /** From an initial state: a thread is started, then the scheduler, and a ready thread runs. */
  lemma StartedRuns(s: Sched, t: Tid)
    requires Initial(s) && Inv(s) && t in s.threads
    ensures Enabled(s, DoStart(t)) && Inv(StartThread(s, t)) && Enabled(StartThread(s, t), DoStartScheduler)
    ensures var r := StartScheduler(StartThread(s, t)); Inv(r) && Running(r) && r.lists.Keys == s.lists.Keys
  {
    var s1 := StartThread(s, t);
    StartKeeps(s, t);
    StepRecords(s, DoStart(t));
    assert s1.current.None?;
    assert PlacedRight(s1, t) && t in Queue(s1, s1.threads[t].currentPriority);
    StepRecords(s1, DoStartScheduler);
    StartSchedulerKeeps(s1);
    BestThreadRuns(s1, DoStartScheduler);
  }

  /** That state is reached from every initial state with a thread and two wait lists: the thread is started, and
      the first one to run enters a critical section, blocks, and blocks again. */
  lemma BlocksTwiceFromStart(s: Sched, t: Tid, w: nat, v: nat, flag: Flag, timed: bool)
    requires Initial(s) && Inv(s) && t in s.threads && WaitList(w) in s.lists && WaitList(v) in s.lists
    ensures var steps := [DoStart(t)] + ([DoStartScheduler] + ([DoEnter] + ([DoBlock(w, flag, timed)] + ([DoSchedule] + []))));
            && Runs(s, steps)
            && var r := Run(s, steps);
            && Possible(r, DoBlock(v, flag, timed)) && !Inv(Apply(r, DoBlock(v, flag, timed)))
  {
    hide Initial;
    StartedRuns(s, t);
    var a, s1 := DoBlock(w, flag, timed), StartThread(s, t);
    var s2 := StartScheduler(s1);
    BlocksTwice(s2, w, v, flag, timed);
    ThreeSteps(s2, DoEnter, a, DoSchedule);
    var rest := [DoEnter] + ([a] + ([DoSchedule] + []));
    OneMoreStep(s1, DoStartScheduler, rest);
    OneMoreStep(s, DoStart(t), [DoStartScheduler] + rest);
  }
}
