/** Counting semaphores over the kernel: a 16-bit value and a list of waiters. */
module Semaphore {
  import opened Seqs
  import opened Scheduler
  import opened Threads
  import opened Steps
  import opened Waiting
  import opened Kernel

  const WORD16: nat := 0x1_0000

  /** The semaphore, its suspend list and what has happened since its value was last set: the value it was set to,
      how often it was released, how many takes succeeded, and how many of those because somebody resumed the
      waiting thread directly, without a release. adrift are the threads that were taken off the list in the middle
      of a resume or of a deletion, and may still be made ready. */
  datatype SemSys = SemSys(k: Sched, id: nat, flag: Flag, value: nat, base: nat, releases: nat, grants: nat, strays: nat,
                           adrift: set<Tid>)

  datatype Op = Take(time: int) | Release | Reset(value: nat) | Other(a: Step)

  datatype Result = TAKEN | TIMEDOUT | WAITING

  /** Takes that may wait come from a running thread. Other kernel activity neither blocks on this list nor wakes
      its head, which only the semaphore does, and the error of a waiter is its own. */
  predicate SemEnabled(s: SemSys, op: Op)
    requires Shaped(s.k)
  {
    match op
    case Take(time) => s.value == 0 && time != 0 ==> Running(s.k)
    case Release => true
    case Reset(_) => true
    case Other(a) =>
      && Threads.Enabled(s.k, a)
      && (a.DoBlock? ==> a.w != s.id)
      && (a.DoWake? ==> a.w != s.id)
      && (a.DoSetError? ==> a.t !in Waiters(s.k, s.id) && a.t !in s.adrift)
  }

  ghost predicate SemInv(s: SemSys) {
    && Scheduler.Inv(s.k) && WaitList(s.id) in s.k.lists
    && s.value < WORD16
    && (Waiters(s.k, s.id) != [] ==> s.value == 0)
    && NoErrors(Waiters(s.k, s.id), s.k.threads) && AdriftOk(s.k, s.adrift)
    && SameCount(s.value + s.grants, s.base + s.releases + s.strays)
  }

  /** Suspended on no list, without an error. */
  ghost predicate AdriftOk(k: Sched, adrift: set<Tid>) {
    forall t <- adrift :: t in k.threads && k.threads[t].stat == SUSPEND && k.threads[t].error == EOK && forall w :: t !in Waiters(k, w)
  }

  /** Equal as far as 16 bits can tell. */
  predicate SameCount(x: nat, y: nat) {
    x % WORD16 == y % WORD16
  }

  /** rt_sem_take up to its rt_schedule. */
  function TakeStep(s: SemSys, time: int): (SemSys, Result)
    requires SemInv(s) && SemEnabled(s, Take(time))
  {
    if s.value > 0 then (s.(value := s.value - 1, grants := s.grants + 1), TAKEN)
    else if time == 0 then (s, TIMEDOUT)
    else
      assert forall t <- Waiters(s.k, s.id) :: t in s.k.threads;
      (s.(k := Block(s.k, s.id, s.flag, time > 0)), WAITING)
  }

  /** rt_sem_release up to its rt_schedule: hand over to the first waiter, or count. */
  function ReleaseStep(s: SemSys): SemSys
    requires SemInv(s)
  {
    if Waiters(s.k, s.id) != []
    then s.(k := WakeFirst(s.k, s.id), releases := s.releases + 1, grants := s.grants + 1)
    else s.(value := (s.value + 1) % WORD16, releases := s.releases + 1)
  }

  /** RT_IPC_CMD_RESET up to its rt_schedule. */
  function ResetStep(s: SemSys, v: nat): SemSys
    requires SemInv(s)
  {
    s.(k := WakeAll(s.k, s.id), value := v % WORD16, base := v % WORD16, releases := 0, grants := 0, strays := 0)
  }

  /** Whether a step makes a waiter ready that nobody released; its take then succeeds. */
  function Strayed(s: SemSys, a: Threads.Step): nat {
    if a.DoResume? && (a.t in Waiters(s.k, s.id) || a.t in s.adrift) then 1
    else if a.DoInsert? && a.t in s.adrift then 1
    else 0
  }

  function AdriftAfter(k: Sched, id: nat, adrift: set<Tid>, a: Threads.Step): set<Tid> {
    match a
    case DoUnlink(t) => if t in Waiters(k, id) then adrift + {t} else adrift
    case DoRemove(t) => if t in Waiters(k, id) then adrift + {t} else adrift
    case DoResume(t) => adrift - {t}
    case DoInsert(t) => adrift - {t}
    case DoTimeout(t) => adrift - {t}
    case DoClose(t) => adrift - {t}
    case DoMark(t) => adrift - {t}
    case _ => adrift
  }

  function Step(s: SemSys, op: Op): SemSys
    requires SemInv(s) && SemEnabled(s, op)
  {
    match op
    case Take(time) => TakeStep(s, time).0
    case Release => ReleaseStep(s)
    case Reset(v) => ResetStep(s, v)
    case Other(a) =>
      s.(k := Threads.Apply(s.k, a), grants := s.grants + Strayed(s, a), strays := s.strays + Strayed(s, a),
         adrift := AdriftAfter(s.k, s.id, s.adrift, a))
  }

  // ---------- the invariant ----------

  lemma OtherKeepsNoErrors(k: Sched, a: Threads.Step, id: nat)
    requires Scheduler.Inv(k) && Threads.Enabled(k, a) && (a.DoBlock? ==> a.w != id)
    requires a.DoSetError? ==> a.t !in Waiters(k, id)
    requires NoErrors(Waiters(k, id), k.threads)
    ensures NoErrors(Waiters(Threads.Apply(k, a), id), Threads.Apply(k, a).threads)
  {
    StepWaiters(k, a, id);
    StepErrors(k, a, id);
  }

  lemma OtherKeeps(s: SemSys, a: Threads.Step)
    requires SemInv(s) && SemEnabled(s, Other(a))
    ensures SemInv(Step(s, Other(a)))
  {
    hide Scheduler.Inv, Enabled, Apply, SameCount, NoErrors, AdriftOk, AdriftAfter;
    StepKeeps(s.k, a);
    StepWaiters(s.k, a, s.id);
    StepListKeys(s.k, a);
    OtherKeepsNoErrors(s.k, a, s.id);
    OtherKeepsAdrift(s.k, a, s.id, s.adrift);
    SameLaw(s.value + s.grants, s.base + s.releases + s.strays, Strayed(s, a));
  }

  lemma OtherKeepsAdrift(k: Sched, a: Threads.Step, id: nat, adrift: set<Tid>)
    requires Scheduler.Inv(k) && Threads.Enabled(k, a) && (a.DoSetError? ==> a.t !in adrift)
    requires NoErrors(Waiters(k, id), k.threads) && AdriftOk(k, adrift)
    ensures AdriftOk(Threads.Apply(k, a), AdriftAfter(k, id, adrift, a))
  {
    StepRecords(k, a);
    forall t | t in AdriftAfter(k, id, adrift, a)
      ensures t in Threads.Apply(k, a).threads && forall w :: t !in Waiters(Threads.Apply(k, a), w)
      ensures var r := Threads.Apply(k, a).threads[t]; r.stat == SUSPEND && r.error == EOK
    {
      if t in adrift {
        AdriftThrough(k, a, t);
      } else {
        SetAdrift(k, a, t, id);
      }
    }
  }

  lemma AdriftThrough(k: Sched, a: Threads.Step, t: Tid)
    requires Scheduler.Inv(k) && Threads.Enabled(k, a) && Framed(k, a, Threads.Apply(k, a))
    requires t in k.threads && k.threads[t].stat == SUSPEND && k.threads[t].error == EOK && forall w :: t !in Waiters(k, w)
    requires !((a.DoResume? || a.DoInsert? || a.DoTimeout? || a.DoClose? || a.DoMark? || a.DoSetError?) && a.t == t)
    ensures var r := Threads.Apply(k, a);
            t in r.threads && r.threads[t].stat == SUSPEND && r.threads[t].error == EOK && forall w :: t !in Waiters(r, w)
  {
    StepLists(k, a, t);
    assert a.DoWake? ==> t !in Waiters(k, a.w);
  }

  lemma SetAdrift(k: Sched, a: Threads.Step, t: Tid, id: nat)
    requires Scheduler.Inv(k) && Threads.Enabled(k, a) && Framed(k, a, Threads.Apply(k, a))
    requires (a == DoUnlink(t) || a == DoRemove(t)) && t in Waiters(k, id) && NoErrors(Waiters(k, id), k.threads)
    ensures var r := Threads.Apply(k, a);
            t in r.threads && r.threads[t].stat == SUSPEND && r.threads[t].error == EOK && forall w :: t !in Waiters(r, w)
  {
    WaitersAreNotInitial(k, id);
    forall w
      ensures t !in Waiters(Threads.Apply(k, a), w)
    {
      StepWaiters(k, a, w);
    }
  }

  lemma SameLaw(x: nat, y: nat, d: nat)
    requires SameCount(x, y)
    ensures SameCount(x + d, y + d)
  {
  }

  lemma BlockedKeeps(s: SemSys, timed: bool)
    requires SemInv(s) && Running(s.k) && s.value == 0
    ensures (forall t <- Waiters(s.k, s.id) :: t in s.k.threads) && SemInv(s.(k := Block(s.k, s.id, s.flag, timed)))
  {
    hide Block, SameCount;
    BlockKeeps(s.k, s.id, s.flag, timed);
    BlockEffect(s.k, s.id, s.flag, timed);
    var a := DoBlock(s.id, s.flag, timed);
    assert Threads.Apply(s.k, a) == Block(s.k, s.id, s.flag, timed);
    forall t, w | t in s.adrift
      ensures t !in Waiters(Threads.Apply(s.k, a), w)
    {
      StepLists(s.k, a, t);
    }
  }

  lemma HandOverKeeps(s: SemSys)
    requires SemInv(s) && Waiters(s.k, s.id) != []
    ensures SemInv(ReleaseStep(s))
  {
    hide Scheduler.Inv, WakeFirst, SameCount;
    WakeFirstEffect(s.k, s.id);
    FirstNotAgain(s.k, s.id);
    SameLaw(s.value + s.grants, s.base + s.releases + s.strays, 1);
  }

  /** One more release counted, in 16 bits. */
  lemma CountedKeeps(value: nat, grants: nat, y: nat)
    requires SameCount(value + grants, y)
    ensures SameCount((value + 1) % WORD16 + grants, y + 1)
  {
  }

  lemma FirstNotAgain(k: Sched, id: nat)
    requires Scheduler.Inv(k) && Waiters(k, id) != []
    ensures Waiters(k, id)[0] !in Waiters(k, id)[1..]
  {
    assert WaitList(id) in k.lists;
  }

  lemma ResetKeepsAdrift(k: Sched, id: nat, adrift: set<Tid>)
    requires Scheduler.Inv(k) && AdriftOk(k, adrift)
    ensures AdriftOk(WakeAll(k, id), adrift)
  {
    WakeAllWakesTheWaiters(k, id);
    forall t, w | t in adrift
      ensures t !in Waiters(WakeAll(k, id), w)
    {
      if w != id {
        WakeAllOtherLists(k, id, w);
      }
    }
  }

  lemma StepKeepsInv(s: SemSys, op: Op)
    requires SemInv(s) && SemEnabled(s, op)
    ensures SemInv(Step(s, op))
  {
    hide Block, WakeFirst, SameCount;
    match op
    case Take(time) =>
      if s.value == 0 && time != 0 {
        BlockedKeeps(s, time > 0);
      }
    case Release =>
      if Waiters(s.k, s.id) != [] {
        HandOverKeeps(s);
      } else {
        CountedKeeps(s.value, s.grants, s.base + s.releases + s.strays);
      }
    case Reset(v) =>
      SameLaw(0, 0, v % WORD16);
      ResetKeepsAdrift(s.k, s.id, s.adrift);
    case Other(a) => OtherKeeps(s, a);
  }

  // ---------- runs ----------

  ghost predicate Runs(s: SemSys, ops: seq<Op>)
    requires SemInv(s)
    decreases |ops|
  {
    ops != [] ==> SemEnabled(s, ops[0]) && (StepKeepsInv(s, ops[0]); Runs(Step(s, ops[0]), ops[1..]))
  }

  function Run(s: SemSys, ops: seq<Op>): (r: SemSys)
    requires SemInv(s) && Runs(s, ops)
    ensures SemInv(r)
    decreases |ops|
  {
    if ops == [] then s else StepKeepsInv(s, ops[0]); Run(Step(s, ops[0]), ops[1..])
  }

  /** The count fits its 16 bits: no release finds the value at its maximum with nobody waiting. */
  ghost predicate CountFits(s: SemSys, ops: seq<Op>)
    requires SemInv(s) && Runs(s, ops)
    decreases |ops|
  {
    ops != [] ==>
      && (ops[0].Release? && Waiters(s.k, s.id) == [] ==> s.value + 1 < WORD16)
      && (StepKeepsInv(s, ops[0]); CountFits(Step(s, ops[0]), ops[1..]))
  }

  /** Over every run, with timeouts, resets, deletions and priority changes, value and successful takes together are
      what the semaphore was set to plus its releases, plus the waiters somebody resumed directly, exactly as
      long as the count fits 16 bits. */
  lemma {:induction false} Conservation(s: SemSys, ops: seq<Op>)
    requires SemInv(s) && Runs(s, ops) && CountFits(s, ops)
    requires s.value + s.grants == s.base + s.releases + s.strays
    ensures var r := Run(s, ops); r.value + r.grants == r.base + r.releases + r.strays
    decreases |ops|
  {
    if ops != [] {
      StepKeepsInv(s, ops[0]);
      ReleaseIsExactIff(s, ops[0]);
      Conservation(Step(s, ops[0]), ops[1..]);
    }
  }

  /** One step keeps the exact count if and only if it is not a release of a full, unawaited semaphore. */
  lemma ReleaseIsExactIff(s: SemSys, op: Op)
    requires SemInv(s) && SemEnabled(s, op) && s.value + s.grants == s.base + s.releases + s.strays
    ensures var r := Step(s, op);
            r.value + r.grants == r.base + r.releases + r.strays <==>
              !(op.Release? && Waiters(s.k, s.id) == [] && s.value == WORD16 - 1)
  {
  }

  /** rt_sem_init on a list nobody waits on. */
  function NewSem(k: Sched, id: nat, flag: Flag, value: nat): SemSys {
    SemSys(k, id, flag, value % WORD16, value % WORD16, 0, 0, 0, {})
  }

  /** A semaphore set to 65535 and released once is at 0: the next take waits. */
  lemma ReleaseWrapsAround(k: Sched, id: nat, flag: Flag)
    requires Scheduler.Inv(k) && WaitList(id) in k.lists && Waiters(k, id) == []
    ensures var s := NewSem(k, id, flag, 65535);
            && SemInv(s) && Runs(s, [Release])
            && var r := Run(s, [Release]);
            && r.value == 0 && r.value + r.grants != r.base + r.releases + r.strays
  {
    var s := NewSem(k, id, flag, 65535);
    StepKeepsInv(s, Release);
    assert [Release][1..] == [];
    assert Run(ReleaseStep(s), []) == ReleaseStep(s);
  }

  /** In every reachable state threads wait only while the value is 0. */
  lemma WaitersOnlyAtZero(s: SemSys, ops: seq<Op>)
    requires SemInv(s) && Runs(s, ops)
    ensures Waiters(Run(s, ops).k, s.id) != [] ==> Run(s, ops).value == 0
  {
    RunKeepsIdentity(s, ops);
  }

  lemma {:induction false} RunKeepsIdentity(s: SemSys, ops: seq<Op>)
    requires SemInv(s) && Runs(s, ops)
    ensures Run(s, ops).id == s.id && Run(s, ops).flag == s.flag
    decreases |ops|
  {
    if ops != [] {
      StepKeepsInv(s, ops[0]);
      RunKeepsIdentity(Step(s, ops[0]), ops[1..]);
    }
  }

  /** What a take comes to: it succeeds exactly when the count is positive, and then wakes and moves nobody;
      with no time to wait it leaves everything alone; otherwise the caller, and nobody else, goes to
      sleep on the list, with its timer armed if it waits for a limited time. */
  lemma TakeOutcome(s: SemSys, time: int)
    requires SemInv(s) && SemEnabled(s, Take(time))
    ensures var (r, result) := TakeStep(s, time);
            && (result.TAKEN? <==> s.value > 0) && (result.TIMEDOUT? <==> s.value == 0 && time == 0)
            && (result.TAKEN? ==> r.k == s.k && r.value + 1 == s.value && r.grants == s.grants + 1)
            && (result.TIMEDOUT? ==> r == s)
            && (result.WAITING? ==>
                  var c := s.k.current.value;
                  && c !in Waiters(s.k, s.id) && c in Waiters(r.k, s.id) && |Waiters(r.k, s.id)| == |Waiters(s.k, s.id)| + 1
                  && c in r.k.threads && r.k.threads[c].stat == SUSPEND && (r.k.threads[c].timer <==> time > 0)
                  && r.value == s.value && r.grants == s.grants)
  {
    if s.value == 0 && time != 0 {
      BlockEffect(s.k, s.id, s.flag, time > 0);
    }
  }

  /** The counts of the conservation law are true to the calls: every release counts once, and a grant is a take
      that succeeded at once, a waiter released or a waiter that returns without a release. */
  lemma CountsFollowCalls(s: SemSys, op: Op)
    requires SemInv(s) && SemEnabled(s, op) && !op.Reset?
    ensures var r := Step(s, op);
            && r.releases == s.releases + (if op.Release? then 1 else 0)
            && r.grants == s.grants + (if op.Take? && TakeStep(s, op.time).1.TAKEN? then 1
                                       else if op.Release? then |Waiters(s.k, s.id)| - |Waiters(r.k, s.id)|
                                       else r.strays - s.strays)
            && r.strays == s.strays + (if op.Other? then Strayed(s, op.a) else 0)
            && (op.Release? ==> |Waiters(s.k, s.id)| - |Waiters(r.k, s.id)| == if Waiters(s.k, s.id) == [] then 0 else 1)
  {
    if op.Release? && Waiters(s.k, s.id) != [] {
      WakeFirstEffect(s.k, s.id);
    }
  }

  /** A thread that waits, or was taken off the list, is made ready without an error by somebody else, so that its take
      succeeds, if and only if the step is counted. */
  lemma StrayTakesSucceed(s: SemSys, a: Threads.Step, t: Tid)
    requires SemInv(s) && SemEnabled(s, Other(a)) && (t in Waiters(s.k, s.id) || t in s.adrift)
    ensures var r := Threads.Apply(s.k, a);
            t in r.threads && (r.threads[t].stat == READY && r.threads[t].error == EOK <==> Strayed(s, a) == 1 && a.t == t)
  {
    StepRecords(s.k, a);
    WaitersAreNotInitial(s.k, s.id);
    if a.DoWake? {
      WakesAnother(s.k, a.w, s.id, t);
    } else if a.DoInsert? && t in Waiters(s.k, s.id) {
      assert WaitList(s.id) in s.k.lists;
    }
  }

  lemma WakesAnother(k: Sched, w: nat, id: nat, t: Tid)
    requires Scheduler.Inv(k) && w != id && (t in Waiters(k, id) || forall v :: t !in Waiters(k, v))
    ensures Waiters(k, w) != [] ==> Waiters(k, w)[0] != t
  {
    if Waiters(k, w) != [] {
      assert Waiters(k, w)[0] in Waiters(k, w);
      WaitersAreNotInitial(k, id);
      assert t in Waiters(k, id) ==> PlacedRight(k, t);
    }
  }

  /** The failing input: somebody resumes a waiter. Its take succeeds, and more was granted than released. */
  lemma ResumedWaiterIsGranted(s: SemSys, t: Tid)
    requires SemInv(s) && t in Waiters(s.k, s.id) && s.value + s.grants == s.base + s.releases
    ensures SemEnabled(s, Other(DoResume(t)))
    ensures var r := Step(s, Other(DoResume(t)));
            && t in r.k.threads && r.k.threads[t].stat == READY && r.k.threads[t].error == EOK && t !in Waiters(r.k, s.id)
            && r.value + r.grants == r.base + r.releases + 1
  {
    WaitersAreNotInitial(s.k, s.id);
    StrayTakesSucceed(s, DoResume(t), t);
    StepWaiters(s.k, DoResume(t), s.id);
  }

  /** A reset sends every waiter away with an error, and the count starts again at the given value. */
  lemma ResetOutcome(s: SemSys, v: nat)
    requires SemInv(s) && SemEnabled(s, Reset(v))
    ensures var r := Step(s, Reset(v));
            && Waiters(r.k, s.id) == [] && r.value == v % WORD16
            && (forall t <- Waiters(s.k, s.id) :: t in r.k.threads && r.k.threads[t].stat == READY && r.k.threads[t].error == ERROR)
            && (forall t <- s.k.threads | t !in Waiters(s.k, s.id) :: t in r.k.threads && r.k.threads[t] == s.k.threads[t])
  {
    WakeAllWakesTheWaiters(s.k, s.id);
  }

  /** A timeout consumes nothing: the counters stay, and only the timed-out thread leaves the list. */
  lemma TimeoutConsumesNothing(s: SemSys, t: Tid)
    requires SemInv(s) && SemEnabled(s, Other(DoTimeout(t))) && t in Waiters(s.k, s.id)
    ensures var r := Step(s, Other(DoTimeout(t)));
            && r.value == s.value && r.grants == s.grants && r.releases == s.releases
            && Waiters(r.k, s.id) == Without(Waiters(s.k, s.id), t)
            && t in r.k.threads && r.k.threads[t].error == ETIMEOUT
  {
    StepWaiters(s.k, DoTimeout(t), s.id);
  }

  // ---------- the order of grants ----------

  /** The step of an operation that puts the caller on the list. */
  predicate Joins(s: SemSys, op: Op) {
    op.Take? && s.value == 0 && op.time != 0
  }

  /** A release grants the first waiter; and no step lets a waiter be overtaken, except on a priority list by a
      newcomer of strictly better priority, if and only if a newcomer finds only such waiters behind its place. */
  lemma GrantsInOrder(s: SemSys, op: Op)
    requires SemInv(s) && SemEnabled(s, op) && !op.Reset?
    ensures forall t <- Waiters(s.k, s.id) :: t in s.k.threads
    ensures NoOvertaking(s.k, Step(s, op).k, s.id, s.flag) <==> (Joins(s, op) ==> FindsPlace(s.k, s.id, s.flag))
    ensures op.Release? && Waiters(s.k, s.id) != [] ==>
              var t, r := Waiters(s.k, s.id)[0], ReleaseStep(s);
              && Waiters(r.k, s.id) == Waiters(s.k, s.id)[1..]
              && t in r.k.threads && r.k.threads[t].stat == READY
              && r.k.threads[t].error == EOK
  {
    match op
    case Take(time) =>
      if Joins(s, op) {
        BlockOvertakesIff(s.k, s.id, s.flag, time > 0);
      }
    case Release =>
      if Waiters(s.k, s.id) != [] {
        WakeFirstEffect(s.k, s.id);
        KernelStepOvertakesNobody(s.k, DoWake(s.id), s.id, s.flag);
      }
    case Other(a) => KernelStepOvertakesNobody(s.k, a, s.id, s.flag);
  }

  /** The waiters are in priority order, so that a release grants one of the best. */
  ghost predicate InPriorityOrder(s: SemSys) {
    SortedByPriority(Waiters(s.k, s.id), s.k.threads)
  }

  /** The operation changes the priority of a waiter to one that does not fit the waiter's place. */
  ghost predicate Misplaces(s: SemSys, op: Op)
    requires SemInv(s) && SemEnabled(s, op)
  {
    && op.Other? && op.a.DoChangePriority? && op.a.t in Waiters(s.k, s.id)
    && (forall x <- Waiters(s.k, s.id) :: x in s.k.threads)
    && !FitsItsPlace(Waiters(s.k, s.id), s.k.threads, op.a.t, op.a.p)
  }

  /** A step of a priority semaphore keeps the waiters in priority order if and only if it is not such a change: the
      list is not sorted anew. */
  lemma StepKeepsOrderIff(s: SemSys, op: Op)
    requires SemInv(s) && SemEnabled(s, op) && s.flag == PRIO && InPriorityOrder(s)
    ensures InPriorityOrder(Step(s, op)) <==> !Misplaces(s, op)
  {
    if op.Other? {
      if op.a.DoChangePriority? {
        ChangeKeepsOrderIff(s, op.a.t, op.a.p);
      } else {
        OtherKeepsOrder(s.k, op.a, s.id);
      }
    } else {
      OwnStepKeepsOrder(s, op);
    }
  }

  lemma OwnStepKeepsOrder(s: SemSys, op: Op)
    requires SemInv(s) && SemEnabled(s, op) && s.flag == PRIO && InPriorityOrder(s) && !op.Other?
    ensures InPriorityOrder(Step(s, op))
  {
    if Joins(s, op) {
      JoinKeepsOrder(s.k, s.id, op.time > 0);
    } else if op.Release? && Waiters(s.k, s.id) != [] {
      WakeFirstEffect(s.k, s.id);
    }
  }

  lemma JoinKeepsOrder(k: Sched, id: nat, timed: bool)
    requires Scheduler.Inv(k) && Running(k) && WaitList(id) in k.lists && SortedByPriority(Waiters(k, id), k.threads)
    ensures var r := Block(k, id, PRIO, timed); SortedByPriority(Waiters(r, id), r.threads)
  {
    var r := Block(k, id, PRIO, timed);
    hide Block, PriorityPos;
    BlockEffect(k, id, PRIO, timed);
    SortedInsert(Waiters(k, id), k.threads, k.current.value);
    SamePrioritiesStaySorted(Waiters(r, id), k.threads, r.threads);
  }

  lemma ChangeKeepsOrderIff(s: SemSys, t: Tid, p: nat)
    requires SemInv(s) && SemEnabled(s, Other(DoChangePriority(t, p))) && InPriorityOrder(s)
    ensures InPriorityOrder(Step(s, Other(DoChangePriority(t, p)))) <==> !Misplaces(s, Other(DoChangePriority(t, p)))
  {
    var a, q := DoChangePriority(t, p), Waiters(s.k, s.id);
    StepRecords(s.k, a);
    StepWaiters(s.k, a, s.id);
    assert q != [] ==> WaitList(s.id) in s.k.lists;
    ChangeKeepsSortedIff(q, s.k.threads, Step(s, Other(a)).k.threads, t, p);
    if t !in q {
      assert FitsItsPlace(q, s.k.threads, t, p);
    }
  }

  lemma OtherKeepsOrder(k: Sched, a: Threads.Step, id: nat)
    requires Scheduler.Inv(k) && Threads.Enabled(k, a) && (a.DoBlock? ==> a.w != id) && !a.DoChangePriority?
    requires SortedByPriority(Waiters(k, id), k.threads)
    ensures SortedByPriority(Waiters(Threads.Apply(k, a), id), Threads.Apply(k, a).threads)
  {
    var q, r := Waiters(k, id), Threads.Apply(k, a);
    WaitersKeepPriorities(k, a, id);
    SamePrioritiesStaySorted(q, k.threads, r.threads);
    StepWaiters(k, a, id);
    if Leaver(k, a).Some? {
      SortedWithout(q, r.threads, Leaver(k, a).value);
    }
  }

  lemma WaitersKeepPriorities(k: Sched, a: Threads.Step, id: nat)
    requires Scheduler.Inv(k) && Threads.Enabled(k, a) && !a.DoChangePriority?
    ensures var r := Threads.Apply(k, a);
            forall t <- Waiters(k, id) :: t in k.threads && t in r.threads && r.threads[t].currentPriority == k.threads[t].currentPriority
  {
    WaitersAreNotInitial(k, id);
    StepPriorities(k, a);
  }

  ghost predicate AlwaysInOrder(s: SemSys, ops: seq<Op>)
    requires SemInv(s) && Runs(s, ops)
    decreases |ops|
  {
    InPriorityOrder(s) && (ops != [] ==> (StepKeepsInv(s, ops[0]); AlwaysInOrder(Step(s, ops[0]), ops[1..])))
  }

  ghost predicate NeverMisplaces(s: SemSys, ops: seq<Op>)
    requires SemInv(s) && Runs(s, ops)
    decreases |ops|
  {
    ops != [] ==> !Misplaces(s, ops[0]) && (StepKeepsInv(s, ops[0]); NeverMisplaces(Step(s, ops[0]), ops[1..]))
  }

  /** Over every run of a priority semaphore the waiters are in priority order at every moment, and so every grant
      goes to a best one, if and only if no priority is changed to one that does not fit its waiter's place. */
  lemma {:induction false} PriorityOrderHoldsIff(s: SemSys, ops: seq<Op>)
    requires SemInv(s) && Runs(s, ops) && s.flag == PRIO && InPriorityOrder(s)
    ensures AlwaysInOrder(s, ops) <==> NeverMisplaces(s, ops)
    decreases |ops|
  {
    if ops != [] {
      StepKeepsInv(s, ops[0]);
      StepKeepsOrderIff(s, ops[0]);
      if !Misplaces(s, ops[0]) {
        PriorityOrderHoldsIff(Step(s, ops[0]), ops[1..]);
      }
    }
  }

  /** The second of two waiters is raised above the first; the release that follows still grants the first. */
  lemma RaisedWaiterIsPassedOver(s: SemSys, t: Tid, p: nat)
    requires SemInv(s) && s.flag == PRIO && |Waiters(s.k, s.id)| == 2 && Waiters(s.k, s.id)[1] == t
    requires forall x <- Waiters(s.k, s.id) :: x in s.k.threads
    requires p < s.k.threads[Waiters(s.k, s.id)[0]].currentPriority < s.k.priorityMax
    ensures SemEnabled(s, Other(DoChangePriority(t, p)))
    ensures var first, s1 := Waiters(s.k, s.id)[0], Step(s, Other(DoChangePriority(t, p)));
            && SemInv(s1) && Waiters(s1.k, s.id) == [first, t]
            && first in s1.k.threads && t in s1.k.threads
            && s1.k.threads[t].currentPriority < s1.k.threads[first].currentPriority
            && Waiters(ReleaseStep(s1).k, s.id) == [t]
  {
    var a, q := DoChangePriority(t, p), Waiters(s.k, s.id);
    assert q == [q[0], t] && WaitList(s.id) in s.k.lists && q[0] != q[1];
    StepKeepsInv(s, Other(a));
    StepWaiters(s.k, a, s.id);
    StepRecords(s.k, a);
    WakeFirstEffect(Step(s, Other(a)).k, s.id);
  }

  // ---------- the semaphore object ----------

  class SemaphoreObject {
    const kernel: Kernel
    const id: nat
    const flag: Flag
    var value: nat
    ghost var history: (nat, nat, nat)     // base, releases, grants
    ghost var strays: nat
    ghost var adrift: set<Tid>

    ghost function State(): SemSys
      reads this, kernel
    {
      SemSys(kernel.State(), id, flag, value, history.0, history.1, history.2, strays, adrift)
    }

    ghost predicate Valid()
      reads this, kernel, kernel.readyTable
    {
      kernel.Valid() && SemInv(State())
    }

    /** rt_sem_init on a list nobody waits on; the 32-bit value is truncated to the 16-bit field. */
    constructor (kernel: Kernel, id: nat, value: nat, flag: Flag)
      requires kernel.Valid() && WaitList(id) in kernel.lists && kernel.lists[WaitList(id)] == []
      ensures Valid() && this.kernel == kernel && this.id == id && this.flag == flag
      ensures State() == NewSem(kernel.State(), id, flag, value)
    {
      this.kernel, this.id, this.flag := kernel, id, flag;
      this.value := value % WORD16;
      history, strays, adrift := (value % WORD16, 0, 0), 0, {};
    }

    /** rt_sem_take up to its rt_schedule. */
    method Take(time: int) returns (result: Result)
      requires Valid() && SemEnabled(State(), Op.Take(time))
      modifies this, kernel, kernel.readyTable
      ensures Valid() && (State(), result) == TakeStep(old(State()), time)
    {
      StepKeepsInv(State(), Op.Take(time));
      if value > 0 {
        value := value - 1;
        history := (history.0, history.1, history.2 + 1);
        return TAKEN;
      }
      if time == 0 {
        return TIMEDOUT;
      }
      kernel.BlockOn(id, flag, time > 0);
      return WAITING;
    }

    /** rt_sem_release up to its rt_schedule. */
    method Release()
      requires Valid()
      modifies this, kernel, kernel.readyTable
      ensures Valid() && State() == ReleaseStep(old(State()))
    {
      hide Scheduler.Inv, SameCount, NoErrors;
      StepKeepsInv(State(), Op.Release);
      if kernel.lists[WaitList(id)] != [] {
        kernel.ResumeFirst(id);
        history := (history.0, history.1 + 1, history.2 + 1);
      } else {
        value := (value + 1) % WORD16;
        history := (history.0, history.1 + 1, history.2);
      }
      assert State() == ReleaseStep(old(State()));
    }

    /** RT_IPC_CMD_RESET up to its rt_schedule. */
    method Reset(v: nat)
      requires Valid()
      modifies this, kernel, kernel.readyTable
      ensures Valid() && State() == ResetStep(old(State()), v)
    {
      StepKeepsInv(State(), Op.Reset(v));
      kernel.ResumeAll(id);
      value := v % WORD16;
      history, strays := (value, 0, 0), 0;
    }
  }
}
