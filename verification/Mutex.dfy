/** Mutexes with priority inheritance over the kernel: recursive holding, hand-over to the first waiter,
    and the priority of the owner. */
module Mutex {
  import opened Options
  import opened Seqs
  import opened Scheduler
  import opened Threads
  import opened Steps
  import opened Waiting
  import opened Kernel

  const WORD8: nat := 0x100

  /** The fields of struct rt_mutex. */
  datatype Mtx = Mtx(flag: Flag, value: nat, owner: Option<Tid>, originalPriority: nat, hold: nat)

  datatype Result = OK | FAILED | WAITING

  /** Owner, hold count and value agree, and somebody waits only while there is an owner, who is not
      waiting himself. */
  ghost predicate Agree(k: Sched, x: Mtx, id: nat) {
    && (x.owner.Some? <==> x.hold > 0) && (x.owner.Some? <==> x.value == 0) && x.value <= 1 && x.hold < WORD8
    && (x.owner.Some? ==> x.owner.value in k.threads && x.originalPriority < k.priorityMax)
    && (Waiters(k, id) != [] ==> x.owner.Some?)
    && (x.owner.Some? ==> x.owner.value !in Waiters(k, id))
  }

  ghost predicate OneOk(k: Sched, x: Mtx, id: nat) {
    Inv(k) && WaitList(id) in k.lists && Agree(k, x, id)
  }

  function SetError(k: Sched, t: Tid, e: Error): Sched
    requires t in k.threads
  {
    Update(k, t, k.threads[t].(error := e))
  }

  /** The owner inherits the priority of a better thread that is about to wait. */
  function Inherit(k: Sched, owner: Tid, p: nat): Sched
    requires Shaped(k) && owner in k.threads && p < k.priorityMax
  {
    if p < k.threads[owner].currentPriority then ChangePriority(k, owner, p) else k
  }

  /** Holding once more, or becoming the owner. */
  function Acquired(x: Mtx, c: Tid, p: nat): Mtx {
    if x.owner == Some(c) then x.(hold := (x.hold + 1) % WORD8)
    else Mtx(x.flag, if x.value > 0 then x.value - 1 else 0, Some(c), p, (x.hold + 1) % WORD8)
  }

  /** rt_mutex_take by the running thread, up to its rt_schedule. */
  function TakeStep(k: Sched, x: Mtx, id: nat, time: int): (Sched, Mtx, Result)
    requires OneOk(k, x, id) && Running(k)
  {
    var c := k.current.value;
    var p := k.threads[c].currentPriority;
    SetErrorKeeps(k, c, EOK);
    var k0 := SetError(k, c, EOK);
    if x.owner == Some(c) || x.value > 0 then (k0, Acquired(x, c, p), OK)
    else if time == 0 then (SetError(k0, c, ETIMEOUT), x, FAILED)
    else
      InheritKeeps(k0, x.owner.value, p);
      var k1 := Inherit(k0, x.owner.value, p);
      InheritKeepsRunning(k0, x.owner.value, p);
      BlockKeeps(k1, id, x.flag, time > 0);
      (Block(k1, id, x.flag, time > 0), x, WAITING)
  }

  /** The owner gets the priority back that it had when it took the mutex. */
  function GiveBack(k: Sched, c: Tid, original: nat): Sched
    requires Shaped(k) && c in k.threads && original < k.priorityMax
  {
    if original != k.threads[c].currentPriority then ChangePriority(k, c, original) else k
  }

  /** What the last release does once the priority is given back: hand over to the first waiter, or free. */
  function Surrender(k: Sched, x: Mtx, id: nat): (Sched, Mtx)
    requires Shaped(k) && forall t <- Waiters(k, id) :: t in k.threads
  {
    if Waiters(k, id) != [] then
      var t := Waiters(k, id)[0];
      (WakeFirst(k, id), x.(owner := Some(t), originalPriority := k.threads[t].currentPriority, hold := 1))
    else (k, x.(value := x.value + 1, owner := None, originalPriority := 0xFF, hold := 0))
  }

  /** rt_mutex_release by the running thread, up to its rt_schedule. */
  function ReleaseStep(k: Sched, x: Mtx, id: nat): (Sched, Mtx, Result)
    requires OneOk(k, x, id) && Running(k)
  {
    var c := k.current.value;
    if x.owner != Some(c) then (SetError(k, c, ERROR), x, FAILED)
    else if x.hold > 1 then (k, x.(hold := x.hold - 1), OK)
    else
      GiveBackKeeps(k, c, x.originalPriority);
      var (k', x') := Surrender(GiveBack(k, c, x.originalPriority), x, id);
      (k', x', OK)
  }

  // ---------- effects on the kernel ----------

  lemma SetErrorKeeps(k: Sched, t: Tid, e: Error)
    requires Inv(k) && t in k.threads
    ensures Inv(SetError(k, t, e)) && forall w :: Waiters(SetError(k, t, e), w) == Waiters(k, w)
  {
    assert PlacedRight(k, t);
    UpdateInPlace(k, t, k.threads[t].(error := e));
  }

  /** A priority change moves no thread between wait lists and changes one priority only. */
  lemma ChangePriorityEffect(k: Sched, t: Tid, p: nat)
    requires Inv(k) && t in k.threads && p < k.priorityMax
    ensures var r := ChangePriority(k, t, p);
            && Inv(r) && r.current == k.current && r.lists.Keys == k.lists.Keys && r.priorityMax == k.priorityMax
            && r.threads == k.threads[t := k.threads[t].(currentPriority := p)]
            && forall w :: Waiters(r, w) == Waiters(k, w)
  {
    ChangePriorityKeeps(k, t, p);
    forall w
      ensures Waiters(ChangePriority(k, t, p), w) == Waiters(k, w)
    {
      StepWaiters(k, DoChangePriority(t, p), w);
    }
  }

  lemma InheritKeeps(k: Sched, t: Tid, p: nat)
    requires Inv(k) && t in k.threads && p < k.priorityMax
    ensures var r := Inherit(k, t, p);
            && Inv(r) && r.current == k.current && r.lists.Keys == k.lists.Keys && r.priorityMax == k.priorityMax
            && (forall w :: Waiters(r, w) == Waiters(k, w))
            && r.threads == k.threads[t := k.threads[t].(currentPriority := if p < k.threads[t].currentPriority then p else k.threads[t].currentPriority)]
  {
    if p < k.threads[t].currentPriority {
      ChangePriorityEffect(k, t, p);
    } else {
      assert k.threads == k.threads[t := k.threads[t]];
    }
  }

  lemma InheritKeepsRunning(k: Sched, t: Tid, p: nat)
    requires Inv(k) && t in k.threads && p < k.priorityMax && Running(k)
    ensures Running(Inherit(k, t, p))
  {
    InheritKeeps(k, t, p);
  }

  lemma GiveBackKeeps(k: Sched, c: Tid, original: nat)
    requires Inv(k) && c in k.threads && original < k.priorityMax
    ensures var r := GiveBack(k, c, original);
            && Inv(r) && r.current == k.current && r.lists.Keys == k.lists.Keys && r.priorityMax == k.priorityMax
            && (forall w :: Waiters(r, w) == Waiters(k, w))
            && r.threads == k.threads[c := k.threads[c].(currentPriority := original)]
  {
    if original != k.threads[c].currentPriority {
      ChangePriorityEffect(k, c, original);
    } else {
      assert k.threads == k.threads[c := k.threads[c]];
    }
  }

  // ---------- many mutexes ----------

  datatype Sys = Sys(k: Sched, m: map<nat, Mtx>)

  datatype Op = TakeOp(id: nat, time: int) | ReleaseOp(id: nat) | Other(a: Step)

  predicate Owns(s: Sys, t: Tid, id: nat) {
    id in s.m && s.m[id].owner == Some(t)
  }

  predicate OwnsNothing(s: Sys, t: Tid) {
    forall id <- s.m :: s.m[id].owner != Some(t)
  }

  function Prio(s: Sys, t: Tid): nat {
    if t in s.k.threads then s.k.threads[t].currentPriority else 0
  }

  /** All mutexes are priority mutexes, each list of waiters is sorted, and waiters own nothing. */
  ghost predicate SysInv(s: Sys) {
    && Inv(s.k)
    && (forall id <- s.m :: WaitList(id) in s.k.lists && Agree(s.k, s.m[id], id) && s.m[id].flag == PRIO)
    && (forall id <- s.m :: SortedByPriority(Waiters(s.k, id), s.k.threads))
    && forall id, t | id in s.m && t in Waiters(s.k, id) :: OwnsNothing(s, t)
  }

  /** Every owner's priority is at least as good as that of everybody waiting for him. */
  ghost predicate Inherited(s: Sys) {
    forall id, t | id in s.m && s.m[id].owner.Some? && t in Waiters(s.k, id) ::
      Prio(s, s.m[id].owner.value) <= Prio(s, t)
  }

  /** A thread waits only while it owns nothing, and the hold count stays within its byte; the rest of the
      kernel neither blocks on a mutex's list nor wakes its head, and changes no priority. */
  predicate SysEnabled(s: Sys, op: Op)
    requires Shaped(s.k)
  {
    match op
    case TakeOp(id, time) =>
      && Running(s.k) && id in s.m
      && var c := s.k.current.value;
      && (Owns(s, c, id) ==> s.m[id].hold + 1 < WORD8)
      && (!Owns(s, c, id) && s.m[id].value == 0 && time != 0 ==> OwnsNothing(s, c))
    case ReleaseOp(id) => Running(s.k) && id in s.m
    case Other(a) =>
      && Enabled(s.k, a) && !a.DoChangePriority?
      && (a.DoBlock? ==> a.w !in s.m) && (a.DoWake? ==> a.w !in s.m)
      && (a.DoStart? || a.DoInit? ==> OwnsNothing(s, a.t))
  }

  function SysStep(s: Sys, op: Op): Sys
    requires SysInv(s) && SysEnabled(s, op)
  {
    match op
    case TakeOp(id, time) => var (k, x, _) := TakeStep(s.k, s.m[id], id, time); Sys(k, s.m[id := x])
    case ReleaseOp(id) => var (k, x, _) := ReleaseStep(s.k, s.m[id], id); Sys(k, s.m[id := x])
    case Other(a) => Sys(Apply(s.k, a), s.m)
  }

  // ---------- what each step does, seen from the lists and the priorities ----------

  /** Lists and priorities of r are those of s, but for the priority of thread t. */
  ghost predicate OnlyPriorityOf(k: Sched, r: Sched, t: Tid) {
    && Inv(r) && r.lists.Keys == k.lists.Keys && r.priorityMax == k.priorityMax && r.threads.Keys == k.threads.Keys
    && (forall w :: Waiters(r, w) == Waiters(k, w))
    && forall x <- k.threads | x != t :: r.threads[x].currentPriority == k.threads[x].currentPriority
  }

  /** Changing the priority of a thread that waits for no mutex keeps the lists sorted and everything agreed. */
  lemma OwnerChangeKeeps(s: Sys, r: Sched, t: Tid)
    requires SysInv(s) && OnlyPriorityOf(s.k, r, t) && forall id <- s.m :: t !in Waiters(s.k, id)
    ensures SysInv(Sys(r, s.m))
  {
    var s' := Sys(r, s.m);
    forall id | id in s.m
      ensures SortedByPriority(Waiters(r, id), r.threads)
    {
      assert SortedByPriority(Waiters(s.k, id), s.k.threads);
    }
    forall id, x | id in s'.m && x in Waiters(r, id)
      ensures OwnsNothing(s', x)
    {
      assert OwnsNothing(s, x);
    }
  }

  /** r is k with thread c on list id as well, at its place by priority. */
  ghost predicate Joined(k: Sched, r: Sched, id: nat, c: Tid)
    requires c in k.threads && forall t <- Waiters(k, id) :: t in k.threads
  {
    && Inv(r) && r.lists.Keys == k.lists.Keys && r.priorityMax == k.priorityMax && r.threads.Keys == k.threads.Keys
    && Waiters(r, id) == InsertAt(Waiters(k, id), PriorityPos(Waiters(k, id), k.threads, k.threads[c].currentPriority), c)
    && (forall v | v != id :: Waiters(r, v) == Waiters(k, v))
    && forall x <- k.threads :: r.threads[x].currentPriority == k.threads[x].currentPriority
  }

  lemma BlockJoins(k: Sched, id: nat, timed: bool)
    requires Inv(k) && Running(k) && WaitList(id) in k.lists
    ensures (forall t <- Waiters(k, id) :: t in k.threads) && Joined(k, Block(k, id, PRIO, timed), id, k.current.value)
  {
    BlockKeeps(k, id, PRIO, timed);
    BlockEffect(k, id, PRIO, timed);
    forall v | v != id
      ensures Waiters(Block(k, id, PRIO, timed), v) == Waiters(k, v)
    {
      StepWaiters(k, DoBlock(id, PRIO, timed), v);
    }
  }

  /** A thread that owns nothing joins the list of an owned mutex. */
  lemma JoinKeepsSys(s: Sys, r: Sched, id: nat, c: Tid)
    requires SysInv(s) && id in s.m && s.m[id].owner.Some? && c in s.k.threads && OwnsNothing(s, c)
    requires forall t <- Waiters(s.k, id) :: t in s.k.threads
    requires Joined(s.k, r, id, c)
    ensures SysInv(Sys(r, s.m))
  {
    forall v | v in s.m
      ensures SortedByPriority(Waiters(r, v), r.threads)
    {
      if v == id {
        SortedInsert(Waiters(s.k, id), s.k.threads, c);
      }
      SamePrioritiesStaySorted(Waiters(r, v), s.k.threads, r.threads);
    }
    forall v | v in s.m
      ensures Agree(r, s.m[v], v)
    {
      assert Agree(s.k, s.m[v], v);
    }
    forall v, x | v in s.m && x in Waiters(r, v)
      ensures OwnsNothing(Sys(r, s.m), x)
    {
      assert OwnsNothing(s, x);
    }
  }

  /** Replacing the record of one mutex, with its list as it is. */
  lemma RecordKeeps(s: Sys, id: nat, x: Mtx)
    requires SysInv(s) && id in s.m && Agree(s.k, x, id) && x.flag == PRIO
    requires x.owner.Some? ==> forall v <- s.m :: x.owner.value !in Waiters(s.k, v)
    ensures SysInv(Sys(s.k, s.m[id := x]))
  {
    var s' := Sys(s.k, s.m[id := x]);
    forall v, t | v in s'.m && t in Waiters(s'.k, v)
      ensures OwnsNothing(s', t)
    {
      assert OwnsNothing(s, t);
    }
  }

  lemma ErrorKeepsSys(s: Sys, c: Tid, e: Error)
    requires SysInv(s) && c in s.k.threads && forall v :: c !in Waiters(s.k, v)
    ensures SysInv(Sys(SetError(s.k, c, e), s.m)) && forall v :: c !in Waiters(SetError(s.k, c, e), v)
  {
    SetErrorKeeps(s.k, c, e);
    OwnerChangeKeeps(s, SetError(s.k, c, e), c);
  }

  /** The waiting branch of a take: the owner inherits, the running thread waits. */
  lemma WaitKeepsSys(s: Sys, id: nat, timed: bool)
    requires SysInv(s) && Running(s.k) && id in s.m && s.m[id].owner.Some? && OwnsNothing(s, s.k.current.value)
    ensures var k1 := Inherit(s.k, s.m[id].owner.value, s.k.threads[s.k.current.value].currentPriority);
            && Inv(k1) && Running(k1) && WaitList(id) in k1.lists && (forall t <- Waiters(k1, id) :: t in k1.threads)
            && SysInv(Sys(Block(k1, id, PRIO, timed), s.m))
  {
    var c, o := s.k.current.value, s.m[id].owner.value;
    var k1 := Inherit(s.k, o, s.k.threads[c].currentPriority);
    InheritKeeps(s.k, o, s.k.threads[c].currentPriority);
    InheritKeepsRunning(s.k, o, s.k.threads[c].currentPriority);
    OwnersDoNotWait(s, o, id);
    OwnerChangeKeeps(s, k1, o);
    BlockJoins(k1, id, timed);
    assert OwnsNothing(Sys(k1, s.m), c);
    JoinKeepsSys(Sys(k1, s.m), Block(k1, id, PRIO, timed), id, c);
  }

  /** The branches of a take that succeed at once. */
  lemma AcquireKeeps(s: Sys, id: nat, c: Tid)
    requires SysInv(s) && id in s.m && c in s.k.threads && forall v :: c !in Waiters(s.k, v)
    requires Owns(s, c, id) ==> s.m[id].hold + 1 < WORD8
    requires Owns(s, c, id) || s.m[id].value > 0
    ensures SysInv(Sys(s.k, s.m[id := Acquired(s.m[id], c, s.k.threads[c].currentPriority)]))
  {
    RecordKeeps(s, id, Acquired(s.m[id], c, s.k.threads[c].currentPriority));
  }

  predicate TakesAtOnce(s: Sys, id: nat)
    requires s.k.current.Some? && id in s.m
  {
    Owns(s, s.k.current.value, id) || s.m[id].value > 0
  }

  lemma TakeCases(s: Sys, id: nat, time: int)
    requires SysInv(s) && SysEnabled(s, TakeOp(id, time))
    ensures var c, x, r := s.k.current.value, s.m[id], SysStep(s, TakeOp(id, time));
            var k0 := SetError(s.k, c, EOK);
            && (TakesAtOnce(s, id) ==> r == Sys(k0, s.m[id := Acquired(x, c, k0.threads[c].currentPriority)]))
            && (!TakesAtOnce(s, id) && time == 0 ==> r == Sys(SetError(k0, c, ETIMEOUT), s.m))
            && (!TakesAtOnce(s, id) && time != 0 ==>
                  && x.owner.Some? && x.owner.value in k0.threads && Shaped(k0)
                  && var k1 := Inherit(k0, x.owner.value, k0.threads[c].currentPriority);
                  && Inv(k1) && Running(k1) && WaitList(id) in k1.lists && (forall t <- Waiters(k1, id) :: t in k1.threads)
                  && r == Sys(Block(k1, id, PRIO, time > 0), s.m))
  {
    var c, x := s.k.current.value, s.m[id];
    assert s.m[id := x] == s.m;
    SetErrorKeeps(s.k, c, EOK);
    if !TakesAtOnce(s, id) && time != 0 {
      var k0 := SetError(s.k, c, EOK);
      InheritKeeps(k0, x.owner.value, k0.threads[c].currentPriority);
      InheritKeepsRunning(k0, x.owner.value, k0.threads[c].currentPriority);
      WaitersAreNotInitial(Inherit(k0, x.owner.value, k0.threads[c].currentPriority), id);
    }
  }

  lemma TakeKeepsSys(s: Sys, id: nat, time: int)
    requires SysInv(s) && SysEnabled(s, TakeOp(id, time))
    ensures SysInv(SysStep(s, TakeOp(id, time)))
  {
    var c := s.k.current.value;
    var s0 := Sys(SetError(s.k, c, EOK), s.m);
    TakeCases(s, id, time);
    RunningDoesNotWait(s.k, c);
    ErrorKeepsSys(s, c, EOK);
    if TakesAtOnce(s, id) {
      AcquireKeeps(s0, id, c);
    } else if time == 0 {
      ErrorKeepsSys(s0, c, ETIMEOUT);
    } else {
      assert OwnsNothing(s0, c);
      WaitKeepsSys(s0, id, time > 0);
    }
  }

  lemma OwnersDoNotWait(s: Sys, t: Tid, id: nat)
    requires SysInv(s) && Owns(s, t, id)
    ensures forall v <- s.m :: t !in Waiters(s.k, v)
  {
    assert forall v | v in s.m :: t in Waiters(s.k, v) ==> OwnsNothing(s, t);
  }

  lemma SurrenderKeeps(s: Sys, id: nat)
    requires SysInv(s) && id in s.m && s.m[id].hold == 1 && forall t <- Waiters(s.k, id) :: t in s.k.threads
    ensures var (k', x') := Surrender(s.k, s.m[id], id); SysInv(Sys(k', s.m[id := x']))
  {
    if Waiters(s.k, id) != [] {
      HandOverKeeps(s, id);
    } else {
      RecordKeeps(s, id, s.m[id].(value := s.m[id].value + 1, owner := None, originalPriority := 0xFF, hold := 0));
    }
  }

  lemma ReleaseKeepsSys(s: Sys, id: nat)
    requires SysInv(s) && SysEnabled(s, ReleaseOp(id))
    ensures SysInv(SysStep(s, ReleaseOp(id)))
  {
    hide Inv, GiveBack, Surrender;
    var c, x := s.k.current.value, s.m[id];
    RunningDoesNotWait(s.k, c);
    if x.owner != Some(c) {
      ErrorKeepsSys(s, c, ERROR);
      assert s.m[id := x] == s.m;
    } else if x.hold > 1 {
      RecordKeeps(s, id, x.(hold := x.hold - 1));
    } else {
      LastReleaseKeeps(s, id);
    }
  }

  lemma LastReleaseKeeps(s: Sys, id: nat)
    requires SysInv(s) && Running(s.k) && Owns(s, s.k.current.value, id) && s.m[id].hold == 1
    ensures var k1 := GiveBack(s.k, s.k.current.value, s.m[id].originalPriority);
            && SysInv(Sys(k1, s.m)) && (forall t <- Waiters(k1, id) :: t in k1.threads)
            && var (k', x') := Surrender(k1, s.m[id], id); SysInv(Sys(k', s.m[id := x']))
  {
    var c := s.k.current.value;
    RunningDoesNotWait(s.k, c);
    GiveBackKeeps(s.k, c, s.m[id].originalPriority);
    var k1 := GiveBack(s.k, c, s.m[id].originalPriority);
    OwnerChangeKeeps(s, k1, c);
    SurrenderKeeps(Sys(k1, s.m), id);
  }

  /** The first waiter becomes the owner and leaves the list. */
  lemma HandOverKeeps(s: Sys, id: nat)
    requires SysInv(s) && id in s.m && s.m[id].hold == 1 && Waiters(s.k, id) != []
    ensures Waiters(s.k, id)[0] in s.k.threads
    ensures var t := Waiters(s.k, id)[0];
            SysInv(Sys(WakeFirst(s.k, id),
                       s.m[id := s.m[id].(owner := Some(t), originalPriority := s.k.threads[t].currentPriority, hold := 1)]))
  {
    var t := Waiters(s.k, id)[0];
    WakeFirstEffect(s.k, id);
    assert t in Waiters(s.k, id) && PlacedRight(s.k, t);
    FirstLeavesKeeps(s, WakeFirst(s.k, id), id);
    HeadLeft(s.k, id);
    RecordKeeps(Sys(WakeFirst(s.k, id), s.m), id,
                s.m[id].(owner := Some(t), originalPriority := s.k.threads[t].currentPriority, hold := 1));
  }

  lemma HeadLeft(k: Sched, id: nat)
    requires Inv(k) && Waiters(k, id) != []
    ensures forall v :: Waiters(k, id)[0] !in Waiters(WakeFirst(k, id), v)
  {
    var t := Waiters(k, id)[0];
    assert t in Waiters(k, id) && PlacedRight(k, t);
    WakeFirstEffect(k, id);
  }

  lemma FirstLeavesKeeps(s: Sys, r: Sched, id: nat)
    requires SysInv(s) && Waiters(s.k, id) != [] && Inv(r)
    requires r.lists.Keys == s.k.lists.Keys && r.priorityMax == s.k.priorityMax && r.threads.Keys == s.k.threads.Keys
    requires forall t <- s.k.threads :: r.threads[t].currentPriority == s.k.threads[t].currentPriority
    requires forall v :: Waiters(r, v) == if v == id then Waiters(s.k, id)[1..] else Waiters(s.k, v)
    ensures SysInv(Sys(r, s.m))
  {
    forall v | v in s.m
      ensures SortedByPriority(Waiters(r, v), r.threads)
    {
      SamePrioritiesStaySorted(Waiters(s.k, v), s.k.threads, r.threads);
    }
    FewerWaitersKeep(s, r);
  }

  /** A step of the rest of the kernel takes at most one waiter off a list. */
  lemma OtherKeepsList(k: Sched, a: Step, v: nat)
    requires Inv(k) && Enabled(k, a) && (a.DoBlock? ==> a.w != v) && !a.DoChangePriority?
    requires SortedByPriority(Waiters(k, v), k.threads)
    ensures var r := Apply(k, a);
            SortedByPriority(Waiters(r, v), r.threads) && forall x <- Waiters(r, v) :: x in Waiters(k, v)
  {
    hide SortedByPriority, Apply;
    var r := Apply(k, a);
    StepPriorities(k, a);
    StepWaiters(k, a, v);
    if Leaver(k, a).Some? {
      SortedWithout(Waiters(k, v), k.threads, Leaver(k, a).value);
    }
    WaitersAreNotInitial(k, v);
    SamePrioritiesStaySorted(Waiters(r, v), k.threads, r.threads);
  }

  /** Waiters may leave, as long as the lists stay sorted. */
  lemma FewerWaitersKeep(s: Sys, r: Sched)
    requires SysInv(s) && Inv(r) && r.lists.Keys == s.k.lists.Keys && r.priorityMax == s.k.priorityMax && r.threads.Keys == s.k.threads.Keys
    requires forall v <- s.m :: SortedByPriority(Waiters(r, v), r.threads)
    requires forall v, x | v in s.m && x in Waiters(r, v) :: x in Waiters(s.k, v)
    ensures SysInv(Sys(r, s.m))
  {
    hide Inv, SortedByPriority;
    forall v | v in s.m
      ensures Agree(r, s.m[v], v)
    {
      assert Agree(s.k, s.m[v], v);
      assert Waiters(r, v) != [] ==> Waiters(r, v)[0] in Waiters(s.k, v);
    }
    forall v, x | v in s.m && x in Waiters(r, v)
      ensures OwnsNothing(Sys(r, s.m), x)
    {
      assert OwnsNothing(s, x);
    }
  }

  lemma OtherKeepsSys(s: Sys, a: Step)
    requires SysInv(s) && SysEnabled(s, Other(a))
    ensures SysInv(SysStep(s, Other(a)))
  {
    hide Inv, SortedByPriority, Agree, Apply;
    StepKeeps(s.k, a);
    StepPriorities(s.k, a);
    StepListKeys(s.k, a);
    forall v | v in s.m
      ensures SortedByPriority(Waiters(Apply(s.k, a), v), Apply(s.k, a).threads)
      ensures forall x <- Waiters(Apply(s.k, a), v) :: x in Waiters(s.k, v)
    {
      OtherKeepsList(s.k, a, v);
    }
    FewerWaitersKeep(s, Apply(s.k, a));
  }

  lemma SysStepKeeps(s: Sys, op: Op)
    requires SysInv(s) && SysEnabled(s, op)
    ensures SysInv(SysStep(s, op))
  {
    match op
    case TakeOp(id, time) => TakeKeepsSys(s, id, time);
    case ReleaseOp(id) => ReleaseKeepsSys(s, id);
    case Other(a) => OtherKeepsSys(s, a);
  }

  // ---------- inheritance ----------

  /** A change that makes no owner worse and no waiter better, and adds no waiter, keeps inheritance. */
  lemma InheritedFrame(s: Sys, r: Sys)
    requires Inherited(s) && r.m.Keys == s.m.Keys
    requires forall id, t | id in s.m && t in Waiters(r.k, id) && r.m[id].owner.Some? ::
               && t in Waiters(s.k, id) && Prio(s, t) <= Prio(r, t)
               && r.m[id].owner == s.m[id].owner && Prio(r, r.m[id].owner.value) <= Prio(s, r.m[id].owner.value)
    ensures Inherited(r)
  {
  }

  lemma JoinKeepsInherited(s: Sys, r: Sched, id: nat, c: Tid)
    requires Inherited(s) && id in s.m && s.m[id].owner.Some? && s.m[id].owner.value in s.k.threads
    requires c in s.k.threads && (forall t <- Waiters(s.k, id) :: t in s.k.threads) && Joined(s.k, r, id, c)
    requires Prio(s, s.m[id].owner.value) <= Prio(s, c)
    ensures Inherited(Sys(r, s.m))
  {
    var s' := Sys(r, s.m);
    forall v, t | v in s.m && s.m[v].owner.Some? && t in Waiters(r, v)
      ensures Prio(s', s.m[v].owner.value) <= Prio(s', t)
    {
      assert Prio(s', t) == Prio(s, t) && Prio(s', s.m[v].owner.value) == Prio(s, s.m[v].owner.value);
      assert t in Waiters(s.k, v) || (v == id && t == c);
    }
  }

  lemma WaitKeepsInherited(s: Sys, id: nat, timed: bool)
    requires SysInv(s) && Inherited(s)
    requires Running(s.k) && id in s.m && s.m[id].owner.Some? && OwnsNothing(s, s.k.current.value)
    ensures var k1 := Inherit(s.k, s.m[id].owner.value, s.k.threads[s.k.current.value].currentPriority);
            && Inv(k1) && Running(k1) && WaitList(id) in k1.lists && (forall t <- Waiters(k1, id) :: t in k1.threads)
            && Inherited(Sys(Block(k1, id, PRIO, timed), s.m))
  {
    var c, o := s.k.current.value, s.m[id].owner.value;
    var p := s.k.threads[c].currentPriority;
    var k1 := Inherit(s.k, o, p);
    InheritKeeps(s.k, o, p);
    InheritKeepsRunning(s.k, o, p);
    OwnersDoNotWait(s, o, id);
    InheritedFrame(s, Sys(k1, s.m));
    BlockJoins(k1, id, timed);
    JoinKeepsInherited(Sys(k1, s.m), Block(k1, id, PRIO, timed), id, c);
  }

  lemma TakeKeepsInherited(s: Sys, id: nat, time: int)
    requires SysInv(s) && SysEnabled(s, TakeOp(id, time)) && Inherited(s)
    ensures Inherited(SysStep(s, TakeOp(id, time)))
  {
    hide Inv, Block, Inherit;
    var c := s.k.current.value;
    var s0 := Sys(SetError(s.k, c, EOK), s.m);
    TakeCases(s, id, time);
    RunningDoesNotWait(s.k, c);
    ErrorKeepsSys(s, c, EOK);
    InheritedFrame(s, s0);
    if TakesAtOnce(s, id) {
      AcquireKeepsInherited(s0, id, c);
    } else if time == 0 {
      InheritedFrame(s0, SysStep(s, TakeOp(id, time)));
    } else {
      assert OwnsNothing(s0, c);
      WaitKeepsInherited(s0, id, time > 0);
    }
  }

  /** A mutex that can be taken at once has no waiters to outrank its new owner. */
  lemma AcquireKeepsInherited(s: Sys, id: nat, c: Tid)
    requires SysInv(s) && Inherited(s) && id in s.m && c in s.k.threads
    requires Owns(s, c, id) || s.m[id].value > 0
    ensures Inherited(Sys(s.k, s.m[id := Acquired(s.m[id], c, s.k.threads[c].currentPriority)]))
  {
    assert Agree(s.k, s.m[id], id);
    InheritedFrame(s, Sys(s.k, s.m[id := Acquired(s.m[id], c, s.k.threads[c].currentPriority)]));
  }

  /** What a caller can check before a release: if it is the last release of the mutex, the priority that
      comes back is no worse than that of anybody waiting for another mutex the thread still owns. */
  ghost predicate SafeToRelease(s: Sys, id: nat)
    requires s.k.current.Some? && id in s.m
  {
    var c := s.k.current.value;
    Owns(s, c, id) && s.m[id].hold == 1 ==>
      forall v, t | v in s.m && v != id && Owns(s, c, v) && t in Waiters(s.k, v) :: s.m[id].originalPriority <= Prio(s, t)
  }

  lemma SurrenderView(k: Sched, x: Mtx, id: nat)
    requires Inv(k) && forall t <- Waiters(k, id) :: t in k.threads
    ensures var (r, x') := Surrender(k, x, id);
            var q := Waiters(k, id);
            && r.threads.Keys == k.threads.Keys
            && (forall t <- k.threads :: r.threads[t].currentPriority == k.threads[t].currentPriority)
            && (forall v | v != id :: Waiters(r, v) == Waiters(k, v))
            && (q != [] ==> Waiters(r, id) == q[1..] && x'.owner == Some(q[0]) && x'.originalPriority == k.threads[q[0]].currentPriority)
            && (q == [] ==> Waiters(r, id) == [] && x'.owner == None)
  {
    if Waiters(k, id) != [] {
      WakeFirstEffect(k, id);
    }
  }

  lemma LastReleaseIs(s: Sys, id: nat)
    requires SysInv(s) && SysEnabled(s, ReleaseOp(id)) && Owns(s, s.k.current.value, id) && s.m[id].hold == 1
    ensures var k1 := GiveBack(s.k, s.k.current.value, s.m[id].originalPriority);
            && Inv(k1) && (forall t <- Waiters(k1, id) :: t in k1.threads)
            && var (k', x') := Surrender(k1, s.m[id], id); SysStep(s, ReleaseOp(id)) == Sys(k', s.m[id := x'])
  {
    GiveBackKeeps(s.k, s.k.current.value, s.m[id].originalPriority);
    WaitersAreNotInitial(GiveBack(s.k, s.k.current.value, s.m[id].originalPriority), id);
  }

  lemma LastReleaseView(s: Sys, id: nat)
    requires SysInv(s) && SysEnabled(s, ReleaseOp(id)) && Owns(s, s.k.current.value, id) && s.m[id].hold == 1
    ensures var r, c, q := SysStep(s, ReleaseOp(id)), s.k.current.value, Waiters(s.k, id);
            && r.m.Keys == s.m.Keys && (forall v <- s.m | v != id :: r.m[v] == s.m[v])
            && (forall t :: Prio(r, t) == if t == c then s.m[id].originalPriority else Prio(s, t))
            && (forall v | v != id :: Waiters(r.k, v) == Waiters(s.k, v))
            && (q != [] ==> Waiters(r.k, id) == q[1..] && r.m[id].owner == Some(q[0]) && r.m[id].originalPriority == Prio(s, q[0]))
            && (q == [] ==> Waiters(r.k, id) == [] && r.m[id].owner == None)
  {
    hide PlacedRight, ListsOk, GiveBack, Surrender, SortedByPriority;
    var c := s.k.current.value;
    RunningDoesNotWait(s.k, c);
    LastReleaseIs(s, id);
    GiveBackKeeps(s.k, c, s.m[id].originalPriority);
    var k1 := GiveBack(s.k, c, s.m[id].originalPriority);
    SurrenderView(k1, s.m[id], id);
    assert Waiters(k1, id) != [] ==> Waiters(k1, id)[0] in Waiters(s.k, id);
  }

  /** A release keeps inheritance if and only if it is safe in that sense: releasing mutexes that are held
      together gives the priority back too early exactly when another held mutex has a better waiter. */
  lemma ReleaseKeepsInheritanceIff(s: Sys, id: nat)
    requires SysInv(s) && SysEnabled(s, ReleaseOp(id)) && Inherited(s)
    ensures Inherited(SysStep(s, ReleaseOp(id))) <==> SafeToRelease(s, id)
  {
    var c, r := s.k.current.value, SysStep(s, ReleaseOp(id));
    hide Inv, GiveBack, Surrender, SortedByPriority, Agree, Inherited;
    if !Owns(s, c, id) || s.m[id].hold > 1 {
      EarlyReleaseKeeps(s, id);
    } else {
      LastReleaseView(s, id);
      RunningDoesNotWait(s.k, c);
      if SafeToRelease(s, id) {
        SafeReleaseKeeps(s, r, id);
      } else {
        var v, t :| v in s.m && v != id && Owns(s, c, v) && t in Waiters(s.k, v) && s.m[id].originalPriority > Prio(s, t);
        assert t in Waiters(r.k, v) && r.m[v].owner == Some(c);
      }
    }
  }

  lemma EarlyReleaseKeeps(s: Sys, id: nat)
    requires SysInv(s) && SysEnabled(s, ReleaseOp(id)) && Inherited(s)
    requires !Owns(s, s.k.current.value, id) || s.m[id].hold > 1
    ensures Inherited(SysStep(s, ReleaseOp(id)))
  {
    hide PlacedRight, ListsOk, SortedByPriority;
    if !Owns(s, s.k.current.value, id) {
      SetErrorKeeps(s.k, s.k.current.value, ERROR);
    }
    InheritedFrame(s, SysStep(s, ReleaseOp(id)));
  }

  lemma SafeReleaseKeeps(s: Sys, r: Sys, id: nat)
    requires SysInv(s) && Inherited(s) && s.k.current.Some? && id in s.m && SafeToRelease(s, id)
    requires Owns(s, s.k.current.value, id) && s.m[id].hold == 1
    requires forall v :: s.k.current.value !in Waiters(s.k, v)
    requires r.m.Keys == s.m.Keys && forall v <- s.m | v != id :: r.m[v] == s.m[v]
    requires forall t :: Prio(r, t) == if t == s.k.current.value then s.m[id].originalPriority else Prio(s, t)
    requires forall v | v != id :: Waiters(r.k, v) == Waiters(s.k, v)
    requires var q := Waiters(s.k, id);
             if q == [] then Waiters(r.k, id) == [] else Waiters(r.k, id) == q[1..] && r.m[id].owner == Some(q[0])
    ensures Inherited(r)
  {
    forall v, t | v in r.m && r.m[v].owner.Some? && t in Waiters(r.k, v)
      ensures Prio(r, r.m[v].owner.value) <= Prio(r, t)
    {
      if v == id {
        NextOwnerIsBest(s, id, t);
        assert Waiters(s.k, id)[0] in Waiters(s.k, id);
      }
    }
  }

  /** The first waiter of a sorted list is no worse than those behind him. */
  lemma NextOwnerIsBest(s: Sys, id: nat, t: Tid)
    requires SysInv(s) && id in s.m && Waiters(s.k, id) != [] && t in Waiters(s.k, id)[1..]
    ensures Prio(s, Waiters(s.k, id)[0]) <= Prio(s, t)
  {
    var q := Waiters(s.k, id);
    assert SortedByPriority(q, s.k.threads);
    var i :| 0 <= i < |q[1..]| && q[1..][i] == t;
    assert q[i + 1] == t;
  }

  lemma OtherKeepsInherited(s: Sys, a: Step)
    requires SysInv(s) && SysEnabled(s, Other(a)) && Inherited(s)
    ensures Inherited(SysStep(s, Other(a)))
  {
    hide Inv, Apply, SortedByPriority;
    var r := SysStep(s, Other(a));
    StepPriorities(s.k, a);
    forall id, t | id in s.m && t in Waiters(r.k, id) && r.m[id].owner.Some?
      ensures t in Waiters(s.k, id) && Prio(s, t) <= Prio(r, t)
      ensures Prio(r, r.m[id].owner.value) <= Prio(s, r.m[id].owner.value)
    {
      StepWaiters(s.k, a, id);
      WaitersAreNotInitial(s.k, id);
    }
    InheritedFrame(s, r);
  }

  // ---------- runs ----------

  ghost predicate Runs(s: Sys, ops: seq<Op>)
    requires SysInv(s)
    decreases |ops|
  {
    ops != [] ==> SysEnabled(s, ops[0]) && (SysStepKeeps(s, ops[0]); Runs(SysStep(s, ops[0]), ops[1..]))
  }

  /** Inheritance holds in every state of the run. */
  ghost predicate AlwaysInherited(s: Sys, ops: seq<Op>)
    requires SysInv(s) && Runs(s, ops)
    decreases |ops|
  {
    Inherited(s) && (ops != [] ==> (SysStepKeeps(s, ops[0]); AlwaysInherited(SysStep(s, ops[0]), ops[1..])))
  }

  /** Every release of the run is safe when it is made. */
  ghost predicate ReleasesSafely(s: Sys, ops: seq<Op>)
    requires SysInv(s) && Runs(s, ops)
    decreases |ops|
  {
    ops != [] ==>
      && (ops[0].ReleaseOp? ==> SafeToRelease(s, ops[0].id))
      && (SysStepKeeps(s, ops[0]); ReleasesSafely(SysStep(s, ops[0]), ops[1..]))
  }

  /** Over every run in which threads wait only while owning nothing, no owner ever runs at a priority
      worse than that of a thread waiting for him, if and only if every release is safe. */
  lemma {:induction false} InheritanceHoldsIff(s: Sys, ops: seq<Op>)
    requires SysInv(s) && Runs(s, ops) && Inherited(s)
    ensures AlwaysInherited(s, ops) <==> ReleasesSafely(s, ops)
    decreases |ops|
  {
    if ops != [] {
      SysStepKeeps(s, ops[0]);
      match ops[0] {
        case TakeOp(id, time) => TakeKeepsInherited(s, id, time);
        case ReleaseOp(id) => ReleaseKeepsInheritanceIff(s, id);
        case Other(a) => OtherKeepsInherited(s, a);
      }
      if Inherited(SysStep(s, ops[0])) {
        InheritanceHoldsIff(SysStep(s, ops[0]), ops[1..]);
      }
    }
  }

  // ---------- priorities come back ----------

  function Base(s: Sys, t: Tid): nat {
    if t in s.k.threads then s.k.threads[t].initPriority else 0
  }

  /** No thread owns two mutexes; a thread that owns none is at its own priority, and an owner is no worse
      than his own priority, which is the one he will get back. */
  ghost predicate AtBase(s: Sys) {
    && (forall v, w | v in s.m && w in s.m && v != w && s.m[v].owner.Some? :: s.m[v].owner != s.m[w].owner)
    && (forall t <- s.k.threads | OwnsNothing(s, t) :: Prio(s, t) == Base(s, t))
    && forall id | id in s.m && s.m[id].owner.Some? ::
         var o := s.m[id].owner.value;
         s.m[id].originalPriority == Base(s, o) && Prio(s, o) <= Base(s, o)
  }

  /** The discipline: a thread takes a mutex only when it owns no other. */
  predicate OneAtATime(s: Sys, op: Op)
    requires s.k.current.Some?
  {
    (op.TakeOp? && op.id in s.m && TakesAtOnce(s, op.id) && !Owns(s, s.k.current.value, op.id)) ==>
      OwnsNothing(s, s.k.current.value)
  }

  /** The waiting branch changes one priority, that of the owner, and no initial priority. */
  lemma WaitView(k: Sched, id: nat, o: Tid, timed: bool)
    requires Inv(k) && Running(k) && WaitList(id) in k.lists && o in k.threads
    ensures var p := k.threads[k.current.value].currentPriority;
            var k1 := Inherit(k, o, p);
            && Inv(k1) && Running(k1) && WaitList(id) in k1.lists && (forall t <- Waiters(k1, id) :: t in k1.threads)
            && var r := Block(k1, id, PRIO, timed);
            && r.threads.Keys == k.threads.Keys
            && (forall t <- k.threads :: r.threads[t].initPriority == k.threads[t].initPriority)
            && (forall t <- k.threads | t != o :: r.threads[t].currentPriority == k.threads[t].currentPriority)
            && r.threads[o].currentPriority == if p < k.threads[o].currentPriority then p else k.threads[o].currentPriority
  {
    hide Block, Inherit, PlacedRight, ListsOk;
    var p := k.threads[k.current.value].currentPriority;
    InheritKeeps(k, o, p);
    InheritKeepsRunning(k, o, p);
    BlockEffect(Inherit(k, o, p), id, PRIO, timed);
    InheritThreads(k, o, p);
    BlockPriorities(k.threads, Inherit(k, o, p).threads, Block(Inherit(k, o, p), id, PRIO, timed).threads, k.current.value, o, p);
  }

  lemma InheritThreads(k: Sched, o: Tid, p: nat)
    requires Inv(k) && o in k.threads && p < k.priorityMax
    ensures var r := Inherit(k, o, p);
            && r.threads.Keys == k.threads.Keys && r.current == k.current
            && (forall t <- k.threads | t != o :: r.threads[t] == k.threads[t])
            && r.threads[o] == k.threads[o].(currentPriority := if p < k.threads[o].currentPriority then p else k.threads[o].currentPriority)
  {
  }

  /** Blocking thread c changes no priority. */
  lemma BlockPriorities(before: map<Tid, Thread>, mid: map<Tid, Thread>, after: map<Tid, Thread>, c: Tid, o: Tid, p: nat)
    requires mid.Keys == before.Keys && c in mid && o in mid && after.Keys == mid.Keys
    requires forall t <- before | t != o :: mid[t] == before[t]
    requires mid[o] == before[o].(currentPriority := if p < before[o].currentPriority then p else before[o].currentPriority)
    requires forall t <- mid | t != c :: after[t] == mid[t]
    requires after[c].initPriority == mid[c].initPriority && after[c].currentPriority == mid[c].currentPriority
    ensures forall t <- before :: after[t].initPriority == before[t].initPriority
    ensures forall t <- before | t != o :: after[t].currentPriority == before[t].currentPriority
    ensures after[o].currentPriority == if p < before[o].currentPriority then p else before[o].currentPriority
  {
  }

  predicate Waits(s: Sys, id: nat, time: int)
    requires s.k.current.Some? && id in s.m
  {
    !TakesAtOnce(s, id) && time != 0
  }

  lemma TakeNowView(s: Sys, id: nat, time: int)
    requires SysInv(s) && SysEnabled(s, TakeOp(id, time)) && !Waits(s, id, time)
    ensures var r := SysStep(s, TakeOp(id, time));
            r.k.threads.Keys == s.k.threads.Keys && forall t :: Base(r, t) == Base(s, t) && Prio(r, t) == Prio(s, t)
  {
    TakeCases(s, id, time);
  }

  lemma TakeWaitView(s: Sys, id: nat, time: int)
    requires SysInv(s) && SysEnabled(s, TakeOp(id, time)) && Waits(s, id, time)
    ensures s.m[id].owner.Some?
    ensures var r, o := SysStep(s, TakeOp(id, time)), s.m[id].owner.value;
            && r.k.threads.Keys == s.k.threads.Keys
            && (forall t :: Base(r, t) == Base(s, t))
            && (forall t: Tid | t != o :: Prio(r, t) == Prio(s, t))
            && Prio(r, o) <= Prio(s, o)
  {
    hide Inv, Block, Inherit;
    TakeCases(s, id, time);
    var k0 := SetError(s.k, s.k.current.value, EOK);
    SetErrorKeeps(s.k, s.k.current.value, EOK);
    WaitView(k0, id, s.m[id].owner.value, time > 0);
    var r := SysStep(s, TakeOp(id, time)).k;
    assert forall t <- k0.threads :: t in r.threads && r.threads[t].initPriority == s.k.threads[t].initPriority;
  }

  lemma LastReleaseBase(s: Sys, id: nat)
    requires SysInv(s) && SysEnabled(s, ReleaseOp(id)) && Owns(s, s.k.current.value, id) && s.m[id].hold == 1
    ensures var r := SysStep(s, ReleaseOp(id));
            r.k.threads.Keys == s.k.threads.Keys && forall t :: Base(r, t) == Base(s, t)
  {
    hide GiveBack, WakeFirst, PlacedRight, ListsOk, SortedByPriority;
    LastReleaseIs(s, id);
    GiveBackKeeps(s.k, s.k.current.value, s.m[id].originalPriority);
    var k1 := GiveBack(s.k, s.k.current.value, s.m[id].originalPriority);
    if Waiters(k1, id) != [] {
      WakeFirstEffect(k1, id);
    }
  }

  lemma BaseIsFixed(s: Sys, op: Op)
    requires SysInv(s) && SysEnabled(s, op)
    ensures SysStep(s, op).k.threads.Keys == s.k.threads.Keys
    ensures forall t :: Base(SysStep(s, op), t) == Base(s, t)
  {
    match op
    case TakeOp(id, time) =>
      if Waits(s, id, time) {
        TakeWaitView(s, id, time);
      } else {
        TakeNowView(s, id, time);
      }
    case ReleaseOp(id) =>
      if Owns(s, s.k.current.value, id) && s.m[id].hold == 1 {
        LastReleaseBase(s, id);
      }
    case Other(a) => StepPriorities(s.k, a);
  }

  lemma TakeRecords(s: Sys, id: nat, time: int)
    requires SysInv(s) && SysEnabled(s, TakeOp(id, time))
    ensures SysStep(s, TakeOp(id, time)).m ==
              if TakesAtOnce(s, id) then s.m[id := Acquired(s.m[id], s.k.current.value, Prio(s, s.k.current.value))] else s.m
  {
    TakeCases(s, id, time);
  }

  lemma TakeKeepsAtBase(s: Sys, id: nat, time: int)
    requires SysInv(s) && SysEnabled(s, TakeOp(id, time)) && AtBase(s) && OneAtATime(s, TakeOp(id, time))
    ensures AtBase(SysStep(s, TakeOp(id, time)))
  {
    var c, r := s.k.current.value, SysStep(s, TakeOp(id, time));
    TakeRecords(s, id, time);
    if Waits(s, id, time) {
      TakeWaitView(s, id, time);
      BoostAtBase(s, r, id);
    } else {
      TakeNowView(s, id, time);
      if TakesAtOnce(s, id) {
        AcquireAtBase(s, r, id, c);
      } else {
        SameAtBase(s, r);
      }
    }
  }

  lemma SameAtBase(s: Sys, r: Sys)
    requires AtBase(s) && r.m == s.m && r.k.threads.Keys == s.k.threads.Keys
    requires forall t :: Base(r, t) == Base(s, t) && Prio(r, t) == Prio(s, t)
    ensures AtBase(r)
  {
    forall t | t in r.k.threads && OwnsNothing(r, t)
      ensures Prio(r, t) == Base(r, t)
    {
      assert OwnsNothing(s, t);
    }
  }

  lemma AcquireAtBase(s: Sys, r: Sys, id: nat, c: Tid)
    requires AtBase(s) && id in s.m && c in s.k.threads && r.k.threads.Keys == s.k.threads.Keys
    requires r.m == s.m[id := Acquired(s.m[id], c, Prio(s, c))]
    requires forall t :: Base(r, t) == Base(s, t) && Prio(r, t) == Prio(s, t)
    requires Owns(s, c, id) || OwnsNothing(s, c)
    requires Owns(s, c, id) || s.m[id].owner.None?
    ensures AtBase(r)
  {
    forall t | t in r.k.threads && OwnsNothing(r, t)
      ensures Prio(r, t) == Base(r, t)
    {
      assert r.m[id].owner == Some(c);
      assert forall v <- s.m :: v in r.m && (v != id ==> r.m[v] == s.m[v]);
      assert OwnsNothing(s, t);
    }
  }

  lemma BoostAtBase(s: Sys, r: Sys, id: nat)
    requires AtBase(s) && id in s.m && s.m[id].owner.Some? && r.m == s.m && r.k.threads.Keys == s.k.threads.Keys
    requires forall t :: Base(r, t) == Base(s, t)
    requires forall t: Tid | s.m[id].owner != Some(t) :: Prio(r, t) == Prio(s, t)
    requires Prio(r, s.m[id].owner.value) <= Prio(s, s.m[id].owner.value)
    ensures AtBase(r)
  {
    forall t | t in r.k.threads && OwnsNothing(r, t)
      ensures Prio(r, t) == Base(r, t)
    {
      assert OwnsNothing(s, t);
    }
  }

  lemma ReleaseKeepsAtBase(s: Sys, id: nat)
    requires SysInv(s) && SysEnabled(s, ReleaseOp(id)) && AtBase(s)
    ensures AtBase(SysStep(s, ReleaseOp(id)))
  {
    var c, r := s.k.current.value, SysStep(s, ReleaseOp(id));
    BaseIsFixed(s, ReleaseOp(id));
    if !Owns(s, c, id) {
      assert r.m == s.m;
      SameAtBase(s, r);
    } else if s.m[id].hold > 1 {
      HeldAtBase(s, r, id);
    } else {
      LastReleaseView(s, id);
      if Waiters(s.k, id) != [] {
        var t := Waiters(s.k, id)[0];
        assert t in Waiters(s.k, id) && OwnsNothing(s, t) && PlacedRight(s.k, t);
      }
      SurrenderAtBase(s, r, id, c);
    }
  }

  lemma HeldAtBase(s: Sys, r: Sys, id: nat)
    requires AtBase(s) && id in s.m && r.k == s.k && id in r.m && r.m == s.m[id := s.m[id].(hold := r.m[id].hold)]
    ensures AtBase(r)
  {
    forall t | t in r.k.threads && OwnsNothing(r, t)
      ensures Prio(r, t) == Base(r, t)
    {
      assert forall v <- s.m :: v in r.m && r.m[v].owner == s.m[v].owner;
      assert OwnsNothing(s, t);
    }
  }

  /** The releasing thread is back at its own priority; a new owner was at his. */
  lemma SurrenderAtBase(s: Sys, r: Sys, id: nat, c: Tid)
    requires AtBase(s) && Owns(s, c, id) && r.k.threads.Keys == s.k.threads.Keys
    requires r.m.Keys == s.m.Keys && forall v <- s.m | v != id :: r.m[v] == s.m[v]
    requires forall t :: Base(r, t) == Base(s, t)
    requires forall t :: Prio(r, t) == if t == c then s.m[id].originalPriority else Prio(s, t)
    requires r.m[id].owner.Some? ==>
               var t := r.m[id].owner.value; t != c && t in s.k.threads && OwnsNothing(s, t) && r.m[id].originalPriority == Prio(s, t)
    ensures AtBase(r)
  {
    hide Prio, Base;
    forall t | t in r.k.threads && OwnsNothing(r, t)
      ensures Prio(r, t) == Base(r, t)
    {
      if t != c {
        assert forall v <- s.m | v != id :: r.m[v].owner != Some(t);
        assert OwnsNothing(s, t);
      }
    }
  }

  lemma OtherKeepsAtBase(s: Sys, a: Step)
    requires SysInv(s) && SysEnabled(s, Other(a)) && AtBase(s)
    ensures AtBase(SysStep(s, Other(a)))
  {
    var r := SysStep(s, Other(a));
    BaseIsFixed(s, Other(a));
    StepPriorities(s.k, a);
    forall t
      ensures Prio(r, t) == Prio(s, t)
    {
      if (a == DoStart(t) || a == DoInit(t)) && t in s.k.threads {
        assert OwnsNothing(s, t);
      }
    }
    SameAtBase(s, r);
  }

  ghost predicate OneAtATimeRun(s: Sys, ops: seq<Op>)
    requires SysInv(s) && Runs(s, ops)
    decreases |ops|
  {
    ops != [] ==>
      && (ops[0].TakeOp? ==> OneAtATime(s, ops[0]))
      && (SysStepKeeps(s, ops[0]); OneAtATimeRun(SysStep(s, ops[0]), ops[1..]))
  }

  function Run(s: Sys, ops: seq<Op>): (r: Sys)
    requires SysInv(s) && Runs(s, ops)
    ensures SysInv(r)
    decreases |ops|
  {
    if ops == [] then s else SysStepKeeps(s, ops[0]); Run(SysStep(s, ops[0]), ops[1..])
  }

  /** When every thread holds at most one mutex at a time: in every reachable state, whatever times out
      and whatever is handed over, no owner is worse than his waiters, and every thread that owns nothing is
      at the priority it started with. */
  lemma {:induction false} PrioritiesComeBack(s: Sys, ops: seq<Op>)
    requires SysInv(s) && Runs(s, ops) && OneAtATimeRun(s, ops) && Inherited(s) && AtBase(s)
    ensures var r := Run(s, ops);
            && Inherited(r)
            && (forall t <- r.k.threads | OwnsNothing(r, t) :: r.k.threads[t].currentPriority == r.k.threads[t].initPriority)
    decreases |ops|
  {
    if ops != [] {
      SysStepKeeps(s, ops[0]);
      match ops[0] {
        case TakeOp(id, time) =>
          TakeKeepsInherited(s, id, time);
          TakeKeepsAtBase(s, id, time);
        case ReleaseOp(id) =>
          ReleaseKeepsInheritanceIff(s, id);
          ReleaseKeepsAtBase(s, id);
        case Other(a) =>
          OtherKeepsInherited(s, a);
          OtherKeepsAtBase(s, a);
      }
      PrioritiesComeBack(SysStep(s, ops[0]), ops[1..]);
    }
  }

  // ---------- where it fails ----------

  /** Thread 1, of priority 10, runs at 5 for thread 2, which waits for mutex 0. */
  function RaisedKernel(): Sched {
    var threads := map[1 := Thread(READY, 10, 5, EOK, false, 1, 1), 2 := Thread(SUSPEND, 5, 5, EOK, false, 1, 1)];
    var lists := (map p: nat | p < 32 :: ReadyList(p) := []) + map[WaitList(0) := [2], WaitList(1) := []];
    Sched(32, threads, lists, Some(1), 0, {})
  }

  function NestedHolder(): Sys {
    Sys(RaisedKernel(), map[0 := Mtx(PRIO, 0, Some(1), 10, 1), 1 := Mtx(PRIO, 0, Some(1), 10, 1)])
  }

  lemma RaisedKernelIsRight()
    ensures var k := RaisedKernel(); Inv(k) && forall w :: Waiters(k, w) == if w == 0 then [2] else []
  {
    var k := RaisedKernel();
    assert forall p :: Queue(k, p) == [];
    assert forall w :: Waiters(k, w) == if w == 0 then [2] else [];
    assert PlacedRight(k, 1) && PlacedRight(k, 2);
    assert k.threads.Keys == {1, 2};
    assert ListsOk(k);
  }

  lemma NestedHolderIsRight()
    ensures var s := NestedHolder(); SysInv(s) && Inherited(s) && Waiters(s.k, 0) == [2] && Running(s.k)
  {
    hide Inv, Waiters;
    RaisedKernelIsRight();
  }

  /** Two mutexes held together: thread 1, of priority 10, holds both and was raised to 5 for thread 2, which
      waits for mutex 0. Releasing mutex 1 drops it to 10 while thread 2 still waits. */
  lemma NestedReleaseBreaksInheritance()
    ensures var s := NestedHolder();
            && SysInv(s) && Inherited(s) && SysEnabled(s, ReleaseOp(1)) && !SafeToRelease(s, 1)
            && var r := SysStep(s, ReleaseOp(1));
            !Inherited(r) && Owns(r, 1, 0) && 2 in Waiters(r.k, 0) && Prio(r, 1) == 10 && Prio(r, 2) == 5
  {
    hide Inv, Surrender, GiveBack, ReleaseStep, SysStep;
    var s := NestedHolder();
    NestedHolderIsRight();
    assert 2 in Waiters(s.k, 0);
    ReleaseKeepsInheritanceIff(s, 1);
    LastReleaseView(s, 1);
  }

  /** What a take comes to. The caller gets the mutex exactly when it is free or already its own; it fails
      only with no time to wait; otherwise it sleeps on the list, the mutex is untouched, and the owner has
      from then on a priority no worse than the caller's. */
  lemma TakeOutcome(k: Sched, x: Mtx, id: nat, time: int)
    requires OneOk(k, x, id) && Running(k)
    ensures var (r, x', result) := TakeStep(k, x, id, time);
            var c := k.current.value;
            && (result == OK <==> x.owner == Some(c) || x.owner == None)
            && (result == OK ==> x'.owner == Some(c) && x'.value == 0 && x'.hold == (x.hold + 1) % WORD8
                                 && (x.owner == None ==> x'.originalPriority == k.threads[c].currentPriority))
            && (result == FAILED ==> time == 0 && x' == x)
            && (result != WAITING ==> forall w :: Waiters(r, w) == Waiters(k, w))
            && (result == WAITING ==>
                  && time != 0 && x' == x && c in Waiters(r, id) && c in r.threads && r.threads[c].stat == SUSPEND
                  && x.owner.value in r.threads && r.threads[x.owner.value].currentPriority <= k.threads[c].currentPriority)
  {
    var c := k.current.value;
    var p := k.threads[c].currentPriority;
    SetErrorKeeps(k, c, EOK);
    var k0 := SetError(k, c, EOK);
    if x.owner != Some(c) && x.value == 0 {
      if time == 0 {
        SetErrorKeeps(k0, c, ETIMEOUT);
      } else {
        InheritKeeps(k0, x.owner.value, p);
        InheritKeepsRunning(k0, x.owner.value, p);
        BlockEffect(Inherit(k0, x.owner.value, p), id, x.flag, time > 0);
      }
    }
  }

  /** What a release comes to. Only the owner releases; all but its last release give up one hold and nothing
      else; the last gives back the priority recorded at the first take, and hands the mutex to the head of
      the list, which becomes ready with the mutex in its hands, or leaves it free. */
  lemma ReleaseOutcome(k: Sched, x: Mtx, id: nat)
    requires OneOk(k, x, id) && Running(k)
    ensures var (r, x', result) := ReleaseStep(k, x, id);
            var c, q := k.current.value, Waiters(k, id);
            && (result == FAILED <==> x.owner != Some(c)) && result != WAITING
            && (result == FAILED ==> x' == x && forall w :: Waiters(r, w) == Waiters(k, w))
            && (result == OK && x.hold > 1 ==> r == k && x' == x.(hold := x.hold - 1))
            && (result == OK && x.hold == 1 && q == [] ==> x'.owner == None && x'.value == 1 && x'.hold == 0)
            && (result == OK && x.hold == 1 && q != [] ==>
                  && x'.owner == Some(q[0]) && x'.value == 0 && x'.hold == 1 && Waiters(r, id) == q[1..]
                  && q[0] in k.threads && q[0] in r.threads && r.threads[q[0]].stat == READY
                  && x'.originalPriority == k.threads[q[0]].currentPriority)
            && (result == OK && x.hold == 1 ==> c in r.threads && r.threads[c].currentPriority == x.originalPriority)
  {
    var c := k.current.value;
    RunningDoesNotWait(k, c);
    if x.owner != Some(c) {
      SetErrorKeeps(k, c, ERROR);
    } else if x.hold == 1 {
      GiveBackKeeps(k, c, x.originalPriority);
      var k1 := GiveBack(k, c, x.originalPriority);
      if Waiters(k, id) != [] {
        assert Waiters(k, id)[0] in Waiters(k, id);
        WakeFirstEffect(k1, id);
      }
    }
  }

  /** What rt_mutex_take returns to a caller that waited, once it runs again: it looks at its error only. */
  function WokenResult(k: Sched, t: Tid): Result
    requires t in k.threads
  {
    if k.threads[t].error == EOK then OK else FAILED
  }

  /** A step that takes a waiter off the list of a mutex makes it the owner if and only if it is a release of that mutex. */
  lemma LeaverOwnsIff(s: Sys, op: Op, id: nat, t: Tid)
    requires SysInv(s) && SysEnabled(s, op) && id in s.m && t in Waiters(s.k, id)
    requires t !in Waiters(SysStep(s, op).k, id)
    ensures Owns(SysStep(s, op), t, id) <==> op == ReleaseOp(id)
  {
    assert OwnsNothing(s, t);
    match op
    case TakeOp(v, time) => TakeKeepsWaiter(s, v, time, id, t);
    case ReleaseOp(v) => ReleaseLeaver(s, v, id, t);
    case Other(a) =>
  }

  lemma TakeKeepsWaiter(s: Sys, v: nat, time: int, id: nat, t: Tid)
    requires SysInv(s) && SysEnabled(s, TakeOp(v, time)) && id in s.m && t in Waiters(s.k, id)
    ensures t in Waiters(SysStep(s, TakeOp(v, time)).k, id)
  {
    hide Block, Inherit;
    TakeCases(s, v, time);
    var c, k0 := s.k.current.value, SetError(s.k, s.k.current.value, EOK);
    SetErrorKeeps(s.k, c, EOK);
    SetErrorKeeps(k0, c, ETIMEOUT);
    if !TakesAtOnce(s, v) && time != 0 {
      var o, p := s.m[v].owner.value, k0.threads[c].currentPriority;
      InheritKeeps(k0, o, p);
      BlockJoins(Inherit(k0, o, p), v, time > 0);
    }
  }

  lemma HeadOrBehind(q: seq<Tid>, t: Tid)
    requires t in q
    ensures q != [] && (t == q[0] || t in q[1..])
  {
  }

  lemma ReleaseLeaver(s: Sys, v: nat, id: nat, t: Tid)
    requires SysInv(s) && SysEnabled(s, ReleaseOp(v)) && id in s.m && t in Waiters(s.k, id) && OwnsNothing(s, t)
    requires t !in Waiters(SysStep(s, ReleaseOp(v)).k, id)
    ensures v == id && Owns(SysStep(s, ReleaseOp(v)), t, id)
  {
    hide GiveBack, Surrender;
    var c := s.k.current.value;
    HeadOrBehind(Waiters(s.k, id), t);
    if Owns(s, c, v) && s.m[v].hold == 1 {
      LastReleaseView(s, v);
    } else {
      assert Agree(s.k, s.m[v], v);
      SetErrorKeeps(s.k, c, ERROR);
    }
  }

  /** The failing input: somebody resumes a waiter. It is ready, its take returns success, and it does not own the mutex. */
  lemma ResumedWaiterOwnsNothing(s: Sys, id: nat, t: Tid)
    requires SysInv(s) && id in s.m && t in Waiters(s.k, id) && t in s.k.threads && s.k.threads[t].error == EOK
    ensures SysEnabled(s, Other(DoResume(t)))
    ensures var r := SysStep(s, Other(DoResume(t)));
            && t in r.k.threads && r.k.threads[t].stat == READY && t !in Waiters(r.k, id)
            && WokenResult(r.k, t) == OK && OwnsNothing(r, t)
  {
    WaitersAreNotInitial(s.k, id);
    StepRecords(s.k, DoResume(t));
    StepWaiters(s.k, DoResume(t), id);
    assert OwnsNothing(s, t);
  }

  /** The hold count is a byte: a further take by the owner keeps owner and count in agreement if and only
      if the count is not already at its maximum. */
  lemma RecursiveTakeAgreesIff(k: Sched, x: Mtx, id: nat, time: int)
    requires OneOk(k, x, id) && Running(k) && x.owner == k.current
    ensures Agree(TakeStep(k, x, id, time).0, TakeStep(k, x, id, time).1, id) <==> x.hold != WORD8 - 1
  {
    SetErrorKeeps(k, k.current.value, EOK);
  }

  /** The mutex is free or the running thread's own. */
  ghost predicate ForTaking(k: Sched, x: Mtx, id: nat) {
    OneOk(k, x, id) && Running(k) && (x.owner == k.current || x.value > 0)
  }

  lemma TakeCounts(k: Sched, x: Mtx, id: nat, time: int)
    requires ForTaking(k, x, id) && x.hold < WORD8 - 1
    ensures var (k', x', result) := TakeStep(k, x, id, time);
            result == OK && ForTaking(k', x', id) && k'.current == k.current && x'.owner == k.current && x'.hold == x.hold + 1
  {
    SetErrorKeeps(k, k.current.value, EOK);
    RunningDoesNotWait(k, k.current.value);
  }

  /** n takes in a row. */
  function TakeOften(k: Sched, x: Mtx, id: nat, time: int, n: nat): (r: (Sched, Mtx))
    requires ForTaking(k, x, id) && x.hold + n < WORD8
    ensures ForTaking(r.0, r.1, id) && r.0.current == k.current && r.1.hold == x.hold + n && (n > 0 ==> r.1.owner == k.current)
  {
    if n == 0 then (k, x)
    else
      var (k', x') := TakeOften(k, x, id, time, n - 1);
      TakeCounts(k', x', id, time);
      var (k2, x2, _) := TakeStep(k', x', id, time);
      (k2, x2)
  }

  /** A thread that takes a free mutex 256 times owns it with no holds. */
  lemma HoldsWrapAround(k: Sched, x: Mtx, id: nat, time: int)
    requires OneOk(k, x, id) && Running(k) && x.owner.None?
    ensures var (k', x') := TakeOften(k, x, id, time, WORD8 - 1);
            var (k2, x2, result) := TakeStep(k', x', id, time);
            result == OK && x2.owner == k.current && x2.hold == 0 && !Agree(k2, x2, id)
  {
  }

  // ---------- the mutex object ----------

  class MutexObject {
    const kernel: Kernel
    const id: nat
    const flag: Flag
    var value: nat
    var owner: Option<Tid>
    var originalPriority: nat
    var hold: nat

    function State(): Mtx
      reads this
    {
      Mtx(flag, value, owner, originalPriority, hold)
    }

    ghost predicate Valid()
      reads this, kernel, kernel.readyTable
    {
      kernel.Valid() && OneOk(kernel.State(), State(), id)
    }

    /** rt_mutex_init on a list nobody waits on. */
    constructor (kernel: Kernel, id: nat, flag: Flag)
      requires kernel.Valid() && WaitList(id) in kernel.lists && kernel.lists[WaitList(id)] == []
      ensures Valid() && this.kernel == kernel && this.id == id && State() == Mtx(flag, 1, None, 0xFF, 0)
    {
      this.kernel, this.id, this.flag := kernel, id, flag;
      value, owner, originalPriority, hold := 1, None, 0xFF, 0;
    }

    /** rt_mutex_take up to its rt_schedule. */
    method TakeMutex(time: int) returns (result: Result)
      requires Valid() && Running(kernel.State())
      modifies this, kernel, kernel.readyTable
      ensures kernel.Valid()
      ensures (kernel.State(), State(), result) == TakeStep(old(kernel.State()), old(State()), id, time)
    {
      hide BitmapOk, PlacedRight, ListsOk;
      var thread := kernel.current.value;
      kernel.SetError(thread, EOK);
      if owner == Some(thread) {
        hold := (hold + 1) % WORD8;
        return OK;
      }
      if value > 0 {
        value := value - 1;
        owner := Some(thread);
        originalPriority := kernel.threads[thread].currentPriority;
        hold := (hold + 1) % WORD8;
        return OK;
      }
      if time == 0 {
        kernel.SetError(thread, ETIMEOUT);
        return FAILED;
      }
      InheritFrom(owner.value, kernel.threads[thread].currentPriority);
      kernel.BlockOn(id, flag, time > 0);
      return WAITING;
    }

    method InheritFrom(o: Tid, p: nat)
      requires kernel.Valid() && o in kernel.threads && p < kernel.priorityMax && Running(kernel.State())
      modifies kernel, kernel.readyTable
      ensures kernel.Valid() && kernel.State() == Inherit(old(kernel.State()), o, p)
      ensures Running(kernel.State()) && kernel.lists.Keys == old(kernel.lists).Keys
    {
      InheritKeeps(kernel.State(), o, p);
      InheritKeepsRunning(kernel.State(), o, p);
      if p < kernel.threads[o].currentPriority {
        kernel.ControlPriority(o, p);
      }
    }

    /** rt_mutex_release up to its rt_schedule. */
    method ReleaseMutex() returns (result: Result)
      requires Valid() && Running(kernel.State())
      modifies this, kernel, kernel.readyTable
      ensures kernel.Valid()
      ensures (kernel.State(), State(), result) == ReleaseStep(old(kernel.State()), old(State()), id)
    {
      hide BitmapOk, PlacedRight, ListsOk;
      var thread := kernel.current.value;
      if owner != Some(thread) {
        kernel.SetError(thread, ERROR);
        return FAILED;
      }
      hold := hold - 1;
      if hold == 0 {
        GiveBackPriority(thread);
        HandOn();
      }
      return OK;
    }

    /** Wakes the first waiter as the new owner, or frees the mutex. */
    method HandOn()
      requires kernel.Valid() && hold == 0 && WaitList(id) in kernel.lists
      requires forall t <- kernel.lists[WaitList(id)] :: t in kernel.threads
      modifies this, kernel, kernel.readyTable
      ensures kernel.Valid() && (kernel.State(), State()) == Surrender(old(kernel.State()), old(State()), id)
    {
      hide BitmapOk, PlacedRight, ListsOk;
      if kernel.lists[WaitList(id)] != [] {
        var next := kernel.lists[WaitList(id)][0];
        owner := Some(next);
        originalPriority := kernel.threads[next].currentPriority;
        hold := hold + 1;
        kernel.ResumeFirst(id);
      } else {
        value := value + 1;
        owner := None;
        originalPriority := 0xFF;
      }
    }

    method GiveBackPriority(thread: Tid)
      requires kernel.Valid() && thread in kernel.threads && originalPriority < kernel.priorityMax && WaitList(id) in kernel.lists
      modifies kernel, kernel.readyTable
      ensures kernel.Valid() && kernel.State() == GiveBack(old(kernel.State()), thread, originalPriority)
      ensures WaitList(id) in kernel.lists && forall t <- kernel.lists[WaitList(id)] :: t in kernel.threads
    {
      GiveBackKeeps(kernel.State(), thread, originalPriority);
      if originalPriority != kernel.threads[thread].currentPriority {
        kernel.ControlPriority(thread, originalPriority);
      }
      WaitersAreNotInitial(kernel.State(), id);
      assert kernel.lists[WaitList(id)] == Waiters(kernel.State(), id);
    }
  }
}
