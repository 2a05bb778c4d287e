/** Whether a thread gets its own priority back. What comes back at the last release of a mutex is the priority at
    its first take, and that may itself be inherited through another mutex. */
module MutexPriorities {
  import opened Options
  import opened Scheduler
  import opened Threads
  import opened Steps
  import opened Waiting
  import opened Mutex

  /** Every thread that owns nothing is at its own priority. */
  ghost predicate AtRest(s: Sys) {
    forall t <- s.k.threads | OwnsNothing(s, t) :: Prio(s, t) == Base(s, t)
  }

  /** The running thread gives up its hold on id for good. */
  predicate GivesUp(s: Sys, op: Op) {
    op.ReleaseOp? && s.k.current.Some? && Owns(s, s.k.current.value, op.id) && s.m[op.id].hold == 1
  }

  /** The release leaves its caller without a mutex, and gives back a priority that is not the caller's own. */
  predicate LeavesOffBase(s: Sys, op: Op) {
    GivesUp(s, op) &&
    var c := s.k.current.value;
    && (forall v <- s.m | v != op.id :: !Owns(s, c, v))
    && s.m[op.id].originalPriority != Base(s, c)
  }

  /** The priorities and owners after a step that is no last release: one owner may be raised, one free mutex may be
      taken by the running thread, and threads that are started are at their own priority. */
  ghost predicate Gentle(s: Sys, r: Sys) {
    && r.k.threads.Keys == s.k.threads.Keys && r.m.Keys == s.m.Keys
    && (forall t :: Base(r, t) == Base(s, t))
    && (forall t | OwnsNothing(r, t) :: OwnsNothing(s, t) && (Prio(r, t) == Prio(s, t) || Prio(r, t) == Base(s, t)))
  }

  lemma GentleStaysAtRest(s: Sys, r: Sys)
    requires AtRest(s) && Gentle(s, r)
    ensures AtRest(r)
  {
  }

  lemma TakeIsGentle(s: Sys, id: nat, time: int)
    requires SysInv(s) && SysEnabled(s, TakeOp(id, time))
    ensures Gentle(s, SysStep(s, TakeOp(id, time)))
  {
    var r := SysStep(s, TakeOp(id, time));
    BaseIsFixed(s, TakeOp(id, time));
    TakeRecords(s, id, time);
    assert Agree(s.k, s.m[id], id);
    if Waits(s, id, time) {
      TakeWaitView(s, id, time);
    } else {
      TakeNowView(s, id, time);
    }
    forall t | OwnsNothing(r, t)
      ensures OwnsNothing(s, t) && Prio(r, t) == Prio(s, t)
    {
      OwnsNothingBefore(s, r, id, t);
    }
  }

  /** Whoever owns nothing after a step that takes no mutex from anybody owned nothing before. */
  lemma OwnsNothingBefore(s: Sys, r: Sys, id: nat, t: Tid)
    requires id in s.m && r.m.Keys == s.m.Keys && (forall v <- s.m | v != id :: r.m[v].owner == s.m[v].owner)
    requires s.m[id].owner.None? || r.m[id].owner == s.m[id].owner
    requires OwnsNothing(r, t)
    ensures OwnsNothing(s, t)
  {
    forall v | v in s.m
      ensures s.m[v].owner != Some(t)
    {
      assert r.m[v].owner != Some(t);
    }
  }

  lemma EarlyReleaseView(s: Sys, id: nat)
    requires SysInv(s) && SysEnabled(s, ReleaseOp(id)) && !GivesUp(s, ReleaseOp(id))
    ensures var r := SysStep(s, ReleaseOp(id));
            && r.k.threads.Keys == s.k.threads.Keys && r.m.Keys == s.m.Keys
            && (forall v <- s.m :: r.m[v].owner == s.m[v].owner) && forall t :: Prio(r, t) == Prio(s, t)
  {
    assert Agree(s.k, s.m[id], id);
    if !Owns(s, s.k.current.value, id) {
      SetErrorKeeps(s.k, s.k.current.value, ERROR);
    }
  }

  lemma EarlyReleaseIsGentle(s: Sys, id: nat)
    requires SysInv(s) && SysEnabled(s, ReleaseOp(id)) && !GivesUp(s, ReleaseOp(id))
    ensures Gentle(s, SysStep(s, ReleaseOp(id)))
  {
    var r := SysStep(s, ReleaseOp(id));
    BaseIsFixed(s, ReleaseOp(id));
    EarlyReleaseView(s, id);
    forall t | OwnsNothing(r, t)
      ensures OwnsNothing(s, t)
    {
      OwnsNothingBefore(s, r, id, t);
    }
  }

  lemma OtherIsGentle(s: Sys, a: Step)
    requires SysInv(s) && SysEnabled(s, Other(a))
    ensures Gentle(s, SysStep(s, Other(a)))
  {
    BaseIsFixed(s, Other(a));
    StepPriorities(s.k, a);
  }

  lemma OtherStepIsGentle(s: Sys, op: Op)
    requires SysInv(s) && SysEnabled(s, op) && !GivesUp(s, op)
    ensures Gentle(s, SysStep(s, op))
  {
    match op
    case TakeOp(id, time) => TakeIsGentle(s, id, time);
    case ReleaseOp(id) => EarlyReleaseIsGentle(s, id);
    case Other(a) => OtherIsGentle(s, a);
  }

  /** What a last release does to owners and priorities. */
  lemma GivenUp(s: Sys, id: nat)
    requires SysInv(s) && SysEnabled(s, ReleaseOp(id)) && GivesUp(s, ReleaseOp(id))
    ensures var r, c := SysStep(s, ReleaseOp(id)), s.k.current.value;
            && r.k.threads.Keys == s.k.threads.Keys && r.m.Keys == s.m.Keys
            && (forall t :: Base(r, t) == Base(s, t))
            && (forall t :: Prio(r, t) == if t == c then s.m[id].originalPriority else Prio(s, t))
            && (forall v <- s.m | v != id :: r.m[v] == s.m[v])
            && r.m[id].owner != Some(c)
            && (r.m[id].owner.Some? ==>
                  var t := r.m[id].owner.value;
                  t in s.k.threads && OwnsNothing(s, t) && r.m[id].originalPriority == Prio(s, t))
  {
    var c := s.k.current.value;
    LastReleaseView(s, id);
    BaseIsFixed(s, ReleaseOp(id));
    RunningDoesNotWait(s.k, c);
    if Waiters(s.k, id) != [] {
      var t := Waiters(s.k, id)[0];
      assert t in Waiters(s.k, id) && OwnsNothing(s, t) && PlacedRight(s.k, t);
    }
  }

  /** A step keeps every thread that owns nothing at its own priority if and only if it is not a release that leaves
      its caller without a mutex and with a recorded priority that is not its own. */
  lemma StepKeepsRestIff(s: Sys, op: Op)
    requires SysInv(s) && SysEnabled(s, op) && AtRest(s)
    ensures AtRest(SysStep(s, op)) <==> !LeavesOffBase(s, op)
  {
    var r := SysStep(s, op);
    if !GivesUp(s, op) {
      OtherStepIsGentle(s, op);
      GentleStaysAtRest(s, r);
    } else {
      GivenUp(s, op.id);
      ReleaseKeepsRestIff(s, r, op.id);
    }
  }

  lemma ReleaseKeepsRestIff(s: Sys, r: Sys, id: nat)
    requires AtRest(s) && GivesUp(s, ReleaseOp(id)) && s.k.current.value in s.k.threads
    requires r.k.threads.Keys == s.k.threads.Keys && r.m.Keys == s.m.Keys && forall t :: Base(r, t) == Base(s, t)
    requires forall t :: Prio(r, t) == if t == s.k.current.value then s.m[id].originalPriority else Prio(s, t)
    requires (forall v <- s.m | v != id :: r.m[v] == s.m[v]) && r.m[id].owner != Some(s.k.current.value)
    ensures AtRest(r) <==> !LeavesOffBase(s, ReleaseOp(id))
  {
    var c := s.k.current.value;
    assert OwnsNothing(r, c) <==> forall v <- s.m | v != id :: !Owns(s, c, v);
    forall t | t in r.k.threads && t != c && OwnsNothing(r, t)
      ensures Prio(r, t) == Base(r, t)
    {
      forall v | v in s.m
        ensures s.m[v].owner != Some(t)
      {
        assert r.m[v].owner != Some(t);
      }
      assert OwnsNothing(s, t);
    }
  }

  ghost predicate AlwaysAtRest(s: Sys, ops: seq<Op>)
    requires SysInv(s) && Mutex.Runs(s, ops)
    decreases |ops|
  {
    AtRest(s) && (ops != [] ==> (SysStepKeeps(s, ops[0]); AlwaysAtRest(SysStep(s, ops[0]), ops[1..])))
  }

  ghost predicate NeverLeavesOffBase(s: Sys, ops: seq<Op>)
    requires SysInv(s) && Mutex.Runs(s, ops)
    decreases |ops|
  {
    ops != [] ==> !LeavesOffBase(s, ops[0]) && (SysStepKeeps(s, ops[0]); NeverLeavesOffBase(SysStep(s, ops[0]), ops[1..]))
  }

  /** Over every run, with any nesting of mutexes, hand-overs and timeouts, every thread that owns nothing is at its
      own priority at every moment, if and only if each release that leaves its caller without a mutex finds the
      caller's own priority recorded. */
  lemma {:induction false} OwnPriorityHoldsIff(s: Sys, ops: seq<Op>)
    requires SysInv(s) && Mutex.Runs(s, ops) && AtRest(s)
    ensures AlwaysAtRest(s, ops) <==> NeverLeavesOffBase(s, ops)
    decreases |ops|
  {
    if ops != [] {
      SysStepKeeps(s, ops[0]);
      StepKeepsRestIff(s, ops[0]);
      if !LeavesOffBase(s, ops[0]) {
        OwnPriorityHoldsIff(SysStep(s, ops[0]), ops[1..]);
      }
    }
  }

  // ---------- the mutex taken first is released last ----------

  /** first names, for every thread that owns something, the mutex it took when it owned nothing; what that one
      recorded is the thread's own priority. */
  ghost predicate Rooted(s: Sys, first: map<Tid, nat>) {
    forall v | v in s.m && s.m[v].owner.Some? ::
      var t := s.m[v].owner.value;
      t in first && Owns(s, t, first[t]) && s.m[first[t]].originalPriority == Base(s, t)
  }

  /** How a step changes who took what first. */
  function NextFirst(s: Sys, op: Op, first: map<Tid, nat>): map<Tid, nat>
    requires SysInv(s) && SysEnabled(s, op)
  {
    var r := SysStep(s, op);
    match op
    case TakeOp(id, _) => if OwnsNothing(s, s.k.current.value) && Owns(r, s.k.current.value, id) then first[s.k.current.value := id] else first
    case ReleaseOp(id) =>
      if GivesUp(s, op) && id in r.m && r.m[id].owner.Some? then first[r.m[id].owner.value := id] else first
    case Other(_) => first
  }

  /** The caller gives up the mutex it took first only when it owns no other. */
  predicate FirstLast(s: Sys, op: Op, first: map<Tid, nat>) {
    GivesUp(s, op) && s.k.current.value in first && op.id == first[s.k.current.value] ==>
      forall v <- s.m | v != op.id :: !Owns(s, s.k.current.value, v)
  }

  lemma TakeStaysRooted(s: Sys, id: nat, time: int, first: map<Tid, nat>)
    requires SysInv(s) && SysEnabled(s, TakeOp(id, time)) && AtRest(s) && Rooted(s, first)
    ensures Rooted(SysStep(s, TakeOp(id, time)), NextFirst(s, TakeOp(id, time), first))
  {
    var r, c := SysStep(s, TakeOp(id, time)), s.k.current.value;
    BaseIsFixed(s, TakeOp(id, time));
    TakeRecords(s, id, time);
    assert Agree(s.k, s.m[id], id);
    if TakesAtOnce(s, id) {
      AcquiredStaysRooted(s, r, id, c, first);
    }
  }

  lemma AcquiredStaysRooted(s: Sys, r: Sys, id: nat, c: Tid, first: map<Tid, nat>)
    requires AtRest(s) && Rooted(s, first) && id in s.m && c in s.k.threads && r.m.Keys == s.m.Keys
    requires (forall v <- s.m | v != id :: r.m[v] == s.m[v]) && r.m[id].owner == Some(c) && forall t :: Base(r, t) == Base(s, t)
    requires s.m[id].owner.None? || (s.m[id].owner == Some(c) && r.m[id].originalPriority == s.m[id].originalPriority)
    requires s.m[id].owner.None? ==> r.m[id].originalPriority == Prio(s, c)
    ensures Rooted(r, if OwnsNothing(s, c) then first[c := id] else first)
  {
    if !OwnsNothing(s, c) {
      var w :| w in s.m && s.m[w].owner == Some(c);
      assert Owns(s, c, first[c]);
    }
    forall v | v in r.m && r.m[v].owner.Some? && r.m[v].owner != Some(c)
      ensures var t := r.m[v].owner.value; t in first && Owns(r, t, first[t]) && r.m[first[t]].originalPriority == Base(r, t)
    {
      assert r.m[v] == s.m[v];
    }
  }

  lemma ReleaseStaysRooted(s: Sys, id: nat, first: map<Tid, nat>)
    requires SysInv(s) && SysEnabled(s, ReleaseOp(id)) && AtRest(s) && Rooted(s, first) && FirstLast(s, ReleaseOp(id), first)
    ensures Rooted(SysStep(s, ReleaseOp(id)), NextFirst(s, ReleaseOp(id), first))
    ensures !LeavesOffBase(s, ReleaseOp(id))
  {
    BaseIsFixed(s, ReleaseOp(id));
    if GivesUp(s, ReleaseOp(id)) {
      GivenUp(s, id);
      RootIsReleasedLast(s, id, first);
      GivenUpStaysRooted(s, SysStep(s, ReleaseOp(id)), id, s.k.current.value, first);
    } else {
      EarlyReleaseRecords(s, id);
    }
  }

  lemma RootIsReleasedLast(s: Sys, id: nat, first: map<Tid, nat>)
    requires Rooted(s, first) && GivesUp(s, ReleaseOp(id)) && FirstLast(s, ReleaseOp(id), first)
    ensures !LeavesOffBase(s, ReleaseOp(id))
    ensures var c := s.k.current.value; id == first[c] ==> forall v <- s.m | v != id :: !Owns(s, c, v)
  {
    assert s.m[id].owner == Some(s.k.current.value);
  }

  lemma GivenUpStaysRooted(s: Sys, r: Sys, id: nat, c: Tid, first: map<Tid, nat>)
    requires AtRest(s) && Rooted(s, first) && Owns(s, c, id) && r.m.Keys == s.m.Keys && forall t :: Base(r, t) == Base(s, t)
    requires (forall v <- s.m | v != id :: r.m[v] == s.m[v]) && r.m[id].owner != Some(c)
    requires c in first && (id == first[c] ==> forall v <- s.m | v != id :: !Owns(s, c, v))
    requires r.m[id].owner.Some? ==>
               var t := r.m[id].owner.value; t in s.k.threads && OwnsNothing(s, t) && r.m[id].originalPriority == Prio(s, t)
    ensures Rooted(r, if r.m[id].owner.Some? then first[r.m[id].owner.value := id] else first)
  {
    forall v | v in r.m && r.m[v].owner.Some? && v != id
      ensures var t := r.m[v].owner.value;
              t in first && Owns(r, t, first[t]) && r.m[first[t]].originalPriority == Base(r, t) && r.m[id].owner != Some(t)
    {
      var t := r.m[v].owner.value;
      assert r.m[v] == s.m[v] && Owns(s, t, first[t]) && Owns(s, t, v);
    }
  }

  lemma EarlyReleaseRecords(s: Sys, id: nat)
    requires SysInv(s) && SysEnabled(s, ReleaseOp(id)) && !GivesUp(s, ReleaseOp(id))
    ensures var r := SysStep(s, ReleaseOp(id));
            r.m.Keys == s.m.Keys && forall v <- s.m :: r.m[v].owner == s.m[v].owner && r.m[v].originalPriority == s.m[v].originalPriority
  {
    assert Agree(s.k, s.m[id], id);
  }

  lemma StepStaysRooted(s: Sys, op: Op, first: map<Tid, nat>)
    requires SysInv(s) && SysEnabled(s, op) && AtRest(s) && Rooted(s, first) && FirstLast(s, op, first)
    ensures Rooted(SysStep(s, op), NextFirst(s, op, first)) && AtRest(SysStep(s, op))
  {
    StepKeepsRestIff(s, op);
    match op
    case TakeOp(id, time) => TakeStaysRooted(s, id, time, first);
    case ReleaseOp(id) => ReleaseStaysRooted(s, id, first);
    case Other(a) => BaseIsFixed(s, op);
  }

  ghost predicate FirstLastRun(s: Sys, ops: seq<Op>, first: map<Tid, nat>)
    requires SysInv(s) && Mutex.Runs(s, ops)
    decreases |ops|
  {
    ops != [] ==>
      && FirstLast(s, ops[0], first)
      && (SysStepKeeps(s, ops[0]); FirstLastRun(SysStep(s, ops[0]), ops[1..], NextFirst(s, ops[0], first)))
  }

  /** If every thread releases the mutex it took first last, as when takes and releases nest, then in every state
      the run reaches, a thread that owns nothing is at its own priority. */
  lemma {:induction false} NestingBringsPrioritiesBack(s: Sys, ops: seq<Op>, first: map<Tid, nat>)
    requires SysInv(s) && Mutex.Runs(s, ops) && FirstLastRun(s, ops, first) && AtRest(s) && Rooted(s, first)
    ensures AlwaysAtRest(s, ops)
    decreases |ops|
  {
    if ops != [] {
      SysStepKeeps(s, ops[0]);
      StepStaysRooted(s, ops[0], first);
      NestingBringsPrioritiesBack(SysStep(s, ops[0]), ops[1..], NextFirst(s, ops[0], first));
    }
  }

  // ---------- where it fails ----------

  /** The running thread owns a alone, was raised for a waiter of it, and b is free. */
  ghost predicate RaisedOwner(s: Sys, a: nat, b: nat) {
    && SysInv(s) && Running(s.k) && a in s.m && b in s.m && a != b && s.m[b].owner == None
    && var c := s.k.current.value;
    && s.m[a].owner == Some(c) && s.m[a].hold == 1 && (forall v <- s.m | v != a :: !Owns(s, c, v))
    && Prio(s, c) != Base(s, c)
  }

  /** It takes b, which records the inherited priority, and then releases a and b, each release safe for inheritance:
      it owns nothing, nobody waits for it, and it keeps the inherited priority. */
  lemma CrossedReleasesLeaveOffBase(s: Sys, a: nat, b: nat)
    requires RaisedOwner(s, a, b)
    ensures SysEnabled(s, TakeOp(b, 0))
    ensures var c, s1 := s.k.current.value, SysStep(s, TakeOp(b, 0));
            && SysInv(s1) && SysEnabled(s1, ReleaseOp(a)) && SafeToRelease(s1, a)
            && var s2 := SysStep(s1, ReleaseOp(a));
            && SysInv(s2) && SysEnabled(s2, ReleaseOp(b)) && SafeToRelease(s2, b) && LeavesOffBase(s2, ReleaseOp(b))
            && var s3 := SysStep(s2, ReleaseOp(b));
            && OwnsNothing(s3, c) && Prio(s3, c) == Prio(s, c) && Base(s3, c) == Base(s, c) && !AtRest(s3)
  {
    assert Agree(s.k, s.m[b], b);
    SysStepKeeps(s, TakeOp(b, 0));
    var s1 := SysStep(s, TakeOp(b, 0));
    SecondTake(s, a, b);
    SysStepKeeps(s1, ReleaseOp(a));
    var s2 := SysStep(s1, ReleaseOp(a));
    FirstRelease(s1, a, b);
    SysStepKeeps(s2, ReleaseOp(b));
    SecondRelease(s2, b);
  }

  lemma SecondTake(s: Sys, a: nat, b: nat)
    requires RaisedOwner(s, a, b) && SysEnabled(s, TakeOp(b, 0)) && SysInv(SysStep(s, TakeOp(b, 0)))
    ensures var s1, c := SysStep(s, TakeOp(b, 0)), s.k.current.value;
            && Running(s1.k) && s1.k.current == s.k.current && s1.m.Keys == s.m.Keys
            && (forall v <- s.m | v != b :: s1.m[v] == s.m[v])
            && s1.m[b].owner == Some(c) && s1.m[b].hold == 1 && s1.m[b].originalPriority == Prio(s, c)
            && Base(s1, c) == Base(s, c) && Waiters(s1.k, b) == []
  {
    hide PlacedRight, ListsOk, SortedByPriority, Inherit, Block;
    assert Agree(s.k, s.m[b], b);
    TakeRecords(s, b, 0);
    TakeCases(s, b, 0);
    BaseIsFixed(s, TakeOp(b, 0));
    SetErrorKeeps(s.k, s.k.current.value, EOK);
  }

  lemma FirstRelease(s: Sys, a: nat, b: nat)
    requires SysInv(s) && Running(s.k) && a in s.m && b in s.m && a != b && Waiters(s.k, b) == []
    requires var c := s.k.current.value;
             Owns(s, c, a) && Owns(s, c, b) && s.m[a].hold == 1 && forall v <- s.m | v != a && v != b :: !Owns(s, c, v)
    requires SysInv(SysStep(s, ReleaseOp(a)))
    ensures SafeToRelease(s, a)
    ensures var r, c := SysStep(s, ReleaseOp(a)), s.k.current.value;
            && Running(r.k) && r.k.current == s.k.current && r.m.Keys == s.m.Keys && r.m[b] == s.m[b]
            && Base(r, c) == Base(s, c) && forall v <- r.m | v != b :: !Owns(r, c, v)
  {
    GivenUp(s, a);
    StillRunning(s, a);
  }

  lemma SecondRelease(s: Sys, b: nat)
    requires SysInv(s) && Running(s.k) && b in s.m
    requires var c := s.k.current.value;
             && Owns(s, c, b) && s.m[b].hold == 1 && (forall v <- s.m | v != b :: !Owns(s, c, v))
             && s.m[b].originalPriority != Base(s, c)
    ensures SafeToRelease(s, b) && LeavesOffBase(s, ReleaseOp(b))
    ensures var r, c := SysStep(s, ReleaseOp(b)), s.k.current.value;
            OwnsNothing(r, c) && Prio(r, c) == s.m[b].originalPriority && Base(r, c) == Base(s, c) && !AtRest(r)
  {
    var c, r := s.k.current.value, SysStep(s, ReleaseOp(b));
    GivenUp(s, b);
    forall v | v in r.m
      ensures r.m[v].owner != Some(c)
    {
      assert v != b ==> !Owns(s, c, v) && r.m[v] == s.m[v];
    }
    assert c in r.k.threads && OwnsNothing(r, c);
  }

  /** A release does not stop its caller. */
  lemma StillRunning(s: Sys, id: nat)
    requires SysInv(s) && SysEnabled(s, ReleaseOp(id)) && GivesUp(s, ReleaseOp(id))
    ensures var r := SysStep(s, ReleaseOp(id)); Running(r.k) && r.k.current == s.k.current
  {
    var c := s.k.current.value;
    LastReleaseIs(s, id);
    RunningDoesNotWait(s.k, c);
    GiveBackKeeps(s.k, c, s.m[id].originalPriority);
    var k1 := GiveBack(s.k, c, s.m[id].originalPriority);
    if Waiters(k1, id) != [] {
      WakeFirstEffect(k1, id);
      assert Waiters(k1, id)[0] in Waiters(s.k, id);
    }
  }

  /** There is such an owner: thread 1, of priority 10, owns mutex 0 and was raised to 5 for thread 2. */
  function Raised(): Sys {
    Sys(RaisedKernel(), map[0 := Mtx(PRIO, 0, Some(1), 10, 1), 1 := Mtx(PRIO, 1, None, 255, 0)])
  }

  lemma RaisedMutexes()
    ensures var s := Raised();
            && s.m.Keys == {0, 1} && s.k.threads.Keys == {1, 2} && s.k.current == Some(1) && Running(s.k)
            && s.m[0] == Mtx(PRIO, 0, Some(1), 10, 1) && s.m[1] == Mtx(PRIO, 1, None, 255, 0)
            && WaitList(0) in s.k.lists && WaitList(1) in s.k.lists && s.k.priorityMax == 32
            && Prio(s, 1) == 5 && Base(s, 1) == 10 && Prio(s, 2) == 5 && Base(s, 2) == 5
  {
  }

  lemma RaisedIsRight()
    ensures RaisedOwner(Raised(), 0, 1) && Inherited(Raised()) && AtRest(Raised())
  {
    RaisedKernelIsRight();
    RaisedMutexes();
    TwoMutexes(Raised());
  }

  lemma TwoMutexes(s: Sys)
    requires Inv(s.k) && s.m.Keys == {0, 1} && s.k.threads.Keys == {1, 2} && s.k.current == Some(1) && Running(s.k)
    requires s.m[0] == Mtx(PRIO, 0, Some(1), 10, 1) && s.m[1] == Mtx(PRIO, 1, None, 255, 0)
    requires WaitList(0) in s.k.lists && WaitList(1) in s.k.lists && s.k.priorityMax == 32
    requires Prio(s, 1) == 5 && Base(s, 1) == 10 && Prio(s, 2) == 5 && Base(s, 2) == 5
    requires forall w :: Waiters(s.k, w) == if w == 0 then [2] else []
    ensures RaisedOwner(s, 0, 1) && Inherited(s) && AtRest(s)
  {
    assert Agree(s.k, s.m[0], 0) && Agree(s.k, s.m[1], 1);
    assert OwnsNothing(s, 2) && !OwnsNothing(s, 1);
    assert SysInv(s);
  }
}
