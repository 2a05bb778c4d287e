/** What the calls of a mutex come to, as equations on the mutex and the kernel. */
module MutexLaws {
  import opened Options
  import opened Scheduler
  import opened Threads
  import opened Steps
  import opened Scheduling
  import opened Mutex

  /** k with another error code of thread t. */
  function WithError(k: Sched, t: Tid, e: Error): Sched
    requires t in k.threads
  {
    k.(threads := k.threads[t := k.threads[t].(error := e)])
  }

  /** Only the priority of thread t has changed, to p; it has changed queues if it is on one (Steps.StepReadyQueues). */
  ghost predicate Reprioritized(k: Sched, r: Sched, t: Tid, p: nat)
    requires t in k.threads
  {
    && Inv(k)
    && (p == k.threads[t].currentPriority ==> r == k)
    && (p != k.threads[t].currentPriority ==> Enabled(k, DoChangePriority(t, p)) && r == Apply(k, DoChangePriority(t, p)))
  }

  /** A take makes a free mutex the caller's own, and records its priority; the owner holds it once more, within a byte; a
      mutex of another thread is refused to a caller that may not wait. Otherwise the owner gets the priority of the
      caller if that is better, and then the caller sleeps, in the place that the flag says. */
  lemma TakeIs(k: Sched, x: Mtx, id: nat, time: int)
    requires OneOk(k, x, id) && Running(k)
    ensures var (r, x', result) := TakeStep(k, x, id, time);
            var c := k.current.value;
            var p := k.threads[c].currentPriority;
            if x.owner == None then
              result == OK && r == WithError(k, c, EOK) && x' == Mtx(x.flag, 0, Some(c), p, 1)
            else if x.owner == Some(c) then
              result == OK && r == WithError(k, c, EOK) && x' == x.(hold := if x.hold == 255 then 0 else x.hold + 1)
            else if time == 0 then
              result == FAILED && r == WithError(k, c, ETIMEOUT) && x' == x
            else
              && result == WAITING && x' == x && x.owner.value in k.threads
              && exists k1: Sched ::
                   && Reprioritized(WithError(k, c, EOK), k1, x.owner.value, Better(p, k.threads[x.owner.value].currentPriority))
                   && k1.current == Some(c) && c in k1.threads && (forall t <- Waiters(k1, id) :: t in k1.threads)
                   && WentToSleep(k1, r, id, x.flag, time > 0)
  {
    hide WentToSleep, Block, ChangePriority, PlacedRight, ListsOk;
    var c := k.current.value;
    var p := k.threads[c].currentPriority;
    Mutex.SetErrorKeeps(k, c, EOK);
    if x.owner.Some? && x.owner != Some(c) && time != 0 {
      WaitIs(SetError(k, c, EOK), x, id, time > 0, p);
    }
  }

  function Better(p: nat, q: nat): nat {
    if p < q then p else q
  }

  lemma WaitIs(k: Sched, x: Mtx, id: nat, timed: bool, p: nat)
    requires OneOk(k, x, id) && Running(k) && x.owner.Some? && p < k.priorityMax
    ensures x.owner.value in k.threads
    ensures var k1 := Inherit(k, x.owner.value, p);
            && Reprioritized(k, k1, x.owner.value, Better(p, k.threads[x.owner.value].currentPriority))
            && Inv(k1) && Running(k1) && k1.current == k.current && WaitList(id) in k1.lists
            && (forall t <- Waiters(k1, id) :: t in k1.threads)
            && WentToSleep(k1, Block(k1, id, x.flag, timed), id, x.flag, timed)
  {
    hide WentToSleep, Block, ChangePriority, PlacedRight, ListsOk;
    InheritKeeps(k, x.owner.value, p);
    InheritKeepsRunning(k, x.owner.value, p);
    BlockIs(Inherit(k, x.owner.value, p), id, x.flag, timed);
  }

  /** A release by another thread fails with an error in its record. The owner gives up one hold; with the last it gets
      the priority back that was recorded, and the first waiter, resumed, becomes the owner with one hold and its own
      priority recorded; with nobody waiting the mutex is free. */
  lemma ReleaseIs(k: Sched, x: Mtx, id: nat)
    requires OneOk(k, x, id) && Running(k)
    ensures var (r, x', result) := ReleaseStep(k, x, id);
            var c, q := k.current.value, Waiters(k, id);
            if x.owner != Some(c) then result == FAILED && x' == x && r == WithError(k, c, ERROR)
            else if x.hold > 1 then result == OK && x' == x.(hold := x.hold - 1) && r == k
            else
              && result == OK && (forall t <- q :: t in k.threads)
              && x' == (if q == [] then Mtx(x.flag, 1, None, 0xFF, 0)
                        else Mtx(x.flag, 0, Some(q[0]), k.threads[q[0]].currentPriority, 1))
              && exists k1: Sched ::
                   && Reprioritized(k, k1, c, x.originalPriority)
                   && (forall t <- Waiters(k1, id) :: t in k1.threads) && FirstWoke(k1, r, id)
  {
    hide FirstWoke, ChangePriority, PlacedRight, ListsOk;
    var c, q := k.current.value, Waiters(k, id);
    RunningDoesNotWait(k, c);
    WaitersAreThreads(k, id);
    if x.owner == Some(c) && x.hold == 1 {
      GiveBackKeeps(k, c, x.originalPriority);
      var k1 := GiveBack(k, c, x.originalPriority);
      WakeFirstIs(k1, id);
      assert Reprioritized(k, k1, c, x.originalPriority);
      assert q == [] ==> WakeFirst(k1, id) == k1;
    }
  }
}
