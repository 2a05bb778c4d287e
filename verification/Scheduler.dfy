/** Threads, ready queues and wait lists of the uniprocessor kernel as values: every operation of
    the scheduler and of the thread state machine, the global invariant, and what follows from it. */
module Scheduler {
  import opened Options
  import opened Seqs

  type Tid = nat

  datatype Stat = INIT | READY | SUSPEND | CLOSE

  datatype Error = EOK | ERROR | ETIMEOUT | EFULL

  datatype Flag = FIFO | PRIO

  /** timer says whether the thread's own timer is linked. */
  datatype Thread = Thread(stat: Stat, initPriority: nat, currentPriority: nat, error: Error, timer: bool,
                           initTick: nat, remainingTick: nat)

  /** The heads of the lists a thread's tlist node can be on. */
  datatype ListHead = ReadyList(priority: nat) | WaitList(id: nat)

  /** limbo holds the ready threads that a deletion in progress has taken off their queue. */
  datatype Sched = Sched(priorityMax: nat, threads: map<Tid, Thread>, lists: map<ListHead, seq<Tid>>,
                         current: Option<Tid>, lockNest: nat, limbo: set<Tid>)

  // ---------- well-formedness ----------

  predicate ThreadsOk(s: Sched) {
    forall t <- s.threads :: s.threads[t].initPriority < s.priorityMax && s.threads[t].currentPriority < s.priorityMax
  }

  predicate Shaped(s: Sched) {
    && ThreadsOk(s)
    && (forall p | 0 <= p < s.priorityMax :: ReadyList(p) in s.lists)
    && (s.current.Some? ==> s.current.value in s.threads)
  }

  function Queue(s: Sched, p: nat): seq<Tid> {
    if ReadyList(p) in s.lists then s.lists[ReadyList(p)] else []
  }

  function Waiters(s: Sched, w: nat): seq<Tid> {
    if WaitList(w) in s.lists then s.lists[WaitList(w)] else []
  }

  // ---------- the invariant ----------

  /** Where thread t may be: on the ready queue of its priority exactly when it is ready, not running and
      not being deleted, on a wait list only while suspended; and its timer runs only while it is suspended. */
  ghost predicate PlacedRight(s: Sched, t: Tid)
    requires t in s.threads
  {
    var r := s.threads[t];
    && (forall p :: t in Queue(s, p) <==> r.stat == READY && s.current != Some(t) && t !in s.limbo && r.currentPriority == p)
    && (t in s.limbo ==> r.stat == READY && s.current != Some(t))
    && (forall w :: t in Waiters(s, w) ==> r.stat == SUSPEND)
    && (forall w, w' :: t in Waiters(s, w) && t in Waiters(s, w') ==> w == w')
    && (r.timer ==> r.stat == SUSPEND)
  }

  ghost predicate ListsOk(s: Sched) {
    forall h <- s.lists :: NoDup(s.lists[h]) && forall t <- s.lists[h] :: t in s.threads
  }

  ghost predicate Inv(s: Sched) {
    Shaped(s) && ListsOk(s) && forall t <- s.threads :: PlacedRight(s, t)
  }

  /** The invariant in the middle of an operation on t: t is on no list, all others are placed right. */
  ghost predicate InvExcept(s: Sched, t: Tid) {
    && Shaped(s) && ListsOk(s) && t in s.threads
    && (forall x <- s.threads | x != t :: PlacedRight(s, x))
    && forall h <- s.lists :: t !in s.lists[h]
  }

  // ---------- list operations ----------

  /** rt_list_remove on a thread's node: it leaves whatever list it is on. */
  function Detach(s: Sched, t: Tid): Sched {
    s.(lists := map h | h in s.lists :: Without(s.lists[h], t))
  }

  function Append(s: Sched, h: ListHead, t: Tid): Sched
    requires h in s.lists
  {
    s.(lists := s.lists[h := s.lists[h] + [t]])
  }

  function Update(s: Sched, t: Tid, r: Thread): Sched {
    s.(threads := s.threads[t := r])
  }

  function LeaveLimbo(s: Sched, t: Tid): Sched {
    s.(limbo := s.limbo - {t})
  }

  lemma LeaveLimboKeeps(s: Sched, t: Tid)
    requires InvExcept(s, t)
    ensures InvExcept(LeaveLimbo(s, t), t)
  {
    var r := LeaveLimbo(s, t);
    forall x | x in r.threads && x != t
      ensures PlacedRight(r, x)
    {
      assert PlacedRight(s, x);
      assert forall p :: Queue(r, p) == Queue(s, p);
      assert forall w :: Waiters(r, w) == Waiters(s, w);
    }
  }

  lemma DetachKeeps(s: Sched, t: Tid)
    requires Inv(s) && t in s.threads
    ensures InvExcept(Detach(s, t), t)
  {
    var r := Detach(s, t);
    forall h | h in r.lists
      ensures NoDup(r.lists[h])
    {
      WithoutKeepsDistinct(s.lists[h], t);
    }
    forall x | x in r.threads && x != t
      ensures PlacedRight(r, x)
    {
      assert PlacedRight(s, x);
      assert forall p :: x in Queue(r, p) <==> x in Queue(s, p);
      assert forall w :: x in Waiters(r, w) <==> x in Waiters(s, w);
    }
  }

  lemma UpdateKeeps(s: Sched, t: Tid, r: Thread)
    requires InvExcept(s, t) && r.initPriority < s.priorityMax && r.currentPriority < s.priorityMax
    ensures InvExcept(Update(s, t, r), t)
  {
    var s' := Update(s, t, r);
    forall x | x in s'.threads && x != t
      ensures PlacedRight(s', x)
    {
      assert PlacedRight(s, x);
      assert forall p :: Queue(s', p) == Queue(s, p);
      assert forall w :: Waiters(s', w) == Waiters(s, w);
    }
  }

  /** A thread on no list satisfies the invariant if it is running or not ready. */
  lemma CloseUp(s: Sched, t: Tid)
    requires InvExcept(s, t)
    requires t !in s.limbo && (s.threads[t].stat != READY || s.current == Some(t))
    requires s.threads[t].timer ==> s.threads[t].stat == SUSPEND
    ensures Inv(s)
  {
    assert forall p :: t !in Queue(s, p);
    assert forall w :: t !in Waiters(s, w);
    assert PlacedRight(s, t);
  }

  lemma AppendReady(s: Sched, t: Tid)
    requires InvExcept(s, t) && t !in s.limbo
    requires s.threads[t].stat == READY && s.current != Some(t) && !s.threads[t].timer
    ensures Inv(Append(s, ReadyList(s.threads[t].currentPriority), t))
  {
    var h := ReadyList(s.threads[t].currentPriority);
    var r := Append(s, h, t);
    forall x | x in r.threads
      ensures PlacedRight(r, x)
    {
      assert x != t ==> PlacedRight(s, x);
      assert forall w :: Waiters(r, w) == Waiters(s, w);
      assert forall p :: x in Queue(r, p) <==> x in Queue(s, p) || (x == t && p == h.priority);
      assert x == t ==> forall p :: t !in Queue(s, p);
      assert x == t ==> forall w :: t !in Waiters(s, w);
    }
  }

  /** t on wait list w at position i. */
  lemma InsertWaiting(s: Sched, t: Tid, w: nat, i: nat)
    requires InvExcept(s, t) && WaitList(w) in s.lists && i <= |s.lists[WaitList(w)]|
    requires s.threads[t].stat == SUSPEND && t !in s.limbo
    ensures Inv(s.(lists := s.lists[WaitList(w) := InsertAt(s.lists[WaitList(w)], i, t)]))
  {
    var h := WaitList(w);
    var r := s.(lists := s.lists[h := InsertAt(s.lists[h], i, t)]);
    InsertKeepsDistinct(s.lists[h], i, t);
    forall x | x in r.threads
      ensures PlacedRight(r, x)
    {
      assert x != t ==> PlacedRight(s, x);
      assert forall p :: Queue(r, p) == Queue(s, p);
      assert forall v :: x in Waiters(r, v) <==> x in Waiters(s, v) || (x == t && v == w);
      assert x == t ==> forall p :: t !in Queue(s, p);
      assert x == t ==> forall v :: t !in Waiters(s, v);
    }
  }

  // ---------- the scheduler ----------

  /** rt_schedule_insert_thread. */
  function Insert(s: Sched, t: Tid): Sched
    requires Shaped(s) && t in s.threads
  {
    var s1 := LeaveLimbo(Update(s, t, s.threads[t].(stat := READY)), t);
    if s.current == Some(t) then s1
    else Append(s1, ReadyList(s.threads[t].currentPriority), t)
  }

  /** The best priority from p on with a queued thread. */
  function HighestFrom(s: Sched, p: nat): (r: Option<nat>)
    ensures r.Some? ==> p <= r.value < s.priorityMax && Queue(s, r.value) != []
                        && forall q | p <= q < r.value :: Queue(s, q) == []
    ensures r.None? ==> forall q | p <= q < s.priorityMax :: Queue(s, q) == []
    decreases s.priorityMax - p
  {
    if s.priorityMax <= p then None
    else if Queue(s, p) != [] then Some(p)
    else HighestFrom(s, p + 1)
  }

  function Highest(s: Sched): Option<nat> {
    HighestFrom(s, 0)
  }

  /** The switch of rt_schedule to thread next. */
  function SwitchTo(s: Sched, next: Tid): Sched
    requires Shaped(s) && s.current.Some? && next in s.threads
  {
    var c := s.current.value;
    var s1 := s.(current := Some(next));
    Detach(if s.threads[c].stat == READY then Insert(s1, c) else s1, next)
  }

  /** rt_schedule. */
  function Schedule(s: Sched): Sched
    requires Shaped(s) && ListsOk(s) && s.current.Some?
  {
    if s.lockNest != 0 || Highest(s).None? then s else
    var c, p := s.current.value, Highest(s).value;
    if s.threads[c].stat == READY && s.threads[c].currentPriority < p then Detach(s, c)
    else SwitchTo(s, Queue(s, p)[0])
  }

  /** rt_system_scheduler_start. */
  function StartScheduler(s: Sched): Sched
    requires Shaped(s) && ListsOk(s)
  {
    if Highest(s).None? then s else
    var t := Queue(s, Highest(s).value)[0];
    Detach(s.(current := Some(t)), t)
  }

  lemma InsertKeeps(s: Sched, t: Tid)
    requires InvExcept(s, t) && !s.threads[t].timer
    ensures Inv(Insert(s, t))
  {
    var s1 := LeaveLimbo(Update(s, t, s.threads[t].(stat := READY)), t);
    UpdateKeeps(s, t, s.threads[t].(stat := READY));
    LeaveLimboKeeps(Update(s, t, s.threads[t].(stat := READY)), t);
    if s.current == Some(t) {
      CloseUp(s1, t);
    } else {
      AppendReady(s1, t);
    }
  }

  lemma DetachAbsent(s: Sched, t: Tid)
    requires forall h <- s.lists :: t !in s.lists[h]
    ensures Detach(s, t) == s
  {
    assert Detach(s, t).lists == s.lists;
  }

  lemma CurrentIsOnNoQueue(s: Sched, t: Tid)
    requires Inv(s) && s.current == Some(t) && s.threads[t].stat == READY
    ensures forall h <- s.lists :: t !in s.lists[h]
  {
    assert PlacedRight(s, t);
    forall h | h in s.lists
      ensures t !in s.lists[h]
    {
      match h
      case ReadyList(p) => assert t !in Queue(s, p);
      case WaitList(w) => assert t !in Waiters(s, w);
    }
  }

  lemma QueuedIsReady(s: Sched, p: nat)
    requires Inv(s) && Queue(s, p) != []
    ensures var t := Queue(s, p)[0];
            t in s.threads && s.threads[t].stat == READY && s.threads[t].currentPriority == p
            && s.current != Some(t) && t !in s.limbo && !s.threads[t].timer
  {
    var t := Queue(s, p)[0];
    assert t in Queue(s, p);
    assert PlacedRight(s, t);
  }

  /** Making a queued thread the running one is right once it is off its queue. */
  lemma MakeCurrent(s: Sched, next: Tid)
    requires InvExcept(s, next) && s.threads[next].stat == READY && !s.threads[next].timer && next !in s.limbo
    requires s.current.Some? ==> s.threads[s.current.value].stat != READY || s.current == Some(next)
    ensures Inv(s.(current := Some(next)))
  {
    var r := s.(current := Some(next));
    forall x | x in r.threads && x != next
      ensures PlacedRight(r, x)
    {
      assert PlacedRight(s, x);
      assert forall p :: Queue(r, p) == Queue(s, p);
      assert forall w :: Waiters(r, w) == Waiters(s, w);
    }
    CloseUp(r, next);
  }

  /** When the running thread stays ready, it is queued as the next one takes over. */
  lemma SwapKeeps(s: Sched, next: Tid, c: Tid)
    requires InvExcept(s, next) && s.threads[next].stat == READY && !s.threads[next].timer && next !in s.limbo
    requires s.current == Some(c) && c != next && s.threads[c].stat == READY
    ensures Inv(Insert(s.(current := Some(next)), c))
  {
    assert PlacedRight(s, c);
    var s1 := s.(current := Some(next));
    forall h | h in s1.lists
      ensures c !in s1.lists[h]
    {
      match h
      case ReadyList(p) => assert c !in Queue(s, p);
      case WaitList(w) => assert c !in Waiters(s, w);
    }
    forall x | x in s1.threads && x != c
      ensures PlacedRight(s1, x)
    {
      assert x != next ==> PlacedRight(s, x);
      assert forall p :: Queue(s1, p) == Queue(s, p);
      assert forall w :: Waiters(s1, w) == Waiters(s, w);
      assert x == next ==> (forall p :: next !in Queue(s, p)) && forall w :: next !in Waiters(s, w);
    }
    InsertKeeps(s1, c);
  }

  lemma SwitchKeeps(s: Sched, p: nat)
    requires Inv(s) && s.current.Some? && Queue(s, p) != []
    ensures Inv(SwitchTo(s, Queue(s, p)[0]))
  {
    var c, next := s.current.value, Queue(s, p)[0];
    QueuedIsReady(s, p);
    DetachKeeps(s, next);
    var s0 := Detach(s, next);
    if s.threads[c].stat == READY {
      SwapKeeps(s0, next, c);
      DetachCommutes(s.(current := Some(next)), c, next);
    } else {
      MakeCurrent(s0, next);
    }
  }

  /** Queueing c and taking next off its queue can be done in either order. */
  lemma DetachCommutes(s: Sched, c: Tid, next: Tid)
    requires Shaped(s) && c in s.threads && c != next
    ensures Shaped(Detach(s, next)) && Detach(Insert(s, c), next) == Insert(Detach(s, next), c)
  {
    var l, r := Detach(Insert(s, c), next), Insert(Detach(s, next), c);
    forall h | h in s.lists
      ensures l.lists[h] == r.lists[h]
    {
      WithoutOfAppend(s.lists[h], c, next);
    }
    assert l.lists == r.lists;
  }

  lemma {:induction false} WithoutOfAppend(q: seq<Tid>, c: Tid, t: Tid)
    requires c != t
    ensures Without(q + [c], t) == Without(q, t) + [c]
  {
    if q != [] {
      WithoutOfAppend(q[1..], c, t);
      assert (q + [c])[1..] == q[1..] + [c];
    } else {
      assert [c][1..] == [];
    }
  }

  lemma ScheduleKeeps(s: Sched)
    requires Inv(s) && s.current.Some?
    ensures Inv(Schedule(s))
  {
    if s.lockNest == 0 && Highest(s).Some? {
      var c, p := s.current.value, Highest(s).value;
      if s.threads[c].stat == READY && s.threads[c].currentPriority < p {
        CurrentIsOnNoQueue(s, c);
        DetachAbsent(s, c);
      } else {
        SwitchKeeps(s, p);
      }
    }
  }

  lemma StartSchedulerKeeps(s: Sched)
    requires Inv(s) && s.current.None?
    ensures Inv(StartScheduler(s))
  {
    if Highest(s).Some? {
      var p := Highest(s).value;
      QueuedIsReady(s, p);
      DetachKeeps(s, Queue(s, p)[0]);
      MakeCurrent(Detach(s, Queue(s, p)[0]), Queue(s, p)[0]);
    }
  }

  // ---------- what rt_schedule guarantees ----------

  /** The running thread is ready and nothing queued has a better priority. */
  ghost predicate RunsBest(s: Sched) {
    && s.current.Some? && s.current.value in s.threads
    && s.threads[s.current.value].stat == READY
    && forall p :: Queue(s, p) != [] ==> s.threads[s.current.value].currentPriority <= p
  }

  lemma QueueAfterSwitch(s: Sched, p: nat, q: nat)
    requires Inv(s) && s.current.Some? && Queue(s, p) != []
    ensures var c, next := s.current.value, Queue(s, p)[0];
            Queue(SwitchTo(s, next), q) ==
              (if q == p then Queue(s, q)[1..] else Queue(s, q))
              + (if s.threads[c].stat == READY && s.threads[c].currentPriority == q then [c] else [])
  {
    var c, next := s.current.value, Queue(s, p)[0];
    QueuedIsReady(s, p);
    assert PlacedRight(s, next) && PlacedRight(s, c);
    if ReadyList(q) in s.lists {
      if q == p {
        HeadWithout(s.lists[ReadyList(q)]);
      } else {
        assert next !in Queue(s, q);
      }
      WithoutOfAppend(s.lists[ReadyList(q)], c, next);
    }
  }

  /** After an unlocked rt_schedule with some thread ready, the best ready thread runs; a running
      thread is displaced exactly by a queued one of the same or a better priority. */
  lemma ScheduleRunsBest(s: Sched)
    requires Inv(s) && s.current.Some? && s.lockNest == 0
    requires s.threads[s.current.value].stat == READY || Highest(s).Some?
    ensures RunsBest(Schedule(s))
    ensures s.threads[s.current.value].stat == READY ==>
              (Schedule(s).current == s.current <==>
                 forall p :: Queue(s, p) != [] ==> s.threads[s.current.value].currentPriority < p)
  {
    var c := s.current.value;
    forall p | Queue(s, p) != []
      ensures Highest(s).Some? && Highest(s).value <= p
    {
      assert ReadyList(p) in s.lists;
      var t := Queue(s, p)[0];
      assert t in Queue(s, p) && PlacedRight(s, t);
    }
    if Highest(s).Some? {
      var p := Highest(s).value;
      QueuedIsReady(s, p);
      if s.threads[c].stat == READY && s.threads[c].currentPriority < p {
        CurrentIsOnNoQueue(s, c);
        DetachAbsent(s, c);
      } else {
        var next := Queue(s, p)[0];
        forall q
          ensures Queue(SwitchTo(s, next), q) != [] ==> p <= q
        {
          QueueAfterSwitch(s, p, q);
        }
      }
    }
  }

  // ---------- round robin ----------

  /** The running thread followed by the queue of its priority. */
  function Ring(s: Sched): seq<Tid>
    requires Shaped(s) && s.current.Some?
  {
    [s.current.value] + Queue(s, s.threads[s.current.value].currentPriority)
  }

  /** rt_thread_yield, n times. */
  function Yields(s: Sched, n: nat): (r: Sched)
    requires Inv(s) && s.current.Some?
    ensures Inv(r) && r.current.Some?
  {
    if n == 0 then s
    else
      var r := Yields(s, n - 1);
      ScheduleKeeps(r);
      Schedule(r)
  }

  /** One yield of the best priority moves the head of the ring to its end. */
  lemma YieldRotates(s: Sched)
    requires Inv(s) && s.lockNest == 0 && RunsBest(s)
    ensures Inv(Schedule(s)) && RunsBest(Schedule(s)) && Schedule(s).lockNest == 0
    ensures Ring(Schedule(s)) == Ring(s)[1..] + Ring(s)[..1]
  {
    ScheduleKeeps(s);
    ScheduleRunsBest(s);
    var c := s.current.value;
    var p := s.threads[c].currentPriority;
    if Highest(s).Some? {
      var h := Highest(s).value;
      if p < h {
        CurrentIsOnNoQueue(s, c);
        DetachAbsent(s, c);
        assert Queue(s, p) == [];
      } else {
        QueuedIsReady(s, h);
        QueueAfterSwitch(s, p, p);
        var r := SwitchTo(s, Queue(s, h)[0]);
        assert r.threads[r.current.value].currentPriority == p;
      }
    } else {
      assert Queue(s, p) == [];
    }
  }

  function Turned(ring: seq<Tid>, k: nat): seq<Tid>
    requires k <= |ring|
  {
    ring[k..] + ring[..k]
  }

  lemma TurnOnce(ring: seq<Tid>, k: nat)
    requires k < |ring|
    ensures Turned(ring, k)[1..] + Turned(ring, k)[..1] == Turned(ring, k + 1)
  {
    assert Turned(ring, k)[1..] == ring[k + 1..] + ring[..k];
    assert ring[..k + 1] == ring[..k] + [ring[k]];
  }

  lemma YieldTurns(s: Sched, ring: seq<Tid>, k: nat)
    requires Inv(s) && s.lockNest == 0 && RunsBest(s) && k < |ring| && Ring(s) == Turned(ring, k)
    ensures Inv(Schedule(s)) && RunsBest(Schedule(s)) && Schedule(s).lockNest == 0
    ensures Ring(Schedule(s)) == Turned(ring, k + 1)
  {
    YieldRotates(s);
    TurnOnce(ring, k);
  }

  /** After k yields the ring has turned by k. */
  lemma {:induction false} YieldsRotate(s: Sched, ring: seq<Tid>, k: nat)
    requires Inv(s) && s.lockNest == 0 && RunsBest(s) && Ring(s) == ring && k <= |ring|
    ensures RunsBest(Yields(s, k)) && Yields(s, k).lockNest == 0
    ensures Ring(Yields(s, k)) == Turned(ring, k)
  {
    if k > 0 {
      YieldsRotate(s, ring, k - 1);
      YieldTurns(Yields(s, k - 1), ring, k - 1);
    }
  }

  lemma RingIsDistinct(s: Sched)
    requires Inv(s) && RunsBest(s)
    ensures NoDup(Ring(s))
  {
    CurrentIsOnNoQueue(s, s.current.value);
  }

  /** Among n threads of the best priority, n yields run each exactly once, in queue order, and
      leave the ring as it was. */
  lemma YieldsRunEachOnce(s: Sched, k: nat)
    requires Inv(s) && s.lockNest == 0 && RunsBest(s) && k < |Ring(s)|
    ensures NoDup(Ring(s))
    ensures Yields(s, k).current == Some(Ring(s)[k])
    ensures Ring(Yields(s, |Ring(s)|)) == Ring(s)
  {
    RingIsDistinct(s);
    YieldsRotate(s, Ring(s), k);
    HeadOfRing(Yields(s, k));
    YieldsRotate(s, Ring(s), |Ring(s)|);
  }

  lemma HeadOfRing(s: Sched)
    requires Shaped(s) && s.current.Some?
    ensures s.current == Some(Ring(s)[0])
  {
  }
}
