/** The kernel's own data: the thread table with its priority masks, the ready queues, the two-level
    ready bitmap and the running thread. Every method is proved to do what Scheduler and Threads say,
    and to keep the bitmap an exact index of the queues. RT_THREAD_PRIORITY_MAX is above 32. */
module Kernel {
  import opened Options
  import opened Bits
  import opened Seqs
  import opened Scheduler
  import opened Steps
  import opened Threads

  /** The priority attributes of a thread: its masks are 1 << number and 1 << high. */
  datatype Attributes = Attributes(number: nat, high: nat)

  function AttributesOf(p: nat): Attributes {
    Attributes(p / 8, p % 8)
  }

  const GROUPS: nat := 32

  predicate Queued(lists: map<ListHead, seq<Tid>>, p: nat) {
    ReadyList(p) in lists && lists[ReadyList(p)] != []
  }

  /** Word n of the table has bit b set exactly when a thread of priority 8 n + b is queued, and
      bit n of the group is set exactly when word n is not zero. */
  ghost predicate BitmapOk(lists: map<ListHead, seq<Tid>>, group: nat, table: seq<nat>) {
    && |table| == GROUPS && group < Pow2(32)
    && (forall n | 0 <= n < GROUPS :: table[n] < Pow2(8))
    && (forall n, b: nat | 0 <= n < GROUPS && b < 8 :: Bit(table[n], b) <==> Queued(lists, 8 * n + b))
    && forall n | 0 <= n < GROUPS :: Bit(group, n) <==> table[n] != 0
  }

  lemma {:induction false} LowestBitBound(v: nat, w: nat)
    requires v != 0 && v < Pow2(w)
    ensures LowestBit(v) < w
  {
    if v % 2 == 0 {
      LowestBitBound(v / 2, w - 1);
    }
  }

  /** Setting both bits of p accounts for a thread queued at p. */
  lemma SetKeepsBitmap(lists: map<ListHead, seq<Tid>>, lists': map<ListHead, seq<Tid>>, group: nat, table: seq<nat>, p: nat)
    requires BitmapOk(lists, group, table) && p < 256
    requires Queued(lists', p) && forall q | q != p :: Queued(lists', q) == Queued(lists, q)
    ensures BitmapOk(lists', SetBit(group, p / 8), table[p / 8 := SetBit(table[p / 8], p % 8)])
  {
    var n, b := p / 8, p % 8;
    var table' := table[n := SetBit(table[n], b)];
    SetBitBound(group, n, 32);
    SetBitBound(table[n], b, 8);
    forall m, c: nat | 0 <= m < GROUPS && c < 8
      ensures Bit(table'[m], c) <==> Queued(lists', 8 * m + c)
    {
      SetBitBits(table[n], b, c);
      assert 8 * m + c == p <==> m == n && c == b;
    }
    SetBitBits(table[n], b, b);
    ZeroHasNoBits(b);
    forall m | 0 <= m < GROUPS
      ensures Bit(SetBit(group, n), m) <==> table'[m] != 0
    {
      SetBitBits(group, n, m);
    }
  }

  /** Clearing the bit of an emptied queue, and the group bit of an emptied word, accounts for it. */
  lemma ClearKeepsBitmap(lists: map<ListHead, seq<Tid>>, lists': map<ListHead, seq<Tid>>, group: nat, table: seq<nat>, p: nat)
    requires BitmapOk(lists, group, table) && p < 256
    requires !Queued(lists', p) && forall q | q != p :: Queued(lists', q) == Queued(lists, q)
    ensures var w := ClearBit(table[p / 8], p % 8);
            BitmapOk(lists', if w == 0 then ClearBit(group, p / 8) else group, table[p / 8 := w])
  {
    var n, b := p / 8, p % 8;
    var w := ClearBit(table[n], b);
    var table' := table[n := w];
    var group' := if w == 0 then ClearBit(group, n) else group;
    ClearBitBound(group, n);
    ClearBitBound(table[n], b);
    forall m, c: nat | 0 <= m < GROUPS && c < 8
      ensures Bit(table'[m], c) <==> Queued(lists', 8 * m + c)
    {
      ClearBitBits(table[n], b, c);
      assert 8 * m + c == p <==> m == n && c == b;
    }
    forall m | 0 <= m < GROUPS
      ensures Bit(group', m) <==> table'[m] != 0
    {
      ClearBitBits(group, n, m);
    }
  }

  lemma SameQueuesSameBitmap(lists: map<ListHead, seq<Tid>>, lists': map<ListHead, seq<Tid>>, group: nat, table: seq<nat>)
    requires BitmapOk(lists, group, table) && forall q :: Queued(lists', q) == Queued(lists, q)
    ensures BitmapOk(lists', group, table)
  {
  }

  /** With no thread queued all bits are clear. */
  lemma NothingQueued(lists: map<ListHead, seq<Tid>>, table: seq<nat>)
    requires |table| == GROUPS && (forall n | 0 <= n < GROUPS :: table[n] == 0) && forall h <- lists :: lists[h] == []
    ensures BitmapOk(lists, 0, table)
  {
    forall k: nat
      ensures !Bit(0, k)
    {
      ZeroHasNoBits(k);
    }
  }

  /** No bit for q, no thread queued at q. */
  lemma NoBitNoThread(lists: map<ListHead, seq<Tid>>, group: nat, table: seq<nat>, q: nat)
    requires BitmapOk(lists, group, table) && q < 256
    requires !Bit(group, q / 8) || !Bit(table[q / 8], q % 8)
    ensures !Queued(lists, q)
  {
    var m, c := q / 8, q % 8;
    if !Bit(group, m) {
      assert table[m] == 0;
      ZeroHasNoBits(c);
    }
    assert !Bit(table[m], c);
    assert q == 8 * m + c;
  }

  /** b is the least set bit of word n and n that of the group. */
  ghost predicate LeastBits(group: nat, table: seq<nat>, n: nat, b: nat) {
    && n < GROUPS && n < |table| && b < 8
    && Bit(group, n) && (forall m: nat | m < n :: !Bit(group, m))
    && Bit(table[n], b) && (forall c: nat | c < b :: !Bit(table[n], c))
  }

  lemma BitmapLeast(lists: map<ListHead, seq<Tid>>, group: nat, table: seq<nat>, n: nat, b: nat, q: nat)
    requires BitmapOk(lists, group, table) && LeastBits(group, table, n, b) && q < 8 * n + b
    ensures !Queued(lists, q)
  {
    assert q / 8 < n || (q / 8 == n && q % 8 < b);
    NoBitNoThread(lists, group, table, q);
  }

  lemma HighestIsLeast(s: Sched, p: nat)
    requires p < s.priorityMax && Queue(s, p) != [] && forall q: nat | q < p :: Queue(s, q) == []
    ensures Highest(s) == Some(p)
  {
  }

  lemma EmptyBitmap(s: Sched, table: seq<nat>)
    requires BitmapOk(s.lists, 0, table) && s.priorityMax <= 256
    ensures Highest(s).None?
  {
    if Highest(s).Some? {
      ZeroHasNoBits(Highest(s).value / 8);
      NoBitNoThread(s.lists, 0, table, Highest(s).value);
      assert false;
    }
  }

  lemma NonemptyBitmap(s: Sched, group: nat, table: seq<nat>, n: nat, b: nat)
    requires BitmapOk(s.lists, group, table) && LeastBits(group, table, n, b) && s.priorityMax <= 256
    requires forall p | s.priorityMax <= p :: ReadyList(p) !in s.lists
    ensures Highest(s) == Some(8 * n + b)
  {
    assert Queued(s.lists, 8 * n + b);
    forall q: nat | q < 8 * n + b
      ensures Queue(s, q) == []
    {
      BitmapLeast(s.lists, group, table, n, b, q);
    }
    HighestIsLeast(s, 8 * n + b);
  }

  lemma FirstBits(lists: map<ListHead, seq<Tid>>, group: nat, table: seq<nat>)
    requires BitmapOk(lists, group, table) && group != 0
    ensures var n := LowestBit(group);
            n < GROUPS && table[n] != 0 && LeastBits(group, table, n, LowestBit(table[n]))
  {
    LowestBitBound(group, 32);
    assert Bit(group, LowestBit(group));
    LowestBitBound(table[LowestBit(group)], 8);
  }

  /** The two find-first-set steps give the best priority that has a queued thread. */
  lemma BitmapFindsHighest(s: Sched, group: nat, table: seq<nat>)
    requires BitmapOk(s.lists, group, table) && s.priorityMax <= 256
    requires forall p | s.priorityMax <= p :: ReadyList(p) !in s.lists
    ensures group == 0 <==> Highest(s).None?
    ensures group != 0 ==>
              var n := LowestBit(group);
              n < GROUPS && table[n] != 0 && LowestBit(table[n]) < 8
              && Highest(s) == Some(8 * n + LowestBit(table[n]))
  {
    if group != 0 {
      FirstBits(s.lists, group, table);
      NonemptyBitmap(s, group, table, LowestBit(group), LowestBit(table[LowestBit(group)]));
    } else {
      EmptyBitmap(s, table);
    }
  }

  /** The threads that rt_thread_init prepared, each with its priority and its time slice. */
  function NewThreads(priorities: map<Tid, (nat, nat)>): map<Tid, Thread> {
    map t | t in priorities :: Thread(INIT, priorities[t].0, priorities[t].0, EOK, false, priorities[t].1, priorities[t].1)
  }

  function NewLists(priorityMax: nat, waitLists: set<nat>): map<ListHead, seq<Tid>> {
    (map p: nat | p < priorityMax :: ReadyList(p) := []) + (map w | w in waitLists :: WaitList(w) := [])
  }

  lemma NewKernelIsInitial(priorityMax: nat, priorities: map<Tid, (nat, nat)>, waitLists: set<nat>)
    requires forall t <- priorities :: priorities[t].0 < priorityMax
    ensures var lists := NewLists(priorityMax, waitLists);
            && Initial(Sched(priorityMax, NewThreads(priorities), lists, None, 0, {}))
            && (forall p | priorityMax <= p :: ReadyList(p) !in lists)
            && (forall h <- lists :: lists[h] == [])
            && NewThreads(priorities).Keys == priorities.Keys
            && (forall w <- waitLists :: WaitList(w) in lists)
  {
  }

  // ---------- the kernel's state ----------

  class Kernel {
    const priorityMax: nat
    var threads: map<Tid, Thread>
    var attributes: map<Tid, Attributes>
    var lists: map<ListHead, seq<Tid>>     // rt_thread_priority_table and the suspend lists
    const readyTable: array<nat>           // rt_thread_ready_table
    var readyGroup: nat                    // rt_thread_ready_priority_group
    var current: Option<Tid>               // rt_current_thread
    var lockNest: nat                      // rt_scheduler_lock_nest
    ghost var limbo: set<Tid>

    ghost function State(): Sched
      reads this
    {
      Sched(priorityMax, threads, lists, current, lockNest, limbo)
    }

    /** Every thread that has been started and not closed carries the masks of its current priority. */
    ghost predicate MasksOk()
      reads this
    {
      && attributes.Keys == threads.Keys
      && forall t <- threads :: threads[t].stat != INIT && threads[t].stat != CLOSE ==> attributes[t] == AttributesOf(threads[t].currentPriority)
    }

    /** What holds even in the middle of an operation. */
    ghost predicate Consistent()
      reads this, readyTable
    {
      && 32 < priorityMax <= 256
      && (forall p | priorityMax <= p :: ReadyList(p) !in lists)
      && Shaped(State()) && ListsOk(State())
      && BitmapOk(lists, readyGroup, readyTable[..])
    }

    ghost predicate Valid()
      reads this, readyTable
    {
      Consistent() && MasksOk() && Inv(State())
    }

    /** rt_system_scheduler_init, with the threads that rt_thread_init prepared and the ipc objects' lists. */
    constructor (priorityMax: nat, priorities: map<Tid, (nat, nat)>, waitLists: set<nat>)
      requires 32 < priorityMax <= 256 && forall t <- priorities :: priorities[t].0 < priorityMax
      ensures Valid() && Initial(State()) && fresh(readyTable)
      ensures threads.Keys == priorities.Keys && this.priorityMax == priorityMax
      ensures forall w <- waitLists :: WaitList(w) in lists && lists[WaitList(w)] == []
    {
      this.priorityMax := priorityMax;
      threads := NewThreads(priorities);
      attributes := map t | t in priorities :: Attributes(0, 0);
      lists := NewLists(priorityMax, waitLists);
      readyTable := new nat[32](i => 0);
      readyGroup := 0;
      current := None;
      lockNest := 0;
      limbo := {};
      new;
      NewKernelIsInitial(priorityMax, priorities, waitLists);
      hide BitmapOk, Inv, NewLists;
      NothingQueued(lists, readyTable[..]);
      InitialInv(State());
    }

    /** rt_system_scheduler_start. */
    method SchedulerStart()
      requires Valid() && current.None? && readyGroup != 0
      modifies this`lists, this`readyGroup, this`current, readyTable
      ensures Valid() && State() == StartScheduler(old(State()))
    {
      StartSchedulerKeeps(State());
      var t, p := HighestPriorityThread();
      QueuedIsReady(State(), p);
      assert PlacedRight(State(), t);
      current := Some(t);
      assert forall q :: Queue(State(), q) == Queue(old(State()), q);
      RemoveThread(t);
    }

    /** rt_exit_critical. */
    method LeaveCritical()
      requires Valid() && current.Some?
      modifies this`threads, this`lists, this`limbo, this`readyGroup, this`current, this`lockNest, readyTable
      ensures Valid() && State() == ExitCritical(old(State()))
    {
      hide BitmapOk, PlacedRight, ListsOk;
      if lockNest <= 1 {
        LockKeeps(State(), 0);
        lockNest := 0;
        DoSchedule();
      } else {
        LockKeeps(State(), lockNest - 1);
        lockNest := lockNest - 1;
      }
    }

    /** rt_schedule_insert_thread. */
    method InsertThread(t: Tid)
      requires Consistent() && t in threads && t in attributes
      requires attributes[t] == AttributesOf(threads[t].currentPriority)
      requires forall h <- lists :: t !in lists[h]
      modifies this`threads, this`lists, this`limbo, this`readyGroup, readyTable
      ensures State() == Insert(old(State()), t) && Consistent()
    {
      threads := threads[t := threads[t].(stat := READY)];
      limbo := limbo - {t};
      if current == Some(t) {
        return;
      }
      var p := threads[t].currentPriority;
      lists := lists[ReadyList(p) := lists[ReadyList(p)] + [t]];
      SetKeepsBitmap(old(lists), lists, readyGroup, readyTable[..], p);
      MarkReady(attributes[t]);
    }

    /** Sets both bits of a priority. */
    method MarkReady(a: Attributes)
      requires a.number < readyTable.Length
      modifies this`readyGroup, readyTable
      ensures readyGroup == SetBit(old(readyGroup), a.number)
      ensures readyTable[..] == old(readyTable[..])[a.number := SetBit(old(readyTable[..])[a.number], a.high)]
    {
      readyTable[a.number] := SetBit(readyTable[a.number], a.high);
      readyGroup := SetBit(readyGroup, a.number);
    }

    /** Clears the table bit of a priority, and the group bit if the word became zero. */
    method MarkEmpty(a: Attributes)
      requires a.number < readyTable.Length
      modifies this`readyGroup, readyTable
      ensures var w := ClearBit(old(readyTable[..])[a.number], a.high);
              && readyTable[..] == old(readyTable[..])[a.number := w]
              && readyGroup == if w == 0 then ClearBit(old(readyGroup), a.number) else old(readyGroup)
    {
      readyTable[a.number] := ClearBit(readyTable[a.number], a.high);
      if readyTable[a.number] == 0 {
        readyGroup := ClearBit(readyGroup, a.number);
      }
    }

    /** rt_list_remove on the thread's node. */
    method UnlinkNode(t: Tid)
      modifies this`lists
      ensures State() == Detach(old(State()), t)
    {
      lists := map h | h in lists :: Without(lists[h], t);
    }

    /** rt_schedule_remove_thread: unlink, and clear the bits of a queue that became empty. */
    method RemoveThread(t: Tid)
      requires Consistent() && t in threads && t in attributes
      requires attributes[t] == AttributesOf(threads[t].currentPriority)
      requires forall p :: t in Queue(State(), p) ==> p == threads[t].currentPriority
      modifies this`lists, this`readyGroup, readyTable
      ensures State() == Detach(old(State()), t) && Consistent()
    {
      UnlinkNode(t);
      DetachLists(old(State()), t);
      var p := threads[t].currentPriority;
      forall q | q != p
        ensures Queued(lists, q) == Queued(old(lists), q)
      {
        assert t !in Queue(old(State()), q);
      }
      if lists[ReadyList(p)] == [] {
        ClearKeepsBitmap(old(lists), lists, readyGroup, readyTable[..], p);
        MarkEmpty(attributes[t]);
      } else {
        SameQueuesSameBitmap(old(lists), lists, readyGroup, readyTable[..]);
      }
    }

    /** _get_highest_priority_thread. */
    method HighestPriorityThread() returns (t: Tid, p: nat)
      requires Consistent() && readyGroup != 0
      ensures Highest(State()) == Some(p) && Queue(State(), p) != [] && t == Queue(State(), p)[0]
    {
      BitmapFindsHighest(State(), readyGroup, readyTable[..]);
      WordsFit();
      var n := Ffs(readyGroup);
      var b := Ffs(readyTable[n - 1]);
      p := 8 * (n - 1) + (b - 1);
      t := lists[ReadyList(p)][0];
    }

    /** rt_schedule. */
    method DoSchedule()
      requires Valid() && current.Some?
      modifies this`threads, this`lists, this`limbo, this`readyGroup, this`current, readyTable
      ensures Valid() && State() == Schedule(old(State()))
    {
      BitmapFindsHighest(State(), readyGroup, readyTable[..]);
      ScheduleKeeps(State());
      if lockNest == 0 {
        if readyGroup != 0 {
          var toThread, highest := HighestPriorityThread();
          ScheduleTo(toThread, highest);
        }
      }
    }

    /** The body of rt_schedule, once the best queued thread is known. */
    method ScheduleTo(best: Tid, highest: nat)
      requires Valid() && current.Some? && lockNest == 0
      requires Highest(State()) == Some(highest) && Queue(State(), highest) != [] && best == Queue(State(), highest)[0]
      modifies this`threads, this`lists, this`limbo, this`readyGroup, this`current, readyTable
      ensures Consistent() && MasksOk() && State() == Schedule(old(State()))
    {
      QueuedIsReady(State(), highest);
      var toThread, needInsertFromThread := best, false;
      if threads[current.value].stat == READY {
        if threads[current.value].currentPriority < highest {
          toThread := current.value;
        } else {
          needInsertFromThread := true;
        }
      }
      if toThread != current.value {
        SwitchThread(toThread, needInsertFromThread, highest);
      } else {
        assert PlacedRight(State(), toThread);
        RemoveThread(toThread);
      }
    }

    /** The new thread is running; the old one goes back to its queue if it is still ready. */
    method ChangeCurrent(toThread: Tid, needInsertFromThread: bool)
      requires Valid() && current.Some? && toThread in threads && current != Some(toThread)
      requires needInsertFromThread == (threads[current.value].stat == READY)
      modifies this`threads, this`lists, this`limbo, this`readyGroup, this`current, readyTable
      ensures Consistent() && MasksOk()
      ensures var s, c := old(State()), old(current.value);
              State() == if s.threads[c].stat == READY then Insert(s.(current := Some(toThread)), c) else s.(current := Some(toThread))
    {
      var fromThread := current.value;
      current := Some(toThread);
      if needInsertFromThread {
        CurrentIsOnNoQueue(old(State()), fromThread);
        InsertThread(fromThread);
      }
    }

    /** The switch: the new thread leaves its queue. */
    method SwitchThread(toThread: Tid, needInsertFromThread: bool, ghost p: nat)
      requires Valid() && current.Some? && Queue(State(), p) != [] && toThread == Queue(State(), p)[0]
      requires needInsertFromThread == (threads[current.value].stat == READY)
      modifies this`threads, this`lists, this`limbo, this`readyGroup, this`current, readyTable
      ensures Consistent() && MasksOk() && State() == SwitchTo(old(State()), toThread)
    {
      QueuedIsReady(State(), p);
      StaysInItsQueue(State(), toThread, current.value);
      ChangeCurrent(toThread, needInsertFromThread);
      RemoveThread(toThread);
    }

    /** rt_thread_suspend on the running thread. */
    method SuspendThread() returns (ok: bool)
      requires Valid() && current.Some?
      modifies this`threads, this`lists, this`limbo, this`readyGroup, readyTable
      ensures Valid() && State() == SuspendSelf(old(State()))
      ensures ok == (old(threads)[current.value].stat == READY)
    {
      var t := current.value;
      SuspendSelfKeeps(State());
      ok := threads[t].stat == READY;
      if ok {
        CurrentIsOnNoQueue(State(), t);
        RemoveThread(t);
        threads := threads[t := threads[t].(stat := SUSPEND, timer := false)];
      }
    }

    method UnlinkWaiting(t: Tid)
      requires Valid() && t in threads && threads[t].stat == SUSPEND
      modifies this`lists
      ensures State() == Detach(old(State()), t) && Consistent()
      ensures forall h <- lists :: t !in lists[h]
    {
      assert PlacedRight(State(), t);
      UnlinkNode(t);
      DetachLists(old(State()), t);
      forall q
        ensures Queued(lists, q) == Queued(old(lists), q)
      {
        assert t !in Queue(old(State()), q);
      }
      SameQueuesSameBitmap(old(lists), lists, readyGroup, readyTable[..]);
    }

    /** Takes a suspended thread off its wait list, stops its timer and makes it ready. */
    method ReleaseThread(t: Tid, e: Error)
      requires Valid() && t in threads && threads[t].stat == SUSPEND
      modifies this`threads, this`lists, this`limbo, this`readyGroup, readyTable
      ensures Consistent() && MasksOk() && State() == Release(old(State()), t, e)
    {
      hide BitmapOk, PlacedRight;
      UnlinkWaiting(t);
      threads := threads[t := threads[t].(timer := false, error := e)];
      InsertThread(t);
    }

    /** The first section of rt_thread_resume. */
    method UnlinkSection(t: Tid)
      requires Valid() && t in threads && threads[t].stat == SUSPEND
      modifies this`threads, this`lists
      ensures Valid() && State() == Unlink(old(State()), t)
    {
      hide BitmapOk, PlacedRight;
      UnlinkSetsAdrift(State(), t);
      UnlinkWaiting(t);
      threads := threads[t := threads[t].(timer := false)];
      assert State() == Unlink(old(State()), t);
    }

    /** The second one, rt_schedule_insert_thread, if the thread is still on no list by then; its masks are set. */
    method InsertSection(t: Tid)
      requires Valid() && t in threads && Loose(State(), t) && attributes[t] == AttributesOf(threads[t].currentPriority)
      modifies this`threads, this`lists, this`limbo, this`readyGroup, readyTable
      ensures Valid() && State() == Insert(old(State()), t)
    {
      hide BitmapOk, PlacedRight, ListsOk;
      InsertIsSafeIff(State(), t);
      InsertThread(t);
    }

    /** rt_thread_resume, undisturbed. */
    method ResumeIfSuspended(t: Tid) returns (ok: bool)
      requires Valid() && t in threads
      modifies this`threads, this`lists, this`limbo, this`readyGroup, readyTable
      ensures Valid() && State() == ResumeThread(old(State()), t)
      ensures ok == (old(threads)[t].stat == SUSPEND)
    {
      ok := threads[t].stat == SUSPEND;
      if ok {
        UnlinkSetsAdrift(State(), t);
        UnlinkSection(t);
        InsertSection(t);
      }
    }

    /** rt_thread_timeout, called by the timer check; its assertion on the state holds. */
    method Timeout(t: Tid)
      requires Valid() && current.Some? && t in threads && threads[t].timer
      modifies this`threads, this`lists, this`limbo, this`readyGroup, this`current, readyTable
      ensures Valid() && State() == TimeoutAndSchedule(old(State()), t)
    {
      assert PlacedRight(State(), t);
      assert threads[t].stat == SUSPEND;
      ReleaseKeeps(State(), t, ETIMEOUT);
      ReleaseThread(t, ETIMEOUT);
      DoSchedule();
    }

    /** rt_thread_startup, undisturbed. */
    method Startup(t: Tid)
      requires Valid() && t in threads && threads[t].stat == INIT
      modifies this`threads, this`attributes, this`lists, this`limbo, this`readyGroup, this`current, readyTable
      ensures Valid() && State() == StartAndSchedule(old(State()), t)
    {
      MakeStarted(t);
      var _ := ResumeIfSuspended(t);
      if current.Some? {
        DoSchedule();
      }
    }

    method MakeStarted(t: Tid)
      requires Valid() && t in threads && threads[t].stat == INIT
      modifies this`threads, this`attributes
      ensures Valid()
      ensures State() == InitThread(old(State()), t)
    {
      hide BitmapOk, PlacedRight;
      var p := threads[t].initPriority;
      StartedIsPlaced(State(), t);
      threads := threads[t := threads[t].(currentPriority := p)];
      attributes := attributes[t := Attributes(p / 8, p % 8)];
      threads := threads[t := threads[t].(stat := SUSPEND)];
      assert threads == old(threads)[t := old(threads)[t].(currentPriority := p, stat := SUSPEND)];
    }

    /** RT_THREAD_CTRL_CHANGE_PRIORITY: the masks are recomputed while the thread is on no ready queue. */
    method ControlPriority(t: Tid, p: nat)
      requires Valid() && t in threads && p < priorityMax
      modifies this`threads, this`attributes, this`lists, this`limbo, this`readyGroup, readyTable
      ensures Valid() && State() == ChangePriority(old(State()), t, p)
    {
      hide BitmapOk, ListsOk;
      ChangePriorityKeeps(State(), t, p);
      assert PlacedRight(State(), t);
      if threads[t].stat == READY {
        RemoveThread(t);
        SetPriority(t, p);
        InsertThread(t);
      } else {
        SetPriority(t, p);
      }
    }

    method SetPriority(t: Tid, p: nat)
      requires Consistent() && MasksOk() && t in threads && p < priorityMax
      modifies this`threads, this`attributes
      ensures Consistent() && MasksOk() && t in attributes && attributes[t] == AttributesOf(p)
      ensures State() == Update(old(State()), t, old(threads)[t].(currentPriority := p))
    {
      threads := threads[t := threads[t].(currentPriority := p)];
      attributes := attributes[t := Attributes(p / 8, p % 8)];
    }

    /** The search of rt_ipc_list_suspend for a place on the list. */
    method FindPlace(w: nat, flag: Flag) returns (i: nat)
      requires Shaped(State()) && current.Some? && WaitList(w) in lists && forall t <- lists[WaitList(w)] :: t in threads
      ensures i <= |lists[WaitList(w)]| && i == WaitPos(State(), w, flag)
    {
      var q := lists[WaitList(w)];
      if flag == FIFO {
        return |q|;
      }
      var p := threads[current.value].currentPriority;
      i := 0;
      while i < |q|
        invariant i <= PriorityPos(q, threads, p)
      {
        if p < threads[q[i]].currentPriority {
          break;
        }
        i := i + 1;
      }
    }

    /** The blocking section of the ipc calls, down to the start of the thread timer. */
    method BlockOn(w: nat, flag: Flag, timed: bool)
      requires Valid() && current.Some? && WaitList(w) in lists && threads[current.value].stat == READY
      modifies this`threads, this`lists, this`limbo, this`readyGroup, readyTable
      ensures Valid() && (forall t <- Waiters(old(State()), w) :: t in old(threads))
      ensures State() == Block(old(State()), w, flag, timed)
    {
      var t := current.value;
      BlockKeeps(State(), w, flag, timed);
      SetError(t, EOK);
      SuspendSelfKeeps(State());
      var _ := SuspendThread();
      assert PlacedRight(State(), t);
      JoinList(w, flag, timed);
    }

    /** rt_ipc_list_suspend after the suspend, and the start of the timer. */
    method JoinList(w: nat, flag: Flag, timed: bool)
      requires Valid() && current.Some? && WaitList(w) in lists
      requires InvExcept(State(), current.value) && threads[current.value].stat == SUSPEND && current.value !in limbo
      modifies this`threads, this`lists
      ensures Valid() && State() == Join(old(State()), w, flag, timed)
    {
      hide BitmapOk, PlacedRight;
      var t := current.value;
      JoinKeeps(State(), w, flag, timed);
      var i := FindPlace(w, flag);
      lists := lists[WaitList(w) := InsertAt(lists[WaitList(w)], i, t)];
      threads := threads[t := threads[t].(timer := threads[t].timer || timed)];
      assert State() == Join(old(State()), w, flag, timed);
      SameQueuesSameBitmap(old(lists), lists, readyGroup, readyTable[..]);
    }

    /** The section of rt_thread_sleep: the caller is suspended with its timer running. */
    method SleepSelf()
      requires Valid() && current.Some? && threads[current.value].stat == READY
      modifies this`threads, this`lists, this`limbo, this`readyGroup, readyTable
      ensures Valid() && State() == Sleep(old(State()))
    {
      hide BitmapOk, PlacedRight, ListsOk;
      SleepKeeps(State());
      var ok := SuspendThread();
      var t := current.value;
      threads := threads[t := threads[t].(timer := true)];
      assert State() == Sleep(old(State()));
    }

    /** rt_thread_sleep up to the switch. */
    method SleepAndSchedule()
      requires Valid() && current.Some? && threads[current.value].stat == READY
      modifies this`threads, this`lists, this`limbo, this`readyGroup, this`current, readyTable
      ensures Inv(Sleep(old(State()))) && Valid() && State() == Schedule(Sleep(old(State())))
    {
      SleepKeeps(State());
      SleepSelf();
      DoSchedule();
    }

    /** The end of rt_thread_sleep, when the caller runs again: a timeout is what it waited for. */
    method WakeFromSleep()
      requires Valid() && current.Some?
      modifies this`threads
      ensures Valid() && State() == AwakeFromSleep(old(State()))
    {
      if threads[current.value].error == ETIMEOUT {
        SetError(current.value, EOK);
      }
    }

    /** The first section of rt_thread_detach. */
    method RemoveSection(t: Tid)
      requires Valid() && t in threads && threads[t].stat != CLOSE
      modifies this`lists, this`limbo, this`readyGroup, readyTable
      ensures Valid() && State() == TakeOff(old(State()), t)
    {
      RemoveKeeps(State(), t);
      if threads[t].stat != INIT {
        OnlyItsOwnQueue(State(), t);
        RemoveThread(t);
        if threads[t].stat == READY && current != Some(t) {
          limbo := limbo + {t};
        }
      }
      assert State() == TakeOff(old(State()), t);
    }

    /** The second one, rt_timer_detach. */
    method StopTimerSection(t: Tid)
      requires Valid() && t in threads
      modifies this`threads
      ensures Valid() && State() == StopTimer(old(State()), t)
    {
      StopTimerKeeps(State(), t);
      threads := threads[t := threads[t].(timer := false)];
    }

    /** The write of the state, if the thread is still on no list by then. */
    method MarkSection(t: Tid)
      requires Valid() && t in threads && Loose(State(), t)
      modifies this`threads, this`limbo
      ensures Valid() && State() == MarkClosed(old(State()), t)
    {
      MarkKeeps(State(), t);
      threads := threads[t := threads[t].(stat := CLOSE)];
      limbo := limbo - {t};
    }

    /** rt_thread_detach, undisturbed, without what it does to the object list; the thread has not been detached before. */
    method DetachThread(t: Tid)
      requires Valid() && t in threads && threads[t].stat != CLOSE
      modifies this`threads, this`lists, this`limbo, this`readyGroup, readyTable
      ensures Valid() && State() == Close(old(State()), t)
    {
      RemoveKeeps(State(), t);
      RemoveSection(t);
      StopTimerSection(t);
      MarkSection(t);
    }

    /** thread->error = e */
    method SetError(t: Tid, e: Error)
      requires Valid() && t in threads
      modifies this`threads
      ensures Valid() && State() == Update(old(State()), t, old(threads)[t].(error := e))
    {
      assert PlacedRight(State(), t);
      UpdateInPlace(State(), t, threads[t].(error := e));
      threads := threads[t := threads[t].(error := e)];
    }

    /** rt_ipc_list_resume. */
    method ResumeFirst(w: nat)
      requires Valid() && WaitList(w) in lists && lists[WaitList(w)] != []
      modifies this`threads, this`lists, this`limbo, this`readyGroup, readyTable
      ensures Valid() && State() == WakeFirst(old(State()), w)
    {
      var t := lists[WaitList(w)][0];
      assert t in Waiters(State(), w);
      var _ := ResumeIfSuspended(t);
    }

    /** rt_ipc_list_resume_all. */
    method ResumeAll(w: nat)
      requires Valid() && WaitList(w) in lists
      modifies this`threads, this`lists, this`limbo, this`readyGroup, readyTable
      ensures Valid() && State() == WakeAll(old(State()), w)
    {
      while lists[WaitList(w)] != []
        invariant Valid() && WaitList(w) in lists
        invariant WakeAll(State(), w) == WakeAll(old(State()), w)
        decreases |Waiters(State(), w)|
      {
        ReleaseFirstEffect(State(), w, ERROR);
        WakeWithError(w);
      }
    }

    method WakeWithError(w: nat)
      requires Valid() && WaitList(w) in lists && lists[WaitList(w)] != []
      modifies this`threads, this`lists, this`limbo, this`readyGroup, readyTable
      ensures old(lists)[WaitList(w)][0] in old(threads)
      ensures Valid() && State() == Release(old(State()), old(lists)[WaitList(w)][0], ERROR)
    {
      var t := lists[WaitList(w)][0];
      assert t in Waiters(State(), w) && PlacedRight(State(), t);
      ReleaseKeeps(State(), t, ERROR);
      ReleaseThread(t, ERROR);
    }

    /** The time-slice part of rt_tick_increase. */
    method SliceTick()
      requires Valid() && current.Some?
      modifies this`threads, this`lists, this`limbo, this`readyGroup, this`current, readyTable
      ensures Valid() && State() == TimeSlice(old(State()))
    {
      hide BitmapOk, PlacedRight, ListsOk;
      var t := current.value;
      var left := if threads[t].remainingTick == 0 then 0xFFFF_FFFF else threads[t].remainingTick - 1;
      SetRemaining(t, if left == 0 then threads[t].initTick else left);
      if left == 0 {
        DoSchedule();
      }
    }

    method SetRemaining(t: Tid, left: nat)
      requires Valid() && t in threads
      modifies this`threads
      ensures Valid() && State() == Update(old(State()), t, old(threads)[t].(remainingTick := left))
    {
      assert PlacedRight(State(), t);
      UpdateInPlace(State(), t, threads[t].(remainingTick := left));
      threads := threads[t := threads[t].(remainingTick := left)];
    }

    /** Words of the bitmap fit the 32 bits of find-first-set. */
    lemma WordsFit()
      requires Consistent()
      ensures readyGroup < 0x1_0000_0000 && forall n | 0 <= n < GROUPS :: readyTable[n] < 0x1_0000_0000
    {
      PowersUsed();
      assert forall n | 0 <= n < GROUPS :: readyTable[..][n] < Pow2(8);
    }
  }

  /** Queueing another thread leaves a queued thread where it is. */
  lemma StaysInItsQueue(s: Sched, t: Tid, c: Tid)
    requires Inv(s) && t in s.threads && c in s.threads && t != c && s.threads[t].stat == READY
    ensures forall p :: t in Queue(Insert(s.(current := Some(t)), c), p) ==> p == s.threads[t].currentPriority
    ensures forall p :: t in Queue(s.(current := Some(t)), p) ==> p == s.threads[t].currentPriority
  {
    assert PlacedRight(s, t);
    var r := Insert(s.(current := Some(t)), c);
    forall p | t in Queue(r, p)
      ensures p == s.threads[t].currentPriority
    {
      assert t in Queue(s, p);
    }
    forall p | t in Queue(s.(current := Some(t)), p)
      ensures p == s.threads[t].currentPriority
    {
      assert t in Queue(s, p);
    }
  }

  lemma OnlyItsOwnQueue(s: Sched, t: Tid)
    requires Inv(s) && t in s.threads
    ensures forall p :: t in Queue(s, p) ==> p == s.threads[t].currentPriority
  {
    assert PlacedRight(s, t);
  }

  lemma DetachLists(s: Sched, t: Tid)
    requires ListsOk(s)
    ensures ListsOk(Detach(s, t))
    ensures forall q :: t !in Queue(s, q) ==> Queue(Detach(s, t), q) == Queue(s, q)
  {
    forall h | h in s.lists
      ensures NoDup(Without(s.lists[h], t))
    {
      WithoutKeepsDistinct(s.lists[h], t);
    }
  }
}
