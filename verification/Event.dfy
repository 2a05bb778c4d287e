/** Event groups over the kernel: a word of event bits, and waiters that want all or some of a set. */
module Event {
  import opened Bits
  import opened Seqs
  import opened Scheduler
  import opened Threads
  import opened Steps
  import opened Kernel

  /** thread->event_set and thread->event_info: the option bits AND, OR and CLEAR. */
  datatype Want = Want(events: nat, isAnd: bool, isOr: bool, clear: bool)

  datatype Result = GOT(events: nat) | FAILED(e: Error) | ASLEEP

  /** AND is tested first; OR counts only without it. */
  predicate Satisfied(w: Want, events: nat) {
    if w.isAnd then And(w.events, events) == w.events else w.isOr && And(w.events, events) != 0
  }

  /** What a satisfied waiter receives. */
  function Share(w: Want, events: nat): nat {
    if w.isAnd then w.events else And(w.events, events)
  }

  /** A waiter asks for something, by one of the two rules. */
  predicate Proper(w: Want) {
    w.events != 0 && (w.isAnd || w.isOr)
  }

  /** Fewer bits satisfy no more waiters. */
  lemma SatisfiedIsMonotone(w: Want, a: nat, b: nat)
    requires Within(a, b) && Satisfied(w, a)
    ensures Satisfied(w, b)
  {
    if w.isAnd {
      WithinChain(w.events, a, b);
    } else {
      WithinMeets(w.events, a, b);
    }
  }

  /** An AND waiter's share is its whole set, an OR waiter's a non-empty part of it; both are bits that are there. */
  lemma ShareOfSatisfied(w: Want, events: nat)
    requires Proper(w) && Satisfied(w, events)
    ensures Within(Share(w, events), events) && Within(Share(w, events), w.events) && Share(w, events) != 0
    ensures w.isAnd ==> Share(w, events) == w.events
  {
    AndIsWithin(w.events, events);
  }

  // ---------- the group ----------

  datatype Group = Group(k: Sched, id: nat, flag: Flag, events: nat, wants: map<Tid, Want>)

  ghost predicate GroupOk(g: Group) {
    Inv(g.k) && WaitList(g.id) in g.k.lists && WantsOk(Waiters(g.k, g.id), g.wants)
  }

  ghost predicate WantsOk(q: seq<Tid>, wants: map<Tid, Want>) {
    forall t <- q :: t in wants && Proper(wants[t])
  }

  /** No sleeping waiter's condition holds. */
  ghost predicate NobodySleepsSatisfied(g: Group)
    requires GroupOk(g)
  {
    NoneSatisfied(Waiters(g.k, g.id), g.wants, g.events)
  }

  ghost predicate NoneSatisfied(q: seq<Tid>, wants: map<Tid, Want>, events: nat)
    requires WantsOk(q, wants)
  {
    forall t <- q :: !Satisfied(wants[t], events)
  }

  lemma FewerBitsSatisfyNobody(q: seq<Tid>, wants: map<Tid, Want>, events: nat, less: nat)
    requires WantsOk(q, wants) && NoneSatisfied(q, wants, events) && Within(less, events)
    ensures NoneSatisfied(q, wants, less)
  {
    forall t | t in q
      ensures !Satisfied(wants[t], less)
    {
      if Satisfied(wants[t], less) {
        SatisfiedIsMonotone(wants[t], less, events);
      }
    }
  }

  // ---------- the traversal of rt_event_send ----------

  /** The bits left and the wish kept by a visit to a waiter: if it is satisfied it takes its share, and clears
      it if asked to. */
  function BitsAfter(w: Want, events: nat): (r: nat)
    ensures Within(r, events)
  {
    AndNotIsWithin(events, Share(w, events));
    AndIsWithin(events, events);
    if Satisfied(w, events) && w.clear then AndNot(events, Share(w, events)) else events
  }

  function WantAfter(w: Want, events: nat): Want {
    if Satisfied(w, events) then w.(events := Share(w, events)) else w
  }

  function Visit(g: Group, t: Tid): Group
    requires Shaped(g.k) && t in g.k.threads && t in g.wants
  {
    var w := g.wants[t];
    g.(wants := g.wants[t := WantAfter(w, g.events)],
       events := BitsAfter(w, g.events),
       k := if Satisfied(w, g.events) then ResumeThread(g.k, t) else g.k)
  }

  /** The waiters q in list order, all of them on the list. */
  function Traverse(g: Group, q: seq<Tid>): (r: Group)
    requires GroupOk(g) && NoDup(q) && forall t <- q :: t in Waiters(g.k, g.id)
    ensures GroupOk(r) && r.id == g.id && r.flag == g.flag
    decreases |q|
  {
    if q == [] then g
    else
      VisitKeeps(g, q);
      Traverse(Visit(g, q[0]), q[1..])
  }

  lemma ResumeWaiter(k: Sched, id: nat, t: Tid)
    requires Inv(k) && t in Waiters(k, id)
    ensures t in k.threads
    ensures var r := ResumeThread(k, t);
            && Inv(r) && Waiters(r, id) == Without(Waiters(k, id), t) && r.lists.Keys == k.lists.Keys
            && r.threads.Keys == k.threads.Keys && r.threads[t].stat == READY
            && (forall x <- k.threads | x != t :: r.threads[x] == k.threads[x])
  {
    assert PlacedRight(k, t);
    ResumeKeeps(k, t);
    StepWaiters(k, DoResume(t), id);
  }

  lemma VisitView(g: Group, t: Tid)
    requires GroupOk(g) && t in Waiters(g.k, g.id)
    ensures t in g.k.threads && t in g.wants && Proper(g.wants[t])
    ensures var r, w := Visit(g, t), g.wants[t];
            && GroupOk(r)
            && Waiters(r.k, r.id) == (if Satisfied(w, g.events) then Without(Waiters(g.k, g.id), t) else Waiters(g.k, g.id))
            && r.k.threads.Keys == g.k.threads.Keys
            && (Satisfied(w, g.events) ==> r.k.threads[t].stat == READY)
            && (forall x <- g.k.threads | x != t :: r.k.threads[x] == g.k.threads[x])
  {
    ResumeWaiter(g.k, g.id, t);
    var w := g.wants[t];
    if !Satisfied(w, g.events) {
      assert g.wants[t := w] == g.wants;
    }
  }

  lemma VisitKeeps(g: Group, q: seq<Tid>)
    requires GroupOk(g) && q != [] && NoDup(q) && forall t <- q :: t in Waiters(g.k, g.id)
    ensures q[0] in g.k.threads && q[0] in g.wants
    ensures GroupOk(Visit(g, q[0])) && forall t <- q[1..] :: t in Waiters(Visit(g, q[0]).k, Visit(g, q[0]).id)
  {
    assert q[0] in Waiters(g.k, g.id);
    VisitView(g, q[0]);
    assert q[0] !in q[1..];
  }

  /** How a visited waiter w stands when the traversal is over. If it still sleeps, it keeps its wish and the bits
      that are left do not satisfy it; if it was woken, it holds what it asked for (all of it for AND, some of it
      for OR), of bits that were there, and bits it cleared are gone. */
  predicate Served(before: nat, after: nat, w: Want, asleep: bool, w': Want) {
    if asleep then w' == w && !Satisfied(w, after)
    else
      && w' == w.(events := w'.events)
      && w'.events != 0 && Within(w'.events, w.events) && Within(w'.events, before)
      && (w.isAnd ==> w'.events == w.events)
      && (w.clear ==> And(after, w'.events) == 0)
  }

  /** What the traversal leaves: nobody gains bits, waiters outside q and other threads are as they were, the
      woken ones are ready, every visited waiter is served, and cleared bits go to one waiter only. */
  ghost predicate Traversed(g: Group, q: seq<Tid>, r: Group)
    requires GroupOk(g) && GroupOk(r)
  {
    && Within(r.events, g.events)
    && (forall t <- g.wants | t !in q :: t in r.wants && r.wants[t] == g.wants[t])
    && (forall t | t !in q :: t in Waiters(r.k, r.id) <==> t in Waiters(g.k, g.id))
    && r.k.threads.Keys == g.k.threads.Keys
    && (forall t <- g.k.threads | t !in q :: r.k.threads[t] == g.k.threads[t])
    && (forall t <- q | t !in Waiters(r.k, r.id) :: t in r.k.threads && r.k.threads[t].stat == READY)
    && (forall t <- q :: t in g.wants && t in r.wants
                         && Served(g.events, r.events, g.wants[t], t in Waiters(r.k, r.id), r.wants[t]))
    && ClearedOnce(q, Waiters(r.k, r.id), r.wants)
  }

  ghost predicate ClearedOnce(q: seq<Tid>, asleep: seq<Tid>, wants: map<Tid, Want>)
    requires forall t <- q :: t in wants
  {
    forall i, j | 0 <= i < j < |q| :: q[i] !in asleep && q[j] !in asleep && wants[q[i]].clear
                                      ==> And(wants[q[j]].events, wants[q[i]].events) == 0
  }

  /** The waiter visited first, after the rest of the traversal has taken bits from mid to after. */
  lemma FirstIsServed(before: nat, after: nat, w: Want)
    requires Proper(w) && Within(after, BitsAfter(w, before))
    ensures Served(before, after, w, !Satisfied(w, before), WantAfter(w, before))
    ensures Within(after, before)
  {
    WithinChain(after, BitsAfter(w, before), before);
    if Satisfied(w, before) {
      ShareOfSatisfied(w, before);
      if w.clear {
        WithinCleared(after, before, Share(w, before));
      }
    } else if Satisfied(w, after) {
      SatisfiedIsMonotone(w, after, before);
    }
  }

  /** A later waiter is served from the bits the first one left. */
  lemma LaterIsServed(before: nat, after: nat, w0: Want, w: Want, asleep: bool, w': Want)
    requires Served(BitsAfter(w0, before), after, w, asleep, w')
    ensures Served(before, after, w, asleep, w')
    ensures !asleep && Satisfied(w0, before) && w0.clear ==> And(w'.events, WantAfter(w0, before).events) == 0
  {
    if !asleep {
      WithinChain(w'.events, BitsAfter(w0, before), before);
      if Satisfied(w0, before) && w0.clear {
        WithinCleared(w'.events, before, Share(w0, before));
      }
    }
  }

  lemma {:induction false} TraverseServes(g: Group, q: seq<Tid>)
    requires GroupOk(g) && NoDup(q) && forall t <- q :: t in Waiters(g.k, g.id)
    ensures Traversed(g, q, Traverse(g, q))
    decreases |q|
  {
    hide PlacedRight, ListsOk, WantAfter, Satisfied, Served;
    if q == [] {
      AndIsWithin(g.events, g.events);
    } else {
      VisitKeeps(g, q);
      TraverseServes(Visit(g, q[0]), q[1..]);
      assert q[0] in Waiters(g.k, g.id) && q[0] !in q[1..];
      VisitView(g, q[0]);
      TraverseOneMore(g, q, Visit(g, q[0]), Traverse(g, q));
    }
  }

  lemma TraverseOneMore(g: Group, q: seq<Tid>, g1: Group, r: Group)
    requires GroupOk(g) && GroupOk(g1) && GroupOk(r)
    requires q != [] && q[0] !in q[1..] && q[0] in Waiters(g.k, g.id)
    requires q[0] in g.wants && Proper(g.wants[q[0]]) && q[0] in g.k.threads
    requires g1.events == BitsAfter(g.wants[q[0]], g.events)
    requires g1.wants == g.wants[q[0] := WantAfter(g.wants[q[0]], g.events)]
    requires Waiters(g1.k, g1.id) == if Satisfied(g.wants[q[0]], g.events) then Without(Waiters(g.k, g.id), q[0]) else Waiters(g.k, g.id)
    requires g1.k.threads.Keys == g.k.threads.Keys
    requires Satisfied(g.wants[q[0]], g.events) ==> g1.k.threads[q[0]].stat == READY
    requires forall x <- g.k.threads | x != q[0] :: g1.k.threads[x] == g.k.threads[x]
    requires Traversed(g1, q[1..], r)
    ensures Traversed(g, q, r)
  {
    hide Inv, WantsOk, ClearedOnce, Served, Waiters, BitsAfter, WantAfter, Satisfied, Proper, Within, Without;
    OthersKept(g, q, g1, r);
    LaterAreServed(g, q, g1, r);
    FirstOfAllServed(g, q, g1, r);
  }

  lemma FirstOfAllServed(g: Group, q: seq<Tid>, g1: Group, r: Group)
    requires q != [] && q[0] in g.wants && Proper(g.wants[q[0]]) && q[0] !in q[1..]
    requires g1.events == BitsAfter(g.wants[q[0]], g.events) && Within(r.events, g1.events)
    requires q[0] in r.wants && r.wants[q[0]] == WantAfter(g.wants[q[0]], g.events)
    requires q[0] in Waiters(r.k, r.id) <==> !Satisfied(g.wants[q[0]], g.events)
    requires forall t <- q[1..] :: t in g.wants && t in r.wants
    requires forall t <- q[1..] :: Served(g1.events, r.events, g.wants[t], t in Waiters(r.k, r.id), r.wants[t])
    requires ClearedOnce(q[1..], Waiters(r.k, r.id), r.wants)
    ensures Within(r.events, g.events) && forall t <- q :: t in r.wants
    ensures Served(g.events, r.events, g.wants[q[0]], q[0] in Waiters(r.k, r.id), r.wants[q[0]])
    ensures ClearedOnce(q, Waiters(r.k, r.id), r.wants)
  {
    hide Served, Waiters, BitsAfter, WantAfter, Satisfied, Within, ClearedOnce;
    FirstIsServed(g.events, r.events, g.wants[q[0]]);
    assert q == [q[0]] + q[1..];
    OnceMore(q, Waiters(r.k, r.id), g.wants, r.wants, g.events, r.events);
  }

  lemma OthersKept(g: Group, q: seq<Tid>, g1: Group, r: Group)
    requires q != [] && q[0] in g.k.threads && q[0] !in q[1..] && q[0] in g.wants
    requires g1.wants == g.wants[q[0] := WantAfter(g.wants[q[0]], g.events)]
    requires g1.k.threads.Keys == g.k.threads.Keys && r.k.threads.Keys == g1.k.threads.Keys
    requires Satisfied(g.wants[q[0]], g.events) ==> g1.k.threads[q[0]].stat == READY
    requires forall x <- g.k.threads | x != q[0] :: g1.k.threads[x] == g.k.threads[x]
    requires Waiters(g1.k, g1.id) == if Satisfied(g.wants[q[0]], g.events) then Without(Waiters(g.k, g.id), q[0]) else Waiters(g.k, g.id)
    requires forall t <- g1.wants | t !in q[1..] :: t in r.wants && r.wants[t] == g1.wants[t]
    requires forall t | t !in q[1..] :: t in Waiters(r.k, r.id) <==> t in Waiters(g1.k, g1.id)
    requires forall t <- g1.k.threads | t !in q[1..] :: r.k.threads[t] == g1.k.threads[t]
    requires forall t <- q[1..] | t !in Waiters(r.k, r.id) :: t in r.k.threads && r.k.threads[t].stat == READY
    requires q[0] in Waiters(r.k, r.id) <==> !Satisfied(g.wants[q[0]], g.events)
    ensures forall t <- g.wants | t !in q :: t in r.wants && r.wants[t] == g.wants[t]
    ensures forall t | t !in q :: t in Waiters(r.k, r.id) <==> t in Waiters(g.k, g.id)
    ensures forall t <- g.k.threads | t !in q :: r.k.threads[t] == g.k.threads[t]
    ensures forall t <- q | t !in Waiters(r.k, r.id) :: t in r.k.threads && r.k.threads[t].stat == READY
  {
    hide Satisfied, WantAfter, Waiters;
    assert q == [q[0]] + q[1..];
  }

  lemma LaterAreServed(g: Group, q: seq<Tid>, g1: Group, r: Group)
    requires q != [] && q[0] in g.wants
    requires g1.events == BitsAfter(g.wants[q[0]], g.events)
    requires g1.wants == g.wants[q[0] := WantAfter(g.wants[q[0]], g.events)]
    requires forall t <- q[1..] :: t in g1.wants && t in r.wants
                                   && Served(g1.events, r.events, g1.wants[t], t in Waiters(r.k, r.id), r.wants[t])
    ensures forall t <- q | t != q[0] :: t in g.wants && t in r.wants
                                         && Served(g.events, r.events, g.wants[t], t in Waiters(r.k, r.id), r.wants[t])
  {
    hide Served, BitsAfter, WantAfter, Satisfied, Waiters;
    forall t | t in q && t != q[0]
      ensures t in g.wants && t in r.wants && Served(g.events, r.events, g.wants[t], t in Waiters(r.k, r.id), r.wants[t])
    {
      assert t in q[1..] && t in g1.wants;
      LaterIsServed(g.events, r.events, g.wants[q[0]], g.wants[t], t in Waiters(r.k, r.id), r.wants[t]);
    }
  }

  /** If the first waiter clears its share, the later ones, served from what was left, hold none of it. */
  lemma OnceMore(q: seq<Tid>, asleep: seq<Tid>, wants: map<Tid, Want>, wants': map<Tid, Want>, before: nat, after: nat)
    requires q != [] && forall t <- q :: t in wants && t in wants'
    requires ClearedOnce(q[1..], asleep, wants')
    requires wants'[q[0]] == WantAfter(wants[q[0]], before) && (q[0] in asleep <==> !Satisfied(wants[q[0]], before))
    requires forall t <- q[1..] :: Served(BitsAfter(wants[q[0]], before), after, wants[t], t in asleep, wants'[t])
    ensures ClearedOnce(q, asleep, wants')
  {
    forall i, j | 0 <= i < j < |q| && q[i] !in asleep && q[j] !in asleep && wants'[q[i]].clear
      ensures And(wants'[q[j]].events, wants'[q[i]].events) == 0
    {
      assert q[j] == q[1..][j - 1] && q[j] in q[1..];
      if i == 0 {
        LaterIsServed(before, after, wants[q[0]], wants[q[j]], false, wants'[q[j]]);
      } else {
        assert q[i] == q[1..][i - 1];
      }
    }
  }

  // ---------- operations ----------

  /** rt_event_send up to its rt_schedule. */
  function SendStep(g: Group, events: nat): Group
    requires GroupOk(g)
  {
    if events == 0 then g else Traverse(g.(events := Or(g.events, events)), Waiters(g.k, g.id))
  }

  /** A change to the running thread's error, which leaves every list alone. */
  function ErrorOf(k: Sched, e: Error): Sched
    requires Running(k)
  {
    Update(k, k.current.value, k.threads[k.current.value].(error := e))
  }

  lemma ErrorKeeps(k: Sched, e: Error)
    requires Inv(k) && Running(k)
    ensures var r := ErrorOf(k, e);
            Inv(r) && (forall w :: Waiters(r, w) == Waiters(k, w)) && Running(r) && r.lists == k.lists
  {
    assert PlacedRight(k, k.current.value);
    UpdateInPlace(k, k.current.value, k.threads[k.current.value].(error := e));
  }

  /** rt_event_recv by the running thread, up to its rt_schedule; one of AND and OR is set. */
  function RecvStep(g: Group, w: Want, timeout: int): (Group, Result)
    requires GroupOk(g) && Running(g.k) && (w.isAnd || w.isOr)
  {
    if w.events == 0 then (g, FAILED(ERROR))
    else
      ErrorKeeps(g.k, EOK);
      var k0 := ErrorOf(g.k, EOK);
      if Satisfied(w, g.events) then
        (g.(k := k0, events := if w.clear then AndNot(g.events, w.events) else g.events), GOT(And(g.events, w.events)))
      else if timeout == 0 then (g.(k := ErrorOf(k0, ETIMEOUT)), FAILED(ETIMEOUT))
      else
        WaitersAreNotInitial(k0, g.id);
        (g.(k := Block(k0, g.id, g.flag, timeout > 0), wants := g.wants[g.k.current.value := w]), ASLEEP)
  }

  /** RT_IPC_CMD_RESET up to its rt_schedule. */
  function ResetStep(g: Group): Group
    requires GroupOk(g)
  {
    g.(k := WakeAll(g.k, g.id), events := 0)
  }

  datatype Op = Send(events: nat) | Recv(w: Want, timeout: int) | Reset | Other(a: Step)

  predicate GroupEnabled(g: Group, op: Op)
    requires Shaped(g.k)
  {
    match op
    case Send(_) => true
    case Recv(w, _) => Running(g.k) && (w.isAnd || w.isOr)
    case Reset => true
    case Other(a) => Enabled(g.k, a) && (a.DoBlock? ==> a.w != g.id)
  }

  function GroupStep(g: Group, op: Op): Group
    requires GroupOk(g) && GroupEnabled(g, op)
  {
    match op
    case Send(events) => SendStep(g, events)
    case Recv(w, timeout) => RecvStep(g, w, timeout).0
    case Reset => ResetStep(g)
    case Other(a) => g.(k := Apply(g.k, a))
  }

  /** A send serves every waiter from the old and the new bits together. */
  lemma SendServesEveryWaiter(g: Group, events: nat)
    requires GroupOk(g) && events != 0
    ensures Traversed(g.(events := Or(g.events, events)), Waiters(g.k, g.id), SendStep(g, events))
    ensures NobodySleepsSatisfied(SendStep(g, events))
  {
    TraverseServes(g.(events := Or(g.events, events)), Waiters(g.k, g.id));
  }

  /** No bit is lost: a bit that is set after the new bits are added and clear after the traversal went to a
      waiter that was released and that had asked for its bits to be cleared. */
  lemma LostBitsWereTaken(g: Group, events: nat, n: nat)
    requires GroupOk(g) && events != 0
    ensures var r := SendStep(g, events);
            (Bit(g.events, n) || Bit(events, n)) && !Bit(r.events, n) ==>
              exists t <- Waiters(g.k, g.id) ::
                t !in Waiters(r.k, r.id) && t in g.wants && g.wants[t].clear && t in r.wants && Bit(r.wants[t].events, n)
  {
    WordBits(g.events, events, n);
    if (Bit(g.events, n) || Bit(events, n)) && !Bit(SendStep(g, events).events, n) {
      var t := TakerOf(g.(events := Or(g.events, events)), Waiters(g.k, g.id), n);
    }
  }

  lemma {:induction false} TakerOf(g: Group, q: seq<Tid>, n: nat) returns (t: Tid)
    requires GroupOk(g) && NoDup(q) && forall t <- q :: t in Waiters(g.k, g.id)
    requires Bit(g.events, n) && !Bit(Traverse(g, q).events, n)
    ensures var r := Traverse(g, q);
            t in q && t !in Waiters(r.k, r.id) && t in g.wants && g.wants[t].clear && t in r.wants && Bit(r.wants[t].events, n)
    decreases |q|
  {
    VisitKeeps(g, q);
    var g1, w := Visit(g, q[0]), g.wants[q[0]];
    assert q[0] in Waiters(g.k, g.id) && q[0] !in q[1..];
    if Bit(g1.events, n) {
      t := TakerOf(g1, q[1..], n);
    } else {
      t := q[0];
      WordBits(g.events, Share(w, g.events), n);
      VisitView(g, t);
      TraverseServes(g1, q[1..]);
    }
  }

  lemma AtOnceKeeps(g: Group, w: Want)
    requires GroupOk(g) && NobodySleepsSatisfied(g) && Running(g.k)
    ensures var k0 := ErrorOf(g.k, EOK);
            && GroupOk(g.(k := k0)) && NobodySleepsSatisfied(g.(k := k0))
            && GroupOk(g.(k := k0, events := AndNot(g.events, w.events))) && NobodySleepsSatisfied(g.(k := k0, events := AndNot(g.events, w.events)))
  {
    ErrorKeeps(g.k, EOK);
    AndNotIsWithin(g.events, w.events);
    FewerBitsSatisfyNobody(Waiters(g.k, g.id), g.wants, g.events, AndNot(g.events, w.events));
  }

  lemma ExtendWants(q: seq<Tid>, i: nat, c: Tid, wants: map<Tid, Want>, w: Want, events: nat)
    requires WantsOk(q, wants) && NoneSatisfied(q, wants, events) && i <= |q| && c !in q
    requires Proper(w) && !Satisfied(w, events)
    ensures WantsOk(InsertAt(q, i, c), wants[c := w]) && NoneSatisfied(InsertAt(q, i, c), wants[c := w], events)
  {
  }

  lemma AsleepKeeps(g: Group, w: Want, timed: bool)
    requires GroupOk(g) && NobodySleepsSatisfied(g) && Running(g.k) && Proper(w) && !Satisfied(w, g.events)
    ensures Inv(ErrorOf(g.k, EOK)) && forall t <- Waiters(ErrorOf(g.k, EOK), g.id) :: t in ErrorOf(g.k, EOK).threads
    ensures var r := g.(k := Block(ErrorOf(g.k, EOK), g.id, g.flag, timed), wants := g.wants[g.k.current.value := w]);
            GroupOk(r) && NobodySleepsSatisfied(r)
  {
    var c, k0 := g.k.current.value, ErrorOf(g.k, EOK);
    ErrorKeeps(g.k, EOK);
    BlockKeeps(k0, g.id, g.flag, timed);
    BlockEffect(k0, g.id, g.flag, timed);
    ExtendWants(Waiters(g.k, g.id), WaitPos(k0, g.id, g.flag), c, g.wants, w, g.events);
  }

  lemma RecvKeeps(g: Group, w: Want, timeout: int)
    requires GroupOk(g) && NobodySleepsSatisfied(g) && GroupEnabled(g, Recv(w, timeout))
    ensures GroupOk(RecvStep(g, w, timeout).0) && NobodySleepsSatisfied(RecvStep(g, w, timeout).0)
  {
    if w.events != 0 {
      if Satisfied(w, g.events) {
        AtOnceKeeps(g, w);
      } else if timeout == 0 {
        AtOnceKeeps(g, w);
        ErrorKeeps(ErrorOf(g.k, EOK), ETIMEOUT);
      } else {
        AsleepKeeps(g, w, timeout > 0);
      }
    }
  }

  /** A receive that succeeds at once yields the whole set (AND) or a non-empty part of it (OR), and
      with CLEAR no bit it asked for is left; one that cannot succeed either fails, changing no bit, or puts
      the caller on the list with what it asked for. */
  lemma RecvYields(g: Group, w: Want, timeout: int)
    requires GroupOk(g) && GroupEnabled(g, Recv(w, timeout))
    ensures var (r, result) := RecvStep(g, w, timeout);
            && (result.GOT? <==> w.events != 0 && Satisfied(w, g.events))
            && (result.GOT? ==>
                  && result.events != 0 && Within(result.events, w.events) && Within(result.events, g.events)
                  && (w.isAnd ==> result.events == w.events)
                  && (if w.clear then And(r.events, w.events) == 0 && Or(r.events, result.events) == g.events else r.events == g.events))
            && (result.FAILED? ==> r.events == g.events && r.wants == g.wants && (w.events == 0 || timeout == 0))
            && (result.ASLEEP? ==>
                  var c := g.k.current.value;
                  && r.events == g.events && c in Waiters(r.k, g.id) && r.wants == g.wants[c := w]
                  && c in r.k.threads && r.k.threads[c].stat == SUSPEND && (r.k.threads[c].timer <==> timeout > 0))
  {
    if w.events != 0 && Satisfied(w, g.events) {
      ShareOfSatisfied(w, g.events);
      AndCommutes(g.events, w.events);
      AndNotIsWithin(g.events, w.events);
    } else if w.events != 0 && timeout != 0 {
      ErrorKeeps(g.k, EOK);
      BlockEffect(ErrorOf(g.k, EOK), g.id, g.flag, timeout > 0);
    }
  }

  lemma ResetKeeps(g: Group)
    requires GroupOk(g)
    ensures GroupOk(ResetStep(g)) && NobodySleepsSatisfied(ResetStep(g))
  {
    WakeAllWakesTheWaiters(g.k, g.id);
  }

  lemma OtherKeeps(g: Group, a: Step)
    requires GroupOk(g) && NobodySleepsSatisfied(g) && GroupEnabled(g, Other(a))
    ensures GroupOk(g.(k := Apply(g.k, a))) && NobodySleepsSatisfied(g.(k := Apply(g.k, a)))
  {
    StepKeeps(g.k, a);
    StepWaiters(g.k, a, g.id);
    StepListKeys(g.k, a);
  }

  lemma GroupStepKeeps(g: Group, op: Op)
    requires GroupOk(g) && NobodySleepsSatisfied(g) && GroupEnabled(g, op)
    ensures GroupOk(GroupStep(g, op)) && NobodySleepsSatisfied(GroupStep(g, op))
  {
    match op
    case Send(events) =>
      if events != 0 {
        SendServesEveryWaiter(g, events);
      }
    case Recv(w, timeout) => RecvKeeps(g, w, timeout);
    case Reset => ResetKeeps(g);
    case Other(a) => OtherKeeps(g, a);
  }

  /** What rt_event_recv yields to a caller that waited, once it runs again: the set it was left with, if it has no error. */
  function WokenYield(g: Group, t: Tid): Result
    requires t in g.k.threads && t in g.wants
  {
    if g.k.threads[t].error == EOK then GOT(g.wants[t].events) else FAILED(g.k.threads[t].error)
  }

  /** The failing input: somebody resumes a waiter. It is ready, and its receive yields all it asked for although the
      group does not satisfy it. */
  lemma ResumedWaiterIsUnserved(g: Group, t: Tid)
    requires GroupOk(g) && NobodySleepsSatisfied(g) && t in Waiters(g.k, g.id) && t in g.k.threads && g.k.threads[t].error == EOK
    ensures GroupEnabled(g, Other(DoResume(t)))
    ensures var r := GroupStep(g, Other(DoResume(t)));
            && t in r.k.threads && r.k.threads[t].stat == READY && t !in Waiters(r.k, g.id) && t in r.wants
            && WokenYield(r, t) == GOT(g.wants[t].events) && !Satisfied(r.wants[t], r.events)
  {
    WaitersAreNotInitial(g.k, g.id);
    StepRecords(g.k, DoResume(t));
    StepWaiters(g.k, DoResume(t), g.id);
  }

  ghost predicate Runs(g: Group, ops: seq<Op>)
    requires GroupOk(g) && NobodySleepsSatisfied(g)
    decreases |ops|
  {
    ops != [] ==> GroupEnabled(g, ops[0]) && (GroupStepKeeps(g, ops[0]); Runs(GroupStep(g, ops[0]), ops[1..]))
  }

  ghost function Run(g: Group, ops: seq<Op>): (r: Group)
    requires GroupOk(g) && NobodySleepsSatisfied(g) && Runs(g, ops)
    ensures GroupOk(r)
    decreases |ops|
  {
    if ops == [] then g else GroupStepKeeps(g, ops[0]); Run(GroupStep(g, ops[0]), ops[1..])
  }

  /** In every reachable state, no thread sleeps whose AND or OR condition the event word satisfies. */
  lemma {:induction false} NobodyEverSleepsSatisfied(g: Group, ops: seq<Op>)
    requires GroupOk(g) && NobodySleepsSatisfied(g) && Runs(g, ops)
    ensures NobodySleepsSatisfied(Run(g, ops))
    decreases |ops|
  {
    if ops != [] {
      GroupStepKeeps(g, ops[0]);
      NobodyEverSleepsSatisfied(GroupStep(g, ops[0]), ops[1..]);
    }
  }
  // ---------- the event object ----------

  class EventObject {
    const kernel: Kernel
    const id: nat
    const flag: Flag
    var events: nat
    var wants: map<Tid, Want>              // event_set and event_info of the threads

    ghost function State(): Group
      reads this, kernel
    {
      Group(kernel.State(), id, flag, events, wants)
    }

    ghost predicate Valid()
      reads this, kernel, kernel.readyTable
    {
      kernel.Valid() && GroupOk(State())
    }

    /** rt_event_init on a list nobody waits on. */
    constructor (kernel: Kernel, id: nat, flag: Flag)
      requires kernel.Valid() && WaitList(id) in kernel.lists && kernel.lists[WaitList(id)] == []
      ensures Valid() && this.kernel == kernel && this.id == id && this.flag == flag
      ensures events == 0 && NobodySleepsSatisfied(State())
    {
      this.kernel, this.id, this.flag := kernel, id, flag;
      events, wants := 0, map[];
    }

    /** rt_event_send up to its rt_schedule, which it calls if somebody was released: one walk over the suspended
        threads. */
    method Send(set32: nat) returns (needSchedule: bool)
      requires Valid()
      modifies this`events, this`wants, kernel, kernel.readyTable
      ensures Valid() && State() == SendStep(old(State()), set32)
      ensures needSchedule <==> |Waiters(State().k, id)| < |old(Waiters(State().k, id))|
    {
      hide BitmapOk, PlacedRight, NoneSatisfied, WantsOk;
      needSchedule := false;
      if set32 == 0 {
        return;
      }
      events := Or(events, set32);
      var q := kernel.lists[WaitList(id)];
      var i := 0;
      ghost var start := State();
      while i < |q|
        invariant i <= |q| && Valid()
        invariant NoDup(q[i..]) && forall t <- q[i..] :: t in Waiters(State().k, id)
        invariant Traverse(State(), q[i..]) == Traverse(start, q)
        invariant |Waiters(State().k, id)| <= |q|
        invariant needSchedule <==> |Waiters(State().k, id)| < |q|
      {
        assert q[i..][0] == q[i] && q[i..][1..] == q[i + 1..];
        VisitKeeps(State(), q[i..]);
        VisitView(State(), q[i]);
        WithoutIsShorter(Waiters(State().k, id), q[i]);
        var woken := VisitWaiter(q[i]);
        needSchedule := needSchedule || woken;
        i := i + 1;
      }
    }

    /** One turn of the walk. */
    method VisitWaiter(t: Tid) returns (woken: bool)
      requires Valid() && t in kernel.threads && t in wants && GroupOk(Visit(State(), t))
      modifies this`events, this`wants, kernel, kernel.readyTable
      ensures Valid() && State() == Visit(old(State()), t) && woken == Satisfied(old(wants[t]), old(events))
    {
      hide BitmapOk, PlacedRight, ListsOk;
      var w := wants[t];
      woken := false;
      if w.isAnd {
        woken := And(w.events, events) == w.events;
      } else if w.isOr {
        if And(w.events, events) != 0 {
          wants := wants[t := w.(events := And(w.events, events))];
          woken := true;
        }
      }
      if woken {
        if w.clear {
          events := AndNot(events, wants[t].events);
        }
        var _ := kernel.ResumeIfSuspended(t);
      } else {
        assert wants[t := w] == wants;
      }
    }

    /** rt_event_recv up to its rt_schedule. */
    method Recv(w: Want, timeout: int) returns (result: Result)
      requires Valid() && NobodySleepsSatisfied(State()) && GroupEnabled(State(), Op.Recv(w, timeout))
      modifies this`events, this`wants, kernel, kernel.readyTable
      ensures Valid() && (State(), result) == RecvStep(old(State()), w, timeout)
    {
      hide BitmapOk, PlacedRight, ListsOk, NoneSatisfied;
      if w.events == 0 {
        return FAILED(ERROR);
      }
      AtOnceKeeps(State(), w);
      var t := kernel.current.value;
      kernel.SetError(t, EOK);
      var ready := if w.isAnd then And(events, w.events) == w.events else And(events, w.events) != 0;
      AndCommutes(events, w.events);
      if ready {
        result := GOT(And(events, w.events));
        if w.clear {
          events := AndNot(events, w.events);
        }
      } else if timeout == 0 {
        kernel.SetError(t, ETIMEOUT);
        result := FAILED(ETIMEOUT);
      } else {
        AsleepKeeps(old(State()), w, timeout > 0);
        wants := wants[t := w];
        kernel.BlockOn(id, flag, timeout > 0);
        result := ASLEEP;
      }
    }

    /** RT_IPC_CMD_RESET up to its rt_schedule. */
    method Reset()
      requires Valid()
      modifies this`events, kernel, kernel.readyTable
      ensures Valid() && State() == ResetStep(old(State()))
    {
      ResetKeeps(State());
      kernel.ResumeAll(id);
      events := 0;
    }
  }
}
