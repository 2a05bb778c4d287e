/** The order in which timers are called: by deadline, as long as no timer is linked behind its time. */
module TimerOrder {
  import opened Seqs
  import opened Ticks
  import opened Timers

  /** The calls so far went by deadline, ties in link order, and what is listed comes after them. */
  ghost predicate DeadlineOrdered(s: Sys) {
    && (forall i, j | 0 <= i < j < |s.fired| ::
          Earlier(s.fired[i].deadline, s.fired[i].linkNo, s.fired[j].deadline, s.fired[j].linkNo))
    && forall f, t | f in s.fired && t in s.queue && t in s.timers ::
         Earlier(f.deadline, f.linkNo, s.timers[t].deadline, s.timers[t].linkNo)
  }

  /** What a caller can check before a link: no timer was called whose deadline is later. */
  predicate InTime(s: Sys, e: Event) {
    e.Link? && e.id in s.timers ==> forall f <- s.fired :: f.deadline <= s.timers[e.id].deadline
  }

  /** A link that does not come after its deadline is in time. */
  lemma PunctualLinkIsInTime(s: Sys, t: Id, checking: bool)
    requires Inv(s, checking) && t in s.timers && s.now <= s.timers[t].deadline
    ensures InTime(s, Link(t))
  {
  }

  /** r is s with t linked anew, behind every call made. */
  lemma AddedOrdered(s: Sys, r: Sys, t: Id)
    requires DeadlineOrdered(s) && t in s.timers && r.fired == s.fired
    requires (forall x <- r.queue :: x == t || x in s.queue)
    requires forall x <- s.timers | x != t :: x in r.timers && r.timers[x] == s.timers[x]
    requires t in r.timers && forall f <- s.fired :: Earlier(f.deadline, f.linkNo, r.timers[t].deadline, r.timers[t].linkNo)
    requires forall x <- s.queue :: x in s.timers
    ensures DeadlineOrdered(r)
  {
  }

  lemma StartOrdered(s: Sys, t: Id, checking: bool)
    requires Inv(s, checking) && t in s.timers && DeadlineOrdered(s)
    ensures DeadlineOrdered(StartNow(s, t))
  {
    assert InRange(s.timers[t], s.now, s.late);
    AddedOrdered(s, StartNow(s, t), t);
  }

  lemma ApplyOrdered(s: Sys, c: Command, checking: bool)
    requires Inv(s, checking) && DeadlineOrdered(s)
    ensures DeadlineOrdered(Apply(s, c))
  {
    if c.Start? && c.id in s.timers {
      StartOrdered(s, c.id, checking);
    }
  }

  lemma {:induction false} ApplyAllOrdered(s: Sys, cs: seq<Command>)
    requires Inv(s, true) && DeadlineOrdered(s)
    ensures DeadlineOrdered(ApplyAll(s, cs))
    decreases |cs|
  {
    if cs != [] {
      ApplyKeepsInv(s, cs[0], true);
      ApplyOrdered(s, cs[0], true);
      ApplyAllOrdered(Apply(s, cs[0]), cs[1..]);
    }
  }

  lemma LoggedOrdered(s: Sys)
    requires DeadlineOrdered(s) && Ordered(s.queue, s.timers) && s.queue != []
    ensures DeadlineOrdered(Logged(s))
  {
    var t, r := s.queue[0], Logged(s);
    assert t in s.queue;
    forall x | x in r.queue
      ensures Earlier(s.timers[t].deadline, s.timers[t].linkNo, s.timers[x].deadline, s.timers[x].linkNo)
    {
      var i :| 0 <= i < |s.queue| && s.queue[i] == x;
    }
    forall f | f in s.fired
      ensures Earlier(f.deadline, f.linkNo, s.timers[t].deadline, s.timers[t].linkNo)
    {
    }
  }

  lemma FireHeadOrdered(s: Sys, cb: Callbacks)
    requires Inv(s, true) && s.queue != [] && s.timers[s.queue[0]].deadline <= s.now && DeadlineOrdered(s)
    ensures DeadlineOrdered(FireHead(s, cb))
  {
    var t, s1 := s.queue[0], CallHead(s, cb);
    LoggedKeepsInv(s);
    LoggedOrdered(s);
    ApplyAllOrdered(Logged(s), Commands(cb, t));
    CallHeadKeepsInv(s, cb);
    var s2 := ClearFlag(s1, t);
    ClearFlagKeepsInv(s1, t, true);
    assert DeadlineOrdered(s2);
    StartOrdered(s2, t, true);
  }

  lemma {:induction false} CheckOrdered(s: Sys, cb: Callbacks)
    requires Inv(s, true) && DeadlineOrdered(s)
    ensures DeadlineOrdered(Check(s, cb))
    decreases Due(s)
  {
    if s.queue != [] && s.timers[s.queue[0]].deadline <= s.now {
      FireHeadOrdered(s, cb);
      FireHeadKeepsInv(s, cb);
      FireHeadDue(s, cb);
      CheckOrdered(FireHead(s, cb), cb);
    }
  }

  /** An event keeps the order by deadline if and only if it is not a link that comes too late. */
  lemma StepKeepsOrderIff(s: Sys, e: Event, cb: Callbacks)
    requires Inv(s, false) && Enabled(s, e) && DeadlineOrdered(s)
    ensures DeadlineOrdered(Step(s, e, cb)) <==> InTime(s, e)
  {
    match e
    case Link(t) => LinkOrderedIff(s, t);
    case Call(c) => ApplyOrdered(s, c, false);
    case TickEvent => CheckOrdered(s.(now := s.now + 1), cb);
    case _ =>
  }

  lemma LinkOrderedIff(s: Sys, t: Id)
    requires Inv(s, false) && Enabled(s, Link(t)) && DeadlineOrdered(s)
    ensures DeadlineOrdered(LinkStart(s, t)) <==> InTime(s, Link(t))
  {
    var r := LinkStart(s, t);
    if InTime(s, Link(t)) {
      AddedOrdered(s, r, t);
    } else {
      var f :| f in s.fired && f.deadline > s.timers[t].deadline;
      assert r.queue[InsertPos(s.queue, r.timers, r.timers[t].deadline)] == t;
      assert f in r.fired && t in r.queue;
    }
  }

  ghost predicate AlwaysOrdered(s: Sys, es: seq<Event>, cb: Callbacks)
    requires Inv(s, false) && Runs(s, es, cb)
    decreases |es|
  {
    DeadlineOrdered(s) && (es != [] ==> AlwaysOrdered(Step(s, es[0], cb), es[1..], cb))
  }

  ghost predicate LinksInTime(s: Sys, es: seq<Event>, cb: Callbacks)
    requires Inv(s, false) && Runs(s, es, cb)
    decreases |es|
  {
    es != [] ==> InTime(s, es[0]) && LinksInTime(Step(s, es[0], cb), es[1..], cb)
  }

  /** At every moment of a run the calls so far are in deadline order, and ahead of all that is listed, if and only if
      every link is in time when it is made. */
  lemma {:induction false} DeadlineOrderHoldsIff(s: Sys, es: seq<Event>, cb: Callbacks)
    requires Inv(s, false) && Runs(s, es, cb) && DeadlineOrdered(s)
    ensures AlwaysOrdered(s, es, cb) <==> LinksInTime(s, es, cb)
    decreases |es|
  {
    if es != [] {
      StepKeepsOrderIff(s, es[0], cb);
      if InTime(s, es[0]) {
        DeadlineOrderHoldsIff(Step(s, es[0], cb), es[1..], cb);
      }
    }
  }

  // ---------- an order turned around ----------

  /** A tick at which the only timer listed is not due yet. */
  lemma QuietTick(s: Sys, cb: Callbacks, a: Id)
    requires Inv(s, false) && s.queue == [a] && s.timers[a].deadline > s.now + 1
    ensures Step(s, TickEvent, cb) == s.(now := s.now + 1)
  {
  }

  /** A tick that calls a one-shot timer, the only one listed. */
  lemma OneShotTick(s: Sys, a: Id)
    requires Inv(s, false) && s.queue == [a] && s.timers[a].deadline == s.now + 1 && !s.timers[a].periodic
    ensures var r := Step(s, TickEvent, map[]);
            && r.now == s.now + 1 && r.queue == [] && |r.fired| == |s.fired| + 1 && r.fired[..|s.fired|] == s.fired
            && r.fired[|s.fired|].id == a && r.fired[|s.fired|].at == r.now && r.fired[|s.fired|].deadline == r.now
            && r.timers == s.timers[a := s.timers[a].(activated := false)] && r.links == s.links && r.late == s.late
  {
    LateTickCalls(s, map[], a);
    var v := s.(now := s.now + 1);
    assert Logged(v).queue == [];
    assert CallHead(v, map[]) == Logged(v);
  }

  lemma StartedAlone(s: Sys, a: Id, t: Id)
    requires Inv(s, false) && s.queue == [] && a in s.timers && t in s.timers && a != t
    ensures var r := StartNow(BeginStart(s, t), a);
            && r.queue == [a] && r.now == s.now && r.fired == s.fired && r.late == s.late && r.timers.Keys == s.timers.Keys
            && r.timers[a].deadline == s.now + s.timers[a].initTick && r.timers[a].periodic == s.timers[a].periodic
            && r.timers[t].deadline == s.now + s.timers[t].initTick
  {
  }

  lemma FourMoreEvents(s: Sys, a: Event, b: Event, c: Event, d: Event, rest: seq<Event>, cb: Callbacks)
    requires Inv(s, false) && Enabled(s, a)
    requires var s1 := Step(s, a, cb);
             && Enabled(s1, b)
             && var s2 := Step(s1, b, cb);
             && Enabled(s2, c)
             && var s3 := Step(s2, c, cb);
             Enabled(s3, d) && Runs(Step(s3, d, cb), rest, cb)
    ensures var es := [a] + ([b] + ([c] + ([d] + rest)));
            Runs(s, es, cb) && Run(s, es, cb) == Run(Step(Step(Step(Step(s, a, cb), b, cb), c, cb), d, cb), rest, cb)
  {
    hide Inv, Enabled;
    var s1 := Step(s, a, cb);
    var s2 := Step(s1, b, cb);
    var s3 := Step(s2, c, cb);
    OneMoreEvent(s3, d, rest, cb);
    OneMoreEvent(s2, c, [d] + rest, cb);
    OneMoreEvent(s1, b, [c] + ([d] + rest), cb);
    OneMoreEvent(s, a, [b] + ([c] + ([d] + rest)), cb);
  }

  /** The state when the held-up start goes on. */
  lemma CalledMeanwhile(s: Sys, a: Id, t: Id)
    requires Inv(s, false) && s.queue == [] && s.fired == [] && a in s.timers && t in s.timers && a != t && s.late >= 1
    requires s.timers[a].initTick == 2 && s.timers[t].initTick == 1 && !s.timers[a].periodic
    ensures var cb: Callbacks := map[];
            var s2 := Step(Step(s, Begin(t), cb), Call(Start(a)), cb);
            var s4 := Step(Step(s2, TickEvent, cb), TickEvent, cb);
            && s4.queue == [] && |s4.fired| == 1 && s4.fired[0].id == a && s4.fired[0].at == s4.fired[0].deadline == s4.now
            && t in s4.timers && s4.timers[t].deadline == s4.now - 1 && s4.late == s.late
  {
    var cb: Callbacks := map[];
    var s2 := Step(Step(s, Begin(t), cb), Call(Start(a)), cb);
    StartedAlone(s, a, t);
    QuietTick(s2, cb, a);
    OneShotTick(Step(s2, TickEvent, cb), a);
  }

  /** The start of a timer of one tick is held up while a timer of two ticks is started and called: its own call comes
      after that one, with the earlier deadline. */
  lemma LateLinkTurnsOrder(s: Sys, a: Id, t: Id)
    requires Inv(s, false) && s.queue == [] && s.fired == [] && a in s.timers && t in s.timers && a != t && s.late >= 1
    requires s.timers[a].initTick == 2 && s.timers[t].initTick == 1 && !s.timers[a].periodic
    ensures var es := [Begin(t)] + ([Call(Start(a))] + ([TickEvent] + ([TickEvent] + ([Link(t)] + ([TickEvent] + [])))));
            && Runs(s, es, map[])
            && var log := Run(s, es, map[]).fired;
            && |log| == 2 && log[0].id == a && log[1].id == t
            && log[0].at < log[1].at && log[1].deadline < log[0].deadline
  {
    var cb: Callbacks := map[];
    var s4 := Step(Step(Step(Step(s, Begin(t), cb), Call(Start(a)), cb), TickEvent, cb), TickEvent, cb);
    CalledMeanwhile(s, a, t);
    LateLinkIsCalledLate(s4, cb, t);
    FourMoreEvents(s, Begin(t), Call(Start(a)), TickEvent, TickEvent, [Link(t)] + ([TickEvent] + []), cb);
  }
}
