/** What each timer call sets, and when a timer that is started is called: at the tick of the start plus its interval,
    whatever else is listed. */
module TimerStarts {
  import opened Seqs
  import opened Ticks
  import opened Timers

  // ---------- what the calls set ----------

  /** r lists what s lists, but for t, which is listed or not. */
  ghost predicate OnlyMoves(s: Sys, r: Sys, t: Id, listed: bool) {
    (t in r.queue <==> listed) && forall x: Id | x != t :: x in r.queue <==> x in s.queue
  }

  /** The first section of a start takes the timer off the list, and its deadline is its interval ahead. */
  lemma BeginSets(s: Sys, t: Id)
    requires t in s.timers
    ensures var r := BeginStart(s, t);
            && OnlyMoves(s, r, t, false)
            && r.timers == s.timers[t := s.timers[t].(deadline := s.now + s.timers[t].initTick, activated := false)]
            && r.now == s.now && r.links == s.links && r.fired == s.fired && r.late == s.late
  {
  }

  /** The second section lists it, in order, with the deadline it has. */
  lemma LinkSets(s: Sys, t: Id, checking: bool)
    requires Inv(s, checking) && t in s.timers && t !in s.queue
    ensures var r := LinkStart(s, t);
            && OnlyMoves(s, r, t, true) && Ordered(r.queue, r.timers)
            && r.timers == s.timers[t := s.timers[t].(linkedAt := s.now, linkNo := s.links, activated := true)]
            && r.now == s.now && r.links == s.links + 1 && r.fired == s.fired && r.late == s.late
  {
    LinkIsOrdered(s, t);
    InsertedIn(s.queue, InsertPos(s.queue, LinkStart(s, t).timers, s.timers[t].deadline), t);
  }

  lemma InsertedIn(q: seq<nat>, p: nat, t: nat)
    requires p <= |q|
    ensures forall x :: x in InsertAt(q, p, t) <==> x == t || x in q
  {
  }

  /** An undisturbed start, from any state: the deadline is the interval ahead, whatever was listed, the timer is listed
      in order and marked, and no other record changes. */
  lemma StartSets(s: Sys, t: Id, checking: bool)
    requires Inv(s, checking) && t in s.timers
    ensures var r := StartNow(s, t);
            && OnlyMoves(s, r, t, true) && Ordered(r.queue, r.timers)
            && r.timers == s.timers[t := s.timers[t].(deadline := s.now + s.timers[t].initTick, linkedAt := s.now,
                                                      linkNo := s.links, activated := true)]
            && r.now == s.now && r.links == s.links + 1 && r.fired == s.fired && r.late == s.late
  {
    BeginSets(s, t);
    BeginKeepsInv(s, t, checking);
    LinkSets(BeginStart(s, t), t, checking);
  }

  /** A stop takes a marked timer off the list and clears its mark; it leaves any other alone. */
  lemma StopSets(s: Sys, t: Id)
    requires t in s.timers
    ensures !s.timers[t].activated ==> StopTimer(s, t) == s
    ensures s.timers[t].activated ==>
              var r := StopTimer(s, t);
              && OnlyMoves(s, r, t, false) && r.timers == s.timers[t := s.timers[t].(activated := false)]
              && r.now == s.now && r.links == s.links && r.fired == s.fired && r.late == s.late
  {
  }

  /** rt_timer_control sets the interval, for the next start, or the mode, and nothing else. */
  lemma ControlSets(s: Sys, t: Id, d: int, on: bool)
    requires t in s.timers && (forall x <- s.queue :: x in s.timers) && 1 <= d < HALF_TICKS - s.late
    ensures Apply(s, SetTime(t, d)) == s.(timers := s.timers[t := s.timers[t].(initTick := d)])
    ensures Apply(s, SetPeriodic(t, on)) == s.(timers := s.timers[t := s.timers[t].(periodic := on)])
  {
  }

  /** A timeout function calls one after the other. */
  lemma {:induction false} CommandsInOrder(s: Sys, cs: seq<Command>, c: Command)
    requires forall x <- s.queue :: x in s.timers
    ensures ApplyAll(s, []) == s && ApplyAll(s, cs + [c]) == Apply(ApplyAll(s, cs), c)
    decreases |cs|
  {
    if cs == [] {
      assert ([] + [c])[1..] == [];
    } else {
      assert (cs + [c])[1..] == cs[1..] + [c];
      CommandsInOrder(Apply(s, cs[0]), cs[1..], c);
    }
  }

  /** The check takes the first timer off the list and logs its call. */
  lemma CallSets(s: Sys)
    requires s.queue != [] && forall x <- s.queue :: x in s.timers
    ensures var t, u := s.queue[0], Logged(s);
            && OnlyMoves(s, u, t, false) && u.timers == s.timers && u.now == s.now && u.links == s.links && u.late == s.late
            && u.fired == s.fired + [Firing(t, s.now, s.timers[t].deadline, s.timers[t].linkedAt, s.timers[t].linkNo)]
  {
  }

  /** After its timeout function, which left state a, a timer that is then periodic and marked is started anew, and any
      other loses its mark. */
  lemma RearmSets(a: Sys, t: Id)
    requires Inv(a, true) && t in a.timers
    ensures var r := Rearm(a, t);
            if a.timers[t].periodic && a.timers[t].activated then
              && OnlyMoves(a, r, t, true)
              && r.timers == a.timers[t := a.timers[t].(deadline := a.now + a.timers[t].initTick, linkedAt := a.now, linkNo := a.links)]
              && r.fired == a.fired && r.links == a.links + 1
            else r == a.(timers := a.timers[t := a.timers[t].(activated := false)])
  {
    if a.timers[t].periodic && a.timers[t].activated {
      var b := ClearFlag(a, t);
      ClearFlagKeepsInv(a, t, true);
      StartSets(b, t, true);
      assert b.queue == a.queue;
    }
  }

  // ---------- a timer that is not listed ----------

  /** Not listed, with this record. */
  ghost predicate Idle(s: Sys, t: Id, rec: Timer) {
    t in s.timers && t !in s.queue && s.timers[t] == rec
  }

  lemma FireHeadIdle(s: Sys, cb: Callbacks, t: Id, rec: Timer)
    requires Inv(s, true) && s.queue != [] && s.timers[s.queue[0]].deadline <= s.now
    requires Idle(s, t, rec) && OthersLeaveAlone(t, cb)
    ensures Idle(FireHead(s, cb), t, rec)
  {
    ApplyAllOthers(Logged(s), Commands(cb, s.queue[0]), t);
  }

  lemma {:induction false} CheckIdle(s: Sys, cb: Callbacks, t: Id, rec: Timer)
    requires Inv(s, true) && Idle(s, t, rec) && OthersLeaveAlone(t, cb)
    ensures Idle(Check(s, cb), t, rec)
    decreases Due(s)
  {
    if s.queue != [] && s.timers[s.queue[0]].deadline <= s.now {
      FireHeadIdle(s, cb, t, rec);
      FireHeadKeepsInv(s, cb);
      FireHeadDue(s, cb);
      CheckIdle(FireHead(s, cb), cb, t, rec);
    }
  }

  lemma StepIdle(s: Sys, e: Event, cb: Callbacks, t: Id, rec: Timer)
    requires Inv(s, false) && Enabled(s, e) && !Names(e, t) && Idle(s, t, rec) && OthersLeaveAlone(t, cb)
    ensures Idle(Step(s, e, cb), t, rec)
  {
    if e.TickEvent? {
      CheckIdle(s.(now := s.now + 1), cb, t, rec);
    }
  }

  lemma {:induction false} RunIdle(s: Sys, es: seq<Event>, cb: Callbacks, t: Id, rec: Timer)
    requires Inv(s, false) && Runs(s, es, cb) && Idle(s, t, rec) && LeftAlone(t, es) && OthersLeaveAlone(t, cb)
    ensures Idle(Run(s, es, cb), t, rec)
    decreases |es|
  {
    if es != [] {
      assert es[0] in es && LeftAlone(t, es[1..]);
      StepIdle(s, es[0], cb, t, rec);
      RunIdle(Step(s, es[0], cb), es[1..], cb, t, rec);
    }
  }

  // ---------- from the start to the call ----------

  /** A timer started at some tick with some interval, and then left alone, is called at exactly the sum of the two, and
      is listed until then, whatever else is listed, started or called. */
  lemma StartedTimerFires(s: Sys, es: seq<Event>, cb: Callbacks, t: Id)
    requires Inv(s, false) && t in s.timers && Runs(Step(s, Call(Start(t)), cb), es, cb)
    requires LeftAlone(t, es) && OthersLeaveAlone(t, cb)
    ensures Runs(s, [Call(Start(t))] + es, cb)
    ensures var r, due := Run(s, [Call(Start(t))] + es, cb), s.now + s.timers[t].initTick;
            && (r.now < due ==> t in r.queue && r.timers[t].deadline == due)
            && (due <= r.now ==> Firing(t, due, due, s.now, s.links) in r.fired)
  {
    hide Step, Inv;
    StartIsLinked(s, cb, t);
    OneMoreEvent(s, Call(Start(t)), es, cb);
    LinkedTimerFires(Step(s, Call(Start(t)), cb), es, cb, t);
  }

  lemma StartIsLinked(s: Sys, cb: Callbacks, t: Id)
    requires Inv(s, false) && t in s.timers
    ensures var r, due := Step(s, Call(Start(t)), cb), s.now + s.timers[t].initTick;
            && t in r.queue && t in r.timers && r.timers[t].deadline == due && r.timers[t].linkedAt == s.now
            && r.timers[t].linkNo == s.links && s.now < due && r.timers[t].initTick == s.timers[t].initTick
            && r.timers[t].periodic == s.timers[t].periodic && r.timers[t].activated && r.fired == s.fired
  {
    hide Ordered;
    StartSets(s, t, false);
    assert 1 <= s.timers[t].initTick by { assert InRange(s.timers[t], s.now, s.late); }
  }

  /** The same of a start in two sections, however long it is held up between them and by whatever: the call comes at
      the tick of the first section plus the interval, or, if the second section was not before that, at the tick
      after it. */
  lemma HeldUpTimerFires(s: Sys, gap: seq<Event>, es: seq<Event>, cb: Callbacks, t: Id)
    requires Inv(s, false) && t in s.timers && Runs(Step(s, Begin(t), cb), gap, cb)
    requires LeftAlone(t, gap) && LeftAlone(t, es) && OthersLeaveAlone(t, cb)
    requires var u := Run(Step(s, Begin(t), cb), gap, cb); Enabled(u, Link(t)) && Runs(Step(u, Link(t), cb), es, cb)
    ensures var u := Run(Step(s, Begin(t), cb), gap, cb);
            var r, deadline := Run(Step(u, Link(t), cb), es, cb), s.now + s.timers[t].initTick;
            var due := if u.now < deadline then deadline else u.now + 1;
            && (r.now < due ==> t in r.queue && r.timers[t].deadline == deadline)
            && (due <= r.now ==> Firing(t, due, deadline, u.now, u.links) in r.fired)
  {
    hide Step, Inv;
    var u := Run(Step(s, Begin(t), cb), gap, cb);
    HeldUp(s, gap, cb, t);
    LinkedTimerFires(Step(u, Link(t), cb), es, cb, t);
  }

  lemma HeldUp(s: Sys, gap: seq<Event>, cb: Callbacks, t: Id)
    requires Inv(s, false) && t in s.timers && Runs(Step(s, Begin(t), cb), gap, cb)
    requires LeftAlone(t, gap) && OthersLeaveAlone(t, cb)
    requires Enabled(Run(Step(s, Begin(t), cb), gap, cb), Link(t))
    ensures var u := Run(Step(s, Begin(t), cb), gap, cb);
            var v := Step(u, Link(t), cb);
            && t in v.queue && t in v.timers && v.timers[t].deadline == s.now + s.timers[t].initTick
            && v.timers[t].linkedAt == u.now && v.timers[t].linkNo == u.links
  {
    hide Ordered;
    var b := Step(s, Begin(t), cb);
    BeginSets(s, t);
    RunIdle(b, gap, cb, t, b.timers[t]);
    LinkSets(Run(b, gap, cb), t, false);
  }

  /** A one-shot timer started and left alone is called exactly once, then. */
  lemma StartedOneShotFiresOnce(s: Sys, es: seq<Event>, cb: Callbacks, t: Id)
    requires Inv(s, false) && t in s.timers && !s.timers[t].periodic && Runs(Step(s, Call(Start(t)), cb), es, cb)
    requires LeftAlone(t, es) && NoneNames(t, cb)
    ensures var r, due := Run(Step(s, Call(Start(t)), cb), es, cb), s.now + s.timers[t].initTick;
            && Calls(r.fired, t) == Calls(s.fired, t) + (if due <= r.now then [due] else [])
            && (t in r.queue <==> r.now < due)
  {
    hide Step, Inv;
    StartIsLinked(s, cb, t);
    OneShotFiresOnce(Step(s, Call(Start(t)), cb), es, cb, t);
  }

  /** A periodic one is called first then, and from there on every interval. */
  lemma StartedPeriodicFires(s: Sys, es: seq<Event>, cb: Callbacks, t: Id)
    requires Inv(s, false) && t in s.timers && s.timers[t].periodic && Runs(Step(s, Call(Start(t)), cb), es, cb)
    requires LeftAlone(t, es) && NoneNames(t, cb)
    ensures var r, d := Run(Step(s, Call(Start(t)), cb), es, cb), s.timers[t].initTick;
            && |s.fired| <= |r.fired|
            && var times := Calls(r.fired[|s.fired|..], t);
            && (times == [] ==> r.now < s.now + d)
            && (times != [] ==> times[|times| - 1] <= r.now < times[|times| - 1] + d)
            && forall i | 0 <= i < |times| :: times[i] == s.now + d + i * d
  {
    hide Step, Inv;
    StartIsLinked(s, cb, t);
    var s1 := Step(s, Call(Start(t)), cb);
    PeriodicTimerFires(s1, es, cb, t);
    EvenlySpaced(Calls(Run(s1, es, cb).fired[|s.fired|..], t), s.now + s.timers[t].initTick, s.timers[t].initTick);
  }

  lemma EvenlySpaced(times: seq<int>, first: int, d: int)
    requires times != [] ==> times[0] == first
    requires forall i | 0 < i < |times| :: times[i] == times[i - 1] + d
    ensures forall i | 0 <= i < |times| :: times[i] == first + i * d
  {
    var n := 0;
    while n < |times|
      invariant n <= |times| && forall i | 0 <= i < n :: times[i] == first + i * d
    {
      if n > 0 {
        assert times[n - 1] == first + (n - 1) * d && (n - 1) * d + d == n * d;
      }
      n := n + 1;
    }
  }
}
