/** The hard-timer service seen in unbounded time: a stable, deadline-sorted queue, the
    start, stop and check operations on it, and what holds over every run of them.
    TimerWheel refines this down to 32-bit ticks and skip-list rows. */
module Timers {
  import opened Ticks
  import opened Seqs

  type Id = nat

  /** A timer object. deadline, linkedAt and linkNo are its timeout, the time it was last
      linked and the position of that link among all links, as unbounded numbers. */
  datatype Timer = Timer(initTick: int, deadline: int, linkedAt: int, linkNo: nat,
                         periodic: bool, activated: bool)

  /** One call of a timeout function. */
  datatype Firing = Firing(id: Id, at: int, deadline: int, linkedAt: int, linkNo: nat)

  /** late bounds how long after its deadline a timer may still be linked, when a start is held up between its two
      sections; intervals are then shorter than half the tick range by as much. */
  datatype Sys = Sys(now: int, timers: map<Id, Timer>, queue: seq<Id>, links: nat, fired: seq<Firing>, late: nat)

  /** What a timeout function may do to timers, its own included. */
  datatype Command = Start(id: Id) | Stop(id: Id) | SetTime(id: Id, time: int) | SetPeriodic(id: Id, on: bool)

  type Callbacks = map<Id, seq<Command>>

  // ---------- the queue ----------

  /** The number of leading entries whose deadline is no later than d. */
  function InsertPos(q: seq<Id>, timers: map<Id, Timer>, d: int): (p: nat)
    requires forall t <- q :: t in timers
    ensures p <= |q|
    ensures forall i | 0 <= i < p :: timers[q[i]].deadline <= d
    ensures p < |q| ==> timers[q[p]].deadline > d
  {
    if q == [] || timers[q[0]].deadline > d then 0 else 1 + InsertPos(q[1..], timers, d)
  }

  /** Earlier deadline first, and among equal deadlines the one linked first. */
  predicate Earlier(d1: int, n1: nat, d2: int, n2: nat) {
    d1 < d2 || (d1 == d2 && n1 < n2)
  }

  ghost predicate Ordered(q: seq<Id>, timers: map<Id, Timer>) {
    && (forall t <- q :: t in timers)
    && forall i, j | 0 <= i < j < |q| ::
         Earlier(timers[q[i]].deadline, timers[q[i]].linkNo, timers[q[j]].deadline, timers[q[j]].linkNo)
  }

  // ---------- the operations ----------

  /** First critical section of a start, and the read of the tick that follows it. */
  function BeginStart(s: Sys, t: Id): Sys
    requires t in s.timers
  {
    s.(queue := Without(s.queue, t),
       timers := s.timers[t := s.timers[t].(deadline := s.now + s.timers[t].initTick, activated := false)])
  }

  /** Second critical section of a start: link behind every entry that is no later. */
  function LinkStart(s: Sys, t: Id): Sys
    requires t in s.timers && forall x <- s.queue :: x in s.timers
  {
    var timers := s.timers[t := s.timers[t].(linkedAt := s.now, linkNo := s.links, activated := true)];
    s.(timers := timers, links := s.links + 1,
       queue := InsertAt(s.queue, InsertPos(s.queue, timers, timers[t].deadline), t))
  }

  /** A start whose two sections nothing separates. */
  function StartNow(s: Sys, t: Id): Sys
    requires t in s.timers && forall x <- s.queue :: x in s.timers
  {
    LinkStart(BeginStart(s, t), t)
  }

  /** The critical section of a stop. */
  function Unlist(s: Sys, t: Id): Sys {
    s.(queue := Without(s.queue, t))
  }

  /** The write to the flag that ends a stop, with interrupts on again. */
  function ClearFlag(s: Sys, t: Id): Sys
    requires t in s.timers
  {
    s.(timers := s.timers[t := s.timers[t].(activated := false)])
  }

  /** A stop that nothing interrupts. */
  function StopTimer(s: Sys, t: Id): Sys
    requires t in s.timers
  {
    if s.timers[t].activated then ClearFlag(Unlist(s, t), t) else s
  }

  /** A command naming an unknown timer or an interval outside [1, RT_TICK_MAX / 2 - late) does nothing here. */
  function Apply(s: Sys, c: Command): Sys
    requires forall x <- s.queue :: x in s.timers
  {
    if c.id !in s.timers then s else
    match c
    case Start(t) => StartNow(s, t)
    case Stop(t) => StopTimer(s, t)
    case SetTime(t, d) => if 1 <= d < HALF_TICKS - s.late then s.(timers := s.timers[t := s.timers[t].(initTick := d)]) else s
    case SetPeriodic(t, on) => s.(timers := s.timers[t := s.timers[t].(periodic := on)])
  }

  function ApplyAll(s: Sys, cs: seq<Command>): (r: Sys)
    requires forall x <- s.queue :: x in s.timers
    ensures forall x <- r.queue :: x in r.timers
    ensures r.timers.Keys == s.timers.Keys && r.now == s.now && r.fired == s.fired
    decreases |cs|
  {
    if cs == [] then s else ApplyAll(Apply(s, cs[0]), cs[1..])
  }

  function Commands(cb: Callbacks, t: Id): seq<Command> {
    if t in cb then cb[t] else []
  }

  /** s with its head taken off and the call logged. */
  function Logged(s: Sys): Sys
    requires s.queue != [] && forall x <- s.queue :: x in s.timers
  {
    var t := s.queue[0];
    s.(queue := Without(s.queue, t),
       fired := s.fired + [Firing(t, s.now, s.timers[t].deadline, s.timers[t].linkedAt, s.timers[t].linkNo)])
  }

  /** Takes the head off the list and calls its timeout function. */
  function CallHead(s: Sys, cb: Callbacks): (r: Sys)
    requires s.queue != [] && forall x <- s.queue :: x in s.timers
    ensures forall x <- r.queue :: x in r.timers
    ensures r.timers.Keys == s.timers.Keys && r.now == s.now
  {
    ApplyAll(Logged(s), Commands(cb, s.queue[0]))
  }

  /** What the check does after the timeout function of t returned. */
  function Rearm(s: Sys, t: Id): (r: Sys)
    requires t in s.timers && forall x <- s.queue :: x in s.timers
    ensures forall x <- r.queue :: x in r.timers
    ensures r.timers.Keys == s.timers.Keys && r.now == s.now
  {
    var s' := s.(timers := s.timers[t := s.timers[t].(activated := false)]);
    if s.timers[t].periodic && s.timers[t].activated then StartNow(s', t) else s'
  }

  function FireHead(s: Sys, cb: Callbacks): (r: Sys)
    requires s.queue != [] && forall x <- s.queue :: x in s.timers
    ensures forall x <- r.queue :: x in r.timers
    ensures r.timers.Keys == s.timers.Keys && r.now == s.now
  {
    Rearm(CallHead(s, cb), s.queue[0])
  }

  function Due(s: Sys): set<Id>
    requires forall x <- s.queue :: x in s.timers
  {
    set t | t in s.queue && s.timers[t].deadline <= s.now
  }

  // ---------- invariants ----------

  /** A timer's own interval is in range and its deadline within half the tick range ahead. */
  predicate InRange(t: Timer, now: int, late: nat) {
    1 <= t.initTick < HALF_TICKS - late && t.deadline < now + HALF_TICKS - late
  }

  predicate TimersOk(s: Sys) {
    forall t <- s.timers :: InRange(s.timers[t], s.now, s.late)
  }

  /** The part of the invariant that also holds while a check is under way. */
  ghost predicate Core(s: Sys) {
    && Ordered(s.queue, s.timers) && TimersOk(s)
    && (forall t <- s.queue :: s.timers[t].linkNo < s.links && s.timers[t].linkedAt <= s.now)
  }

  /** Between operations nothing listed is overdue, except what was linked too late for the check of this tick. */
  ghost predicate Settled(s: Sys) {
    && Core(s)
    && forall t <- s.queue :: (s.now < s.timers[t].deadline || s.timers[t].linkedAt == s.now) && s.now <= s.timers[t].deadline + s.late
  }

  /** While a check is under way at most one tick has passed since the list was settled. */
  ghost predicate Checking(s: Sys) {
    && Core(s)
    && forall t <- s.queue ::
         && (s.now <= s.timers[t].deadline || s.timers[t].linkedAt == s.now - 1)
         && (s.timers[t].deadline <= s.now ==> s.timers[t].linkedAt < s.now)
         && s.now - 1 <= s.timers[t].deadline + s.late
  }

  function Max(a: int, b: int): int {
    if a < b then b else a
  }

  /** The deadline, or the tick after a link that did not come before it. */
  function DueTime(rec: Timer): int {
    Max(rec.deadline, rec.linkedAt + 1)
  }

  /** By the tick of the call, and within one tick by deadline, ties in link order. */
  predicate InCallOrder(f: Firing, g: Firing) {
    f.at < g.at || (f.at == g.at && Earlier(f.deadline, f.linkNo, g.deadline, g.linkNo))
  }

  /** Every call so far was made at its deadline, or at the first check after a late link; the whole history is
      in call order; and what was listed before this tick comes after the calls of this tick. */
  ghost predicate LogOk(s: Sys) {
    && (forall f <- s.fired :: f.at == Max(f.deadline, f.linkedAt + 1) && f.at <= s.now && f.linkNo < s.links)
    && (forall i, j | 0 <= i < j < |s.fired| :: InCallOrder(s.fired[i], s.fired[j]))
    && forall f, t | f in s.fired && f.at == s.now && t in s.queue && t in s.timers && s.timers[t].linkedAt < s.now ::
         Earlier(f.deadline, f.linkNo, s.timers[t].deadline, s.timers[t].linkNo)
  }

  // ---------- queue lemmas ----------

  lemma {:induction false} WithoutKeepsOrder(q: seq<Id>, t: Id, timers: map<Id, Timer>)
    requires Ordered(q, timers)
    ensures Ordered(Without(q, t), timers)
  {
    if q != [] {
      WithoutKeepsOrder(q[1..], t, timers);
      var r := Without(q, t);
      if q[0] != t {
        forall j | 0 < j < |r|
          ensures Earlier(timers[r[0]].deadline, timers[r[0]].linkNo, timers[r[j]].deadline, timers[r[j]].linkNo)
        {
          assert r[j] == Without(q[1..], t)[j - 1] && r[j] in q[1..];
        }
      }
    }
  }

  /** A timer's record may change while it is not listed. */
  lemma OrderedFrame(q: seq<Id>, timers: map<Id, Timer>, timers': map<Id, Timer>)
    requires Ordered(q, timers)
    requires forall t <- q :: t in timers' && timers'[t].deadline == timers[t].deadline && timers'[t].linkNo == timers[t].linkNo
    ensures Ordered(q, timers')
  {
  }

  lemma LaterBehindInsertPos(q: seq<Id>, timers: map<Id, Timer>, d: int)
    requires Ordered(q, timers)
    ensures forall i | InsertPos(q, timers, d) <= i < |q| :: timers[q[i]].deadline > d
  {
    var p := InsertPos(q, timers, d);
    forall i | p < i < |q|
      ensures timers[q[i]].deadline > d
    {
      assert Earlier(timers[q[p]].deadline, timers[q[p]].linkNo, timers[q[i]].deadline, timers[q[i]].linkNo);
    }
  }

  lemma SplicedIsOrdered(a: seq<Id>, t: Id, b: seq<Id>, timers: map<Id, Timer>)
    requires Ordered(a + b, timers) && t in timers
    requires forall x <- a :: Earlier(timers[x].deadline, timers[x].linkNo, timers[t].deadline, timers[t].linkNo)
    requires forall x <- b :: Earlier(timers[t].deadline, timers[t].linkNo, timers[x].deadline, timers[x].linkNo)
    ensures Ordered(a + [t] + b, timers)
  {
    var r, q := a + [t] + b, a + b;
    forall i, j | 0 <= i < j < |r|
      ensures Earlier(timers[r[i]].deadline, timers[r[i]].linkNo, timers[r[j]].deadline, timers[r[j]].linkNo)
    {
      var i', j' := if i < |a| then i else i - 1, if j < |a| then j else j - 1;
      if i != |a| && j != |a| {
        assert r[i] == q[i'] && r[j] == q[j'];
      }
    }
  }

  /** Inserting the newest link behind all entries that are no later keeps the order. */
  lemma InsertKeepsOrder(q: seq<Id>, timers: map<Id, Timer>, t: Id)
    requires Ordered(q, timers) && t in timers
    requires forall x <- q :: timers[x].linkNo < timers[t].linkNo
    ensures Ordered(InsertAt(q, InsertPos(q, timers, timers[t].deadline), t), timers)
  {
    var p := InsertPos(q, timers, timers[t].deadline);
    LaterBehindInsertPos(q, timers, timers[t].deadline);
    assert q[..p] + q[p..] == q;
    SplicedIsOrdered(q[..p], t, q[p..], timers);
  }

  // ---------- the invariant is kept by every operation ----------

  /** Settled or checking, with a correct history. */
  ghost predicate Inv(s: Sys, checking: bool) {
    (if checking then Checking(s) else Settled(s)) && LogOk(s)
  }

  lemma BeginKeepsInv(s: Sys, t: Id, checking: bool)
    requires Inv(s, checking) && t in s.timers
    ensures Inv(BeginStart(s, t), checking) && t !in BeginStart(s, t).queue
  {
    var r := BeginStart(s, t);
    WithoutKeepsOrder(s.queue, t, s.timers);
    OrderedFrame(r.queue, s.timers, r.timers);
  }

  /** r is s with t newly linked: what that needs to keep the invariant. */
  lemma AddedKeepsInv(s: Sys, r: Sys, t: Id, checking: bool)
    requires Inv(s, checking) && t in s.timers
    requires r == s.(timers := r.timers, queue := r.queue, links := s.links + 1)
    requires r.timers == s.timers[t := s.timers[t].(linkedAt := s.now, linkNo := s.links, activated := true)]
    requires (forall x <- r.queue :: x == t || x in s.queue) && Ordered(r.queue, r.timers)
    requires if checking then s.now < s.timers[t].deadline else s.now <= s.timers[t].deadline + s.late
    ensures Inv(r, checking)
  {
    assert Core(r);
  }

  /** Outside a check the link may come late; inside one, starts are atomic. */
  lemma LinkKeepsInv(s: Sys, t: Id, checking: bool)
    requires Inv(s, checking) && t in s.timers && t !in s.queue
    requires if checking then s.now < s.timers[t].deadline else s.now <= s.timers[t].deadline + s.late
    ensures Inv(LinkStart(s, t), checking)
  {
    LinkIsOrdered(s, t);
    AddedKeepsInv(s, LinkStart(s, t), t, checking);
  }

  lemma LinkIsOrdered(s: Sys, t: Id)
    requires Ordered(s.queue, s.timers) && t in s.timers && t !in s.queue
    requires forall x <- s.queue :: s.timers[x].linkNo < s.links
    ensures Ordered(LinkStart(s, t).queue, LinkStart(s, t).timers)
  {
    OrderedFrame(s.queue, s.timers, LinkStart(s, t).timers);
    InsertKeepsOrder(s.queue, LinkStart(s, t).timers, t);
  }

  lemma StartKeepsInv(s: Sys, t: Id, checking: bool)
    requires Inv(s, checking) && t in s.timers
    ensures Inv(StartNow(s, t), checking)
  {
    BeginKeepsInv(s, t, checking);
    LinkKeepsInv(BeginStart(s, t), t, checking);
  }

  lemma UnlistKeepsInv(s: Sys, t: Id, checking: bool)
    requires Inv(s, checking) && t in s.timers
    ensures Inv(Unlist(s, t), checking)
  {
    WithoutKeepsOrder(s.queue, t, s.timers);
  }

  lemma ClearFlagKeepsInv(s: Sys, t: Id, checking: bool)
    requires Inv(s, checking) && t in s.timers
    ensures Inv(ClearFlag(s, t), checking)
  {
    OrderedFrame(s.queue, s.timers, ClearFlag(s, t).timers);
  }

  lemma StopKeepsInv(s: Sys, t: Id, checking: bool)
    requires Inv(s, checking) && t in s.timers
    ensures Inv(StopTimer(s, t), checking)
  {
    UnlistKeepsInv(s, t, checking);
    ClearFlagKeepsInv(Unlist(s, t), t, checking);
  }

  lemma ApplyKeepsInv(s: Sys, c: Command, checking: bool)
    requires Inv(s, checking)
    ensures Inv(Apply(s, c), checking)
  {
    if c.id in s.timers {
      match c
      case Start(t) => StartKeepsInv(s, t, checking);
      case Stop(t) => StopKeepsInv(s, t, checking);
      case SetTime(t, d) => OrderedFrame(s.queue, s.timers, Apply(s, c).timers);
      case SetPeriodic(t, on) => OrderedFrame(s.queue, s.timers, Apply(s, c).timers);
    }
  }

  lemma {:induction false} ApplyAllKeepsInv(s: Sys, cs: seq<Command>)
    requires Inv(s, true)
    ensures Inv(ApplyAll(s, cs), true)
    decreases |cs|
  {
    if cs != [] {
      ApplyKeepsInv(s, cs[0], true);
      ApplyAllKeepsInv(Apply(s, cs[0]), cs[1..]);
    }
  }

  /** The call is logged at its deadline, or one tick after a link that did not come before it. */
  lemma LoggedKeepsInv(s: Sys)
    requires Inv(s, true) && s.queue != [] && s.timers[s.queue[0]].deadline <= s.now
    ensures Inv(Logged(s), true)
  {
    var t, s1 := s.queue[0], Logged(s);
    var log := s1.fired[|s.fired|];
    assert t in s.queue;
    WithoutKeepsOrder(s.queue, t, s.timers);
    forall x | x in s1.queue
      ensures Earlier(log.deadline, log.linkNo, s.timers[x].deadline, s.timers[x].linkNo)
    {
      var i :| 0 <= i < |s.queue| && s.queue[i] == x;
    }
    assert forall f <- s.fired :: InCallOrder(f, log);
  }

  lemma CallHeadKeepsInv(s: Sys, cb: Callbacks)
    requires Inv(s, true) && s.queue != [] && s.timers[s.queue[0]].deadline <= s.now
    ensures Inv(CallHead(s, cb), true)
  {
    LoggedKeepsInv(s);
    ApplyAllKeepsInv(Logged(s), Commands(cb, s.queue[0]));
  }

  lemma FireHeadKeepsInv(s: Sys, cb: Callbacks)
    requires Inv(s, true) && s.queue != [] && s.timers[s.queue[0]].deadline <= s.now
    ensures Inv(FireHead(s, cb), true)
  {
    var t, s1 := s.queue[0], CallHead(s, cb);
    CallHeadKeepsInv(s, cb);
    var s2 := s1.(timers := s1.timers[t := s1.timers[t].(activated := false)]);
    OrderedFrame(s1.queue, s1.timers, s2.timers);
    assert Inv(s2, true);
    if s1.timers[t].periodic && s1.timers[t].activated {
      StartKeepsInv(s2, t, true);
    }
  }

  // ---------- the check loop ----------

  lemma StartDue(s: Sys, t: Id, checking: bool)
    requires Inv(s, checking) && t in s.timers
    ensures Due(StartNow(s, t)) == Due(s) - {t}
  {
    StartKeepsInv(s, t, checking);
  }

  lemma {:induction false} ApplyAllDue(s: Sys, cs: seq<Command>)
    requires Inv(s, true)
    ensures Due(ApplyAll(s, cs)) <= Due(s)
    decreases |cs|
  {
    if cs != [] {
      var c := cs[0];
      ApplyKeepsInv(s, c, true);
      if c.Start? && c.id in s.timers {
        StartDue(s, c.id, true);
      }
      assert Due(Apply(s, c)) <= Due(s);
      ApplyAllDue(Apply(s, c), cs[1..]);
    }
  }

  lemma CallHeadDue(s: Sys, cb: Callbacks)
    requires Inv(s, true) && s.queue != [] && s.timers[s.queue[0]].deadline <= s.now
    ensures Due(CallHead(s, cb)) <= Due(s) - {s.queue[0]}
  {
    var t := s.queue[0];
    LoggedKeepsInv(s);
    ApplyAllDue(Logged(s), Commands(cb, t));
    assert Due(Logged(s)) == Due(s) - {t};
  }

  lemma RearmDue(s: Sys, t: Id)
    requires Inv(s, true) && t in s.timers
    ensures Due(Rearm(s, t)) <= Due(s)
  {
    var s' := s.(timers := s.timers[t := s.timers[t].(activated := false)]);
    assert Due(s') == Due(s);
    if s.timers[t].periodic && s.timers[t].activated {
      OrderedFrame(s.queue, s.timers, s'.timers);
      StartDue(s', t, true);
    }
  }

  /** Each call leaves strictly fewer due timers, whatever the timeout function starts. */
  lemma FireHeadDue(s: Sys, cb: Callbacks)
    requires Inv(s, true) && s.queue != [] && s.timers[s.queue[0]].deadline <= s.now
    ensures Due(FireHead(s, cb)) < Due(s)
  {
    CallHeadKeepsInv(s, cb);
    CallHeadDue(s, cb);
    RearmDue(CallHead(s, cb), s.queue[0]);
    assert s.queue[0] in Due(s);
  }

  /** The loop of the check: call the head while it is due. */
  function Check(s: Sys, cb: Callbacks): (r: Sys)
    requires Inv(s, true)
    ensures Inv(r, false)
    ensures r.now == s.now && r.timers.Keys == s.timers.Keys
    ensures forall t <- r.queue :: r.now < r.timers[t].deadline
    decreases Due(s)
  {
    if s.queue != [] && s.timers[s.queue[0]].deadline <= s.now then
      FireHeadKeepsInv(s, cb);
      FireHeadDue(s, cb);
      Check(FireHead(s, cb), cb)
    else
      NothingDue(s);
      s
  }

  lemma NothingDue(s: Sys)
    requires Core(s) && (s.queue == [] || s.timers[s.queue[0]].deadline > s.now)
    ensures forall t <- s.queue :: s.now < s.timers[t].deadline
  {
    forall t | t in s.queue
      ensures s.now < s.timers[t].deadline
    {
      var i :| 0 <= i < |s.queue| && s.queue[i] == t;
      if i > 0 {
        assert Earlier(s.timers[s.queue[0]].deadline, s.timers[s.queue[0]].linkNo, s.timers[t].deadline, s.timers[t].linkNo);
      }
    }
  }

  /** One tick interrupt. */
  function TickInterrupt(s: Sys, cb: Callbacks): (r: Sys)
    requires Inv(s, false)
    ensures Inv(r, false)
    ensures r.now == s.now + 1 && r.timers.Keys == s.timers.Keys
    ensures forall t <- r.queue :: r.now < r.timers[t].deadline
  {
    Check(s.(now := s.now + 1), cb)
  }

  // ---------- runs ----------

  /** A start called from a thread is two events, and so is a stop, so ticks and other calls may come in between. */
  datatype Event = Begin(id: Id) | Link(id: Id) | Remove(id: Id) | Unflag(id: Id) | Call(c: Command) | TickEvent

  /** A link comes at most late ticks after its deadline, and of a timer that nobody has linked in between:
      RtList.InsertIsSafeIff says what the second link of a listed node does. */
  predicate Enabled(s: Sys, e: Event) {
    match e
    case Begin(t) => t in s.timers
    case Link(t) => t in s.timers && t !in s.queue && s.now <= s.timers[t].deadline + s.late
    case Remove(t) => t in s.timers
    case Unflag(t) => t in s.timers
    case Call(_) => true
    case TickEvent => true
  }

  function Step(s: Sys, e: Event, cb: Callbacks): (r: Sys)
    requires Inv(s, false) && Enabled(s, e)
    ensures Inv(r, false)
  {
    match e
    case Begin(t) => BeginKeepsInv(s, t, false); BeginStart(s, t)
    case Link(t) => LinkKeepsInv(s, t, false); LinkStart(s, t)
    case Remove(t) => UnlistKeepsInv(s, t, false); Unlist(s, t)
    case Unflag(t) => ClearFlagKeepsInv(s, t, false); ClearFlag(s, t)
    case Call(c) => ApplyKeepsInv(s, c, false); Apply(s, c)
    case TickEvent => TickInterrupt(s, cb)
  }

  ghost predicate Runs(s: Sys, es: seq<Event>, cb: Callbacks)
    requires Inv(s, false)
    decreases |es|
  {
    es != [] ==> Enabled(s, es[0]) && Runs(Step(s, es[0], cb), es[1..], cb)
  }

  function Run(s: Sys, es: seq<Event>, cb: Callbacks): (r: Sys)
    requires Inv(s, false) && Runs(s, es, cb)
    ensures Inv(r, false)
    decreases |es|
  {
    if es == [] then s else Run(Step(s, es[0], cb), es[1..], cb)
  }

  /** Over every run from an empty list, every call was made exactly at its deadline, or, if the timer was not linked
      before its deadline, at the tick after the link, however late; and the calls of the whole run are in order of
      the ticks they were made at, within one tick in deadline order, with ties in link order. */
  lemma FiringsAreOnTime(s: Sys, es: seq<Event>, cb: Callbacks)
    requires s.queue == [] && s.fired == [] && TimersOk(s) && Runs(s, es, cb)
    ensures var log := Run(s, es, cb).fired;
            && (forall f <- log :: f.at == if f.linkedAt < f.deadline then f.deadline else f.linkedAt + 1)
            && (forall i, j | 0 <= i < j < |log| :: InCallOrder(log[i], log[j]))
  {
    var r := Run(s, es, cb);
    assert LogOk(r);
  }

  /** A run is an event and a run. */
  lemma OneMoreEvent(s: Sys, e: Event, es: seq<Event>, cb: Callbacks)
    requires Inv(s, false) && Enabled(s, e) && Runs(Step(s, e, cb), es, cb)
    ensures Runs(s, [e] + es, cb) && Run(s, [e] + es, cb) == Run(Step(s, e, cb), es, cb)
  {
    assert ([e] + es)[1..] == es;
  }

  lemma EmptyRun(s: Sys, cb: Callbacks)
    requires Inv(s, false)
    ensures Runs(s, [], cb) && Run(s, [], cb) == s
  {
  }

  /** Two starts of one timer, the second one complete between the sections of the first: the first one finds the
      timer listed when it comes to link it. */
  lemma CrossedStartsLinkTwice(s: Sys, cb: Callbacks, t: Id)
    requires Inv(s, false) && t in s.timers
    ensures var es := [Begin(t)] + ([Begin(t)] + ([Link(t)] + []));
            Runs(s, es, cb) && t in Run(s, es, cb).queue && !Enabled(Run(s, es, cb), Link(t))
  {
    var s1 := Step(s, Begin(t), cb);
    var s2 := Step(s1, Begin(t), cb);
    assert t !in s2.queue;
    assert s2.now <= s2.timers[t].deadline by { assert InRange(s1.timers[t], s.now, s.late); }
    var s3 := Step(s2, Link(t), cb);
    assert s3.queue[InsertPos(s2.queue, s3.timers, s3.timers[t].deadline)] == t;
    EmptyRun(s3, cb);
    hide Inv;
    OneMoreEvent(s2, Link(t), [], cb);
    OneMoreEvent(s1, Begin(t), [Link(t)] + [], cb);
    OneMoreEvent(s, Begin(t), [Begin(t)] + ([Link(t)] + []), cb);
  }

  /** A timer linked late, between two ticks and with nothing else listed: the next check calls it, and not in time. */
  lemma LateLinkIsCalledLate(s: Sys, cb: Callbacks, t: Id)
    requires Inv(s, false) && t in s.timers && s.queue == [] && t !in cb
    requires s.timers[t].deadline <= s.now <= s.timers[t].deadline + s.late
    ensures var es := [Link(t)] + ([TickEvent] + []);
            && Runs(s, es, cb)
            && Run(s, es, cb).fired == s.fired + [Firing(t, s.now + 1, s.timers[t].deadline, s.now, s.links)]
  {
    hide Settled, LogOk;
    var u := Step(s, Link(t), cb);
    assert u.queue == [t];
    LateTickCalls(u, cb, t);
    var v := Step(u, TickEvent, cb);
    EmptyRun(v, cb);
    OneMoreEvent(u, TickEvent, [], cb);
    OneMoreEvent(s, Link(t), [TickEvent] + [], cb);
  }

  /** A tick at which the only timer listed is due calls it and no other. */
  lemma LateTickCalls(u: Sys, cb: Callbacks, t: Id)
    requires Inv(u, false) && u.queue == [t] && u.timers[t].deadline <= u.now + 1 && t !in cb
    ensures var v := u.(now := u.now + 1);
            && TickInterrupt(u, cb) == FireHead(v, cb)
            && FireHead(v, cb).fired == u.fired + [Firing(t, v.now, u.timers[t].deadline, u.timers[t].linkedAt, u.timers[t].linkNo)]
  {
    var v := u.(now := u.now + 1);
    FireHeadKeepsInv(v, cb);
    FireHeadDue(v, cb);
    LoneHeadCalled(v, cb, t);
    assert Check(v, cb) == Check(FireHead(v, cb), cb);
  }

  /** The only timer listed is called once; if it is periodic it is linked again, for later. */
  lemma LoneHeadCalled(v: Sys, cb: Callbacks, t: Id)
    requires Inv(v, true) && v.queue == [t] && v.timers[t].deadline <= v.now && t !in cb && Inv(FireHead(v, cb), true)
    ensures var w := FireHead(v, cb);
            && w.fired == v.fired + [Firing(t, v.now, v.timers[t].deadline, v.timers[t].linkedAt, v.timers[t].linkNo)]
            && Check(w, cb) == w
  {
    var w := FireHead(v, cb);
    assert Logged(v).queue == [];
    assert CallHead(v, cb) == Logged(v);
    assert t in w.timers && InRange(w.timers[t], w.now, w.late);
    assert w.queue == [] || (w.queue == [t] && w.now < w.timers[t].deadline);
  }

  // ---------- every linked timer fires ----------

  predicate Names(e: Event, t: Id) {
    match e
    case Begin(x) => x == t
    case Link(x) => x == t
    case Remove(x) => x == t
    case Unflag(x) => x == t
    case Call(c) => c.id == t
    case TickEvent => false
  }

  /** No event of the run names t. */
  predicate LeftAlone(t: Id, es: seq<Event>) {
    forall e <- es :: !Names(e, t)
  }

  /** No timeout function names t, except possibly that of t itself. */
  predicate OthersLeaveAlone(t: Id, cb: Callbacks) {
    forall x <- cb, c <- cb[x] :: x != t ==> c.id != t
  }

  ghost predicate Linked(s: Sys, t: Id, rec: Timer) {
    t in s.queue && t in s.timers && s.timers[t] == rec
  }

  function FiringOf(t: Id, rec: Timer): Firing {
    Firing(t, DueTime(rec), rec.deadline, rec.linkedAt, rec.linkNo)
  }

  ghost predicate LinkedOrFired(s: Sys, t: Id, rec: Timer) {
    Linked(s, t, rec) || FiringOf(t, rec) in s.fired
  }

  lemma {:induction false} ApplyAllOthers(s: Sys, cs: seq<Command>, t: Id)
    requires forall x <- s.queue :: x in s.timers
    requires t in s.timers && forall c <- cs :: c.id != t
    ensures var r := ApplyAll(s, cs); (t in r.queue <==> t in s.queue) && r.timers[t] == s.timers[t]
    decreases |cs|
  {
    if cs != [] {
      ApplyAllOthers(Apply(s, cs[0]), cs[1..], t);
    }
  }

  lemma FireHeadTracks(s: Sys, cb: Callbacks, t: Id, rec: Timer)
    requires Inv(s, true) && s.queue != [] && s.timers[s.queue[0]].deadline <= s.now
    requires LinkedOrFired(s, t, rec) && OthersLeaveAlone(t, cb)
    ensures LinkedOrFired(FireHead(s, cb), t, rec)
  {
    var h := s.queue[0];
    if Linked(s, t, rec) {
      if h == t {
        LoggedKeepsInv(s);
        assert Logged(s).fired[|s.fired|] == FiringOf(t, rec);
      } else {
        ApplyAllOthers(Logged(s), Commands(cb, h), t);
      }
    }
  }

  lemma {:induction false} CheckTracks(s: Sys, cb: Callbacks, t: Id, rec: Timer)
    requires Inv(s, true) && LinkedOrFired(s, t, rec) && OthersLeaveAlone(t, cb)
    ensures LinkedOrFired(Check(s, cb), t, rec)
    decreases Due(s)
  {
    if s.queue != [] && s.timers[s.queue[0]].deadline <= s.now {
      FireHeadTracks(s, cb, t, rec);
      FireHeadKeepsInv(s, cb);
      FireHeadDue(s, cb);
      CheckTracks(FireHead(s, cb), cb, t, rec);
    }
  }

  lemma StepTracks(s: Sys, e: Event, cb: Callbacks, t: Id, rec: Timer)
    requires Inv(s, false) && Enabled(s, e) && !Names(e, t)
    requires LinkedOrFired(s, t, rec) && OthersLeaveAlone(t, cb)
    ensures LinkedOrFired(Step(s, e, cb), t, rec)
  {
    if e.TickEvent? {
      CheckTracks(s.(now := s.now + 1), cb, t, rec);
    }
  }

  lemma {:induction false} RunTracks(s: Sys, es: seq<Event>, cb: Callbacks, t: Id, rec: Timer)
    requires Inv(s, false) && Runs(s, es, cb)
    requires LinkedOrFired(s, t, rec) && LeftAlone(t, es) && OthersLeaveAlone(t, cb)
    ensures LinkedOrFired(Run(s, es, cb), t, rec)
    decreases |es|
  {
    if es != [] {
      assert es[0] in es && LeftAlone(t, es[1..]);
      StepTracks(s, es[0], cb, t, rec);
      RunTracks(Step(s, es[0], cb), es[1..], cb, t, rec);
    }
  }

  /** A linked timer that nobody stops or restarts stays linked until its deadline, or until the
      tick after a link that did not come before it, and is called at exactly that tick. */
  lemma LinkedTimerFires(s: Sys, es: seq<Event>, cb: Callbacks, t: Id)
    requires Inv(s, false) && Runs(s, es, cb) && t in s.queue
    requires LeftAlone(t, es) && OthersLeaveAlone(t, cb)
    ensures var r, rec := Run(s, es, cb), s.timers[t];
            var due := if rec.linkedAt < rec.deadline then rec.deadline else rec.linkedAt + 1;
            && (r.now < due ==> t in r.queue && r.timers[t] == rec)
            && (due <= r.now ==> Firing(t, due, rec.deadline, rec.linkedAt, rec.linkNo) in r.fired)
  {
    RunTracks(s, es, cb, t, s.timers[t]);
  }

  // ---------- stopped and one-shot timers ----------

  /** The times at which t was called, in order. */
  function Calls(log: seq<Firing>, t: Id): seq<int> {
    if log == [] then []
    else
      var rest, f := Calls(log[..|log| - 1], t), log[|log| - 1];
      if f.id == t then rest + [f.at] else rest
  }

  /** No timeout function names t, its own included. */
  predicate NoneNames(t: Id, cb: Callbacks) {
    forall x <- cb, c <- cb[x] :: c.id != t
  }

  lemma CallsAppend(log: seq<Firing>, f: Firing, t: Id)
    ensures Calls(log + [f], t) == if f.id == t then Calls(log, t) + [f.at] else Calls(log, t)
  {
    assert (log + [f])[..|log|] == log;
  }

  /** t is not linked and was called at exactly these times. */
  ghost predicate Gone(s: Sys, t: Id, times: seq<int>) {
    t in s.timers && t !in s.queue && Calls(s.fired, t) == times
  }

  /** t is linked as recorded and was called at exactly these times, or it was called once more, when due. */
  ghost predicate OnceMore(s: Sys, t: Id, rec: Timer, times: seq<int>) {
    || (Linked(s, t, rec) && Calls(s.fired, t) == times)
    || Gone(s, t, times + [DueTime(rec)])
  }

  lemma FireHeadGone(s: Sys, cb: Callbacks, t: Id, times: seq<int>)
    requires s.queue != [] && (forall x <- s.queue :: x in s.timers)
    requires Gone(s, t, times) && OthersLeaveAlone(t, cb)
    ensures Gone(FireHead(s, cb), t, times)
  {
    CallsAppend(s.fired, Logged(s).fired[|s.fired|], t);
    ApplyAllOthers(Logged(s), Commands(cb, s.queue[0]), t);
  }

  lemma FireHeadOnce(s: Sys, cb: Callbacks, t: Id, rec: Timer, times: seq<int>)
    requires Inv(s, true) && s.queue != [] && s.timers[s.queue[0]].deadline <= s.now
    requires OnceMore(s, t, rec, times) && NoneNames(t, cb) && !rec.periodic
    ensures OnceMore(FireHead(s, cb), t, rec, times)
  {
    hide Calls, ApplyAll;
    if Gone(s, t, times + [DueTime(rec)]) {
      FireHeadGone(s, cb, t, times + [DueTime(rec)]);
    } else {
      CallsAppend(s.fired, Logged(s).fired[|s.fired|], t);
      ApplyAllOthers(Logged(s), Commands(cb, s.queue[0]), t);
      LoggedKeepsInv(s);
      assert Logged(s).fired[|s.fired|] in Logged(s).fired;
    }
  }

  lemma {:induction false} CheckGone(s: Sys, cb: Callbacks, t: Id, times: seq<int>)
    requires Inv(s, true) && Gone(s, t, times) && OthersLeaveAlone(t, cb)
    ensures Gone(Check(s, cb), t, times)
    decreases Due(s)
  {
    if s.queue != [] && s.timers[s.queue[0]].deadline <= s.now {
      FireHeadGone(s, cb, t, times);
      FireHeadKeepsInv(s, cb);
      FireHeadDue(s, cb);
      CheckGone(FireHead(s, cb), cb, t, times);
    }
  }

  lemma {:induction false} CheckOnce(s: Sys, cb: Callbacks, t: Id, rec: Timer, times: seq<int>)
    requires Inv(s, true) && OnceMore(s, t, rec, times) && NoneNames(t, cb) && !rec.periodic
    ensures OnceMore(Check(s, cb), t, rec, times)
    decreases Due(s)
  {
    if s.queue != [] && s.timers[s.queue[0]].deadline <= s.now {
      FireHeadOnce(s, cb, t, rec, times);
      FireHeadKeepsInv(s, cb);
      FireHeadDue(s, cb);
      CheckOnce(FireHead(s, cb), cb, t, rec, times);
    }
  }

  lemma StepGone(s: Sys, e: Event, cb: Callbacks, t: Id, times: seq<int>)
    requires Inv(s, false) && Enabled(s, e) && !Names(e, t) && Gone(s, t, times) && OthersLeaveAlone(t, cb)
    ensures Gone(Step(s, e, cb), t, times)
  {
    if e.TickEvent? {
      CheckGone(s.(now := s.now + 1), cb, t, times);
    }
  }

  lemma StepOnce(s: Sys, e: Event, cb: Callbacks, t: Id, rec: Timer, times: seq<int>)
    requires Inv(s, false) && Enabled(s, e) && !Names(e, t) && NoneNames(t, cb) && !rec.periodic
    requires OnceMore(s, t, rec, times)
    ensures OnceMore(Step(s, e, cb), t, rec, times)
  {
    if e.TickEvent? {
      CheckOnce(s.(now := s.now + 1), cb, t, rec, times);
    }
  }

  lemma {:induction false} RunGone(s: Sys, es: seq<Event>, cb: Callbacks, t: Id, times: seq<int>)
    requires Inv(s, false) && Runs(s, es, cb) && Gone(s, t, times) && LeftAlone(t, es) && OthersLeaveAlone(t, cb)
    ensures Gone(Run(s, es, cb), t, times)
    decreases |es|
  {
    if es != [] {
      assert es[0] in es && LeftAlone(t, es[1..]);
      StepGone(s, es[0], cb, t, times);
      RunGone(Step(s, es[0], cb), es[1..], cb, t, times);
    }
  }

  lemma {:induction false} RunOnce(s: Sys, es: seq<Event>, cb: Callbacks, t: Id, rec: Timer, times: seq<int>)
    requires Inv(s, false) && Runs(s, es, cb) && OnceMore(s, t, rec, times) && !rec.periodic
    requires LeftAlone(t, es) && NoneNames(t, cb)
    ensures OnceMore(Run(s, es, cb), t, rec, times)
    decreases |es|
  {
    if es != [] {
      assert es[0] in es && LeftAlone(t, es[1..]);
      StepOnce(s, es[0], cb, t, rec, times);
      RunOnce(Step(s, es[0], cb), es[1..], cb, t, rec, times);
    }
  }

  /** A timer that is stopped while its flag says it is activated is not called again until somebody
      starts it again, whatever else happens. */
  lemma StoppedTimerIsSilent(s: Sys, es: seq<Event>, cb: Callbacks, t: Id)
    requires Inv(s, false) && t in s.timers && s.timers[t].activated
    requires Inv(StopTimer(s, t), false) && Runs(StopTimer(s, t), es, cb) && LeftAlone(t, es) && OthersLeaveAlone(t, cb)
    ensures var r := Run(StopTimer(s, t), es, cb); t !in r.queue && Calls(r.fired, t) == Calls(s.fired, t)
  {
    RunGone(StopTimer(s, t), es, cb, t, Calls(s.fired, t));
  }

  /** A linked one-shot timer that nobody stops or restarts is called exactly once, when it is due, and is
      unlinked from then on. */
  lemma OneShotFiresOnce(s: Sys, es: seq<Event>, cb: Callbacks, t: Id)
    requires Inv(s, false) && Runs(s, es, cb) && LeftAlone(t, es) && NoneNames(t, cb)
    requires t in s.queue && !s.timers[t].periodic
    ensures var r, due := Run(s, es, cb), DueTime(s.timers[t]);
            && Calls(r.fired, t) == Calls(s.fired, t) + (if due <= r.now then [due] else [])
            && (t in r.queue <==> r.now < due)
  {
    assert t in s.timers;
    hide Inv, Gone;
    var r, rec, times := Run(s, es, cb), s.timers[t], Calls(s.fired, t);
    assert OnceMore(r, t, rec, times) by {
      RunOnce(s, es, cb, t, rec, times);
    }
    assert LinkedOrFired(r, t, rec) by {
      RunTracks(s, es, cb, t, rec);
    }
    CalledWhenDue(r, t, rec, times);
  }

  lemma CalledWhenDue(r: Sys, t: Id, rec: Timer, times: seq<int>)
    requires Inv(r, false) && OnceMore(r, t, rec, times) && LinkedOrFired(r, t, rec)
    ensures Calls(r.fired, t) == times + (if DueTime(rec) <= r.now then [DueTime(rec)] else [])
    ensures t in r.queue <==> r.now < DueTime(rec)
  {
  }

  // ---------- periodic timers ----------

  /** The times first, first + period, first + 2 period, ... up to but excluding next. */
  predicate Periods(times: seq<int>, first: int, period: int, next: int) {
    && (if times == [] then next == first else times[0] == first && next == times[|times| - 1] + period)
    && forall i | 0 < i < |times| :: times[i] == times[i - 1] + period
  }

  /** t is linked for its next period, and was called once in each period before. */
  ghost predicate Periodic(s: Sys, t: Id, first: int, period: int, n: nat) {
    && t in s.queue && t in s.timers && n <= |s.fired|
    && s.timers[t].periodic && s.timers[t].activated && s.timers[t].initTick == period
    && Periods(Calls(s.fired[n..], t), first, period, DueTime(s.timers[t]))
  }

  /** What one call leaves of a periodic timer that no timeout function names. */
  lemma FireHeadRecord(s: Sys, cb: Callbacks, t: Id)
    requires s.queue != [] && forall x <- s.queue :: x in s.timers
    requires t in s.queue && s.timers[t].periodic && s.timers[t].activated && NoneNames(t, cb)
    ensures var r, h, rec := FireHead(s, cb), s.queue[0], s.timers[t];
            && r.fired == s.fired + [Firing(h, s.now, s.timers[h].deadline, s.timers[h].linkedAt, s.timers[h].linkNo)]
            && t in r.queue && t in r.timers && r.timers[t].periodic && r.timers[t].activated && r.timers[t].initTick == rec.initTick
            && r.timers[t].deadline == (if h == t then s.now + rec.initTick else rec.deadline)
            && r.timers[t].linkedAt == (if h == t then s.now else rec.linkedAt)
  {
    ApplyAllOthers(Logged(s), Commands(cb, s.queue[0]), t);
  }

  lemma PeriodStep(s: Sys, r: Sys, f: Firing, t: Id, first: int, period: int, n: nat)
    requires Periodic(s, t, first, period, n) && r.fired == s.fired + [f]
    requires t in r.queue && t in r.timers && r.timers[t].periodic && r.timers[t].activated && r.timers[t].initTick == period
    requires DueTime(r.timers[t]) == if f.id == t then DueTime(s.timers[t]) + period else DueTime(s.timers[t])
    requires f.id == t ==> f.at == DueTime(s.timers[t])
    ensures Periodic(r, t, first, period, n)
  {
    assert r.fired[n..] == s.fired[n..] + [f];
    CallsAppend(s.fired[n..], f, t);
  }

  lemma HeadIsOnTime(s: Sys)
    requires Checking(s) && s.queue != [] && s.timers[s.queue[0]].deadline <= s.now
    ensures DueTime(s.timers[s.queue[0]]) == s.now
  {
    assert s.queue[0] in s.queue;
  }

  lemma FireHeadPeriod(s: Sys, cb: Callbacks, t: Id, first: int, period: int, n: nat)
    requires Inv(s, true) && s.queue != [] && s.timers[s.queue[0]].deadline <= s.now
    requires Periodic(s, t, first, period, n) && NoneNames(t, cb)
    ensures Periodic(FireHead(s, cb), t, first, period, n)
  {
    FireHeadRecord(s, cb, t);
    var r, h := FireHead(s, cb), s.queue[0];
    if h == t {
      HeadIsOnTime(s);
    }
    assert 1 <= period by { assert InRange(s.timers[t], s.now, s.late); }
    PeriodStep(s, r, Firing(h, s.now, s.timers[h].deadline, s.timers[h].linkedAt, s.timers[h].linkNo), t, first, period, n);
  }

  lemma {:induction false} CheckPeriod(s: Sys, cb: Callbacks, t: Id, first: int, period: int, n: nat)
    requires Inv(s, true) && Periodic(s, t, first, period, n) && NoneNames(t, cb)
    ensures Periodic(Check(s, cb), t, first, period, n)
    decreases Due(s)
  {
    if s.queue != [] && s.timers[s.queue[0]].deadline <= s.now {
      FireHeadPeriod(s, cb, t, first, period, n);
      FireHeadKeepsInv(s, cb);
      FireHeadDue(s, cb);
      CheckPeriod(FireHead(s, cb), cb, t, first, period, n);
    }
  }

  lemma StepPeriod(s: Sys, e: Event, cb: Callbacks, t: Id, first: int, period: int, n: nat)
    requires Inv(s, false) && Enabled(s, e) && !Names(e, t) && NoneNames(t, cb)
    requires Periodic(s, t, first, period, n)
    ensures Periodic(Step(s, e, cb), t, first, period, n)
  {
    if e.TickEvent? {
      CheckPeriod(s.(now := s.now + 1), cb, t, first, period, n);
    } else {
      var r := Step(s, e, cb);
      assert r.fired == s.fired && t in r.queue && r.timers[t] == s.timers[t];
    }
  }

  lemma {:induction false} RunPeriod(s: Sys, es: seq<Event>, cb: Callbacks, t: Id, first: int, period: int, n: nat)
    requires Inv(s, false) && Runs(s, es, cb) && LeftAlone(t, es) && NoneNames(t, cb)
    requires Periodic(s, t, first, period, n)
    ensures Periodic(Run(s, es, cb), t, first, period, n)
    decreases |es|
  {
    if es != [] {
      assert es[0] in es && LeftAlone(t, es[1..]);
      StepPeriod(s, es[0], cb, t, first, period, n);
      RunPeriod(Step(s, es[0], cb), es[1..], cb, t, first, period, n);
    }
  }

  /** However long the run, a periodic timer that is left alone is called first when it is due,
      then every period ticks, at no other time, and has missed no period up to now. */
  lemma PeriodicTimerFires(s: Sys, es: seq<Event>, cb: Callbacks, t: Id)
    requires Inv(s, false) && Runs(s, es, cb) && LeftAlone(t, es) && NoneNames(t, cb)
    requires t in s.queue && s.timers[t].periodic && s.timers[t].activated
    ensures var r := Run(s, es, cb);
            && |s.fired| <= |r.fired|
            && var times, first, period := Calls(r.fired[|s.fired|..], t), DueTime(s.timers[t]), s.timers[t].initTick;
            && (times == [] ==> r.now < first)
            && (times != [] ==> times[0] == first && times[|times| - 1] <= r.now < times[|times| - 1] + period)
            && forall i | 0 < i < |times| :: times[i] == times[i - 1] + period
  {
    RunPeriod(s, es, cb, t, DueTime(s.timers[t]), s.timers[t].initTick, |s.fired|);
    var r := Run(s, es, cb);
    var log := r.fired[|s.fired|..];
    LastCallIsLogged(log, t);
    forall f <- log
      ensures f.at <= r.now
    {
      assert f in r.fired;
    }
  }

  lemma {:induction false} LastCallIsLogged(log: seq<Firing>, t: Id)
    ensures Calls(log, t) != [] ==> exists f <- log :: f.at == Calls(log, t)[|Calls(log, t)| - 1]
  {
    if log != [] {
      var f := log[|log| - 1];
      LastCallIsLogged(log[..|log| - 1], t);
      assert f in log;
    }
  }

  // ---------- the ACTIVATED flag ----------

  /** The flag says whether a timer is linked, for every timer but possibly t. */
  ghost predicate FlagsAgreeExcept(s: Sys, t: Id) {
    forall x <- s.timers | x != t :: s.timers[x].activated <==> x in s.queue
  }

  ghost predicate FlagsAgree(s: Sys) {
    forall x <- s.timers :: s.timers[x].activated <==> x in s.queue
  }

  /** Whether these commands leave t linked, when it was or was not before. */
  function LeaveLinked(cs: seq<Command>, t: Id, linked: bool): bool {
    if cs == [] then linked
    else LeaveLinked(cs[1..], t, if cs[0] == Start(t) then true else if cs[0] == Stop(t) then false else linked)
  }

  /** Whether they leave it periodic. */
  function LeavePeriodic(cs: seq<Command>, t: Id, periodic: bool): bool {
    if cs == [] then periodic
    else LeavePeriodic(cs[1..], t, if cs[0].SetPeriodic? && cs[0].id == t then cs[0].on else periodic)
  }

  lemma {:induction false} ApplyAllFlags(s: Sys, cs: seq<Command>, t: Id)
    requires forall x <- s.queue :: x in s.timers
    requires FlagsAgreeExcept(s, t) && t in s.timers && (t in s.queue ==> s.timers[t].activated)
    ensures var r := ApplyAll(s, cs); FlagsAgreeExcept(r, t) && (t in r.queue ==> r.timers[t].activated)
    ensures var r := ApplyAll(s, cs);
            (t in r.queue <==> LeaveLinked(cs, t, t in s.queue)) && r.timers[t].periodic == LeavePeriodic(cs, t, s.timers[t].periodic)
    decreases |cs|
  {
    if cs != [] {
      ApplyFlags(s, cs[0], t);
      ApplyAllFlags(Apply(s, cs[0]), cs[1..], t);
    }
  }

  lemma ApplyFlags(s: Sys, c: Command, t: Id)
    requires forall x <- s.queue :: x in s.timers
    requires FlagsAgreeExcept(s, t) && t in s.timers && (t in s.queue ==> s.timers[t].activated)
    ensures var r := Apply(s, c);
            && FlagsAgreeExcept(r, t) && (t in r.queue ==> r.timers[t].activated)
            && (t in r.queue <==> (if c == Start(t) then true else if c == Stop(t) then false else t in s.queue))
            && r.timers[t].periodic == (if c.SetPeriodic? && c.id == t then c.on else s.timers[t].periodic)
  {
    var r := Apply(s, c);
    if c == Start(t) {
      var p := InsertPos(BeginStart(s, t).queue, r.timers, r.timers[t].deadline);
    }
  }

  /** The flags survive a call if and only if the commands of the timeout function do not leave its own timer
      linked as a one-shot timer: the check clears its flag although it is linked. */
  lemma FlagsSurviveCallIff(s: Sys, cb: Callbacks)
    requires Inv(s, true) && s.queue != [] && s.timers[s.queue[0]].deadline <= s.now && FlagsAgree(s)
    ensures var t := s.queue[0];
            var cs := Commands(cb, t);
            FlagsAgree(FireHead(s, cb)) <==> (LeaveLinked(cs, t, false) ==> LeavePeriodic(cs, t, s.timers[t].periodic))
  {
    var t := s.queue[0];
    ApplyAllFlags(Logged(s), Commands(cb, t), t);
    var after := CallHead(s, cb);
    assert t in after.queue && !after.timers[t].periodic ==> t in FireHead(s, cb).queue && !FireHead(s, cb).timers[t].activated;
  }

  /** The failing case, concretely: a one-shot timer restarted by its own timeout function is linked,
      and a later stop finds the flag clear and does not unlink it. */
  lemma RestartedOneShotCannotBeStopped(s: Sys, t: Id)
    requires s.queue == [t] && t in s.timers && !s.timers[t].periodic
    ensures var r := FireHead(s, map[t := [Start(t)]]);
            r.queue == [t] && !r.timers[t].activated && StopTimer(r, t) == r
  {
    var cb := map[t := [Start(t)]];
    assert Logged(s).queue == [];
    assert ApplyAll(Logged(s), cb[t]) == StartNow(Logged(s), t);
  }

  /** The end of a stop, with all other flags in agreement: they all agree if and only if nobody has linked the timer
      since the section of the stop. */
  lemma StopFlagsAgreeIff(s: Sys, t: Id)
    requires FlagsAgreeExcept(s, t) && t in s.timers
    ensures FlagsAgree(ClearFlag(s, t)) <==> t !in s.queue
  {
    assert forall x <- s.timers | x != t :: ClearFlag(s, t).timers[x] == s.timers[x];
    assert !ClearFlag(s, t).timers[t].activated;
  }

  /** An interrupt starts the timer between the two halves of a stop: it ends linked, without the flag, and a second stop
      does nothing. */
  lemma StartInStopCannotBeStopped(s: Sys, cb: Callbacks, t: Id)
    requires Inv(s, false) && FlagsAgree(s) && t in s.queue
    ensures var es := [Remove(t)] + ([Call(Start(t))] + ([Unflag(t)] + []));
            && Runs(s, es, cb)
            && var r := Run(s, es, cb);
            && t in r.queue && t in r.timers && !r.timers[t].activated && StopTimer(r, t) == r && !FlagsAgree(r)
  {
    var u := Step(s, Remove(t), cb);
    var v := Step(u, Call(Start(t)), cb);
    assert v.queue[InsertPos(BeginStart(u, t).queue, v.timers, v.timers[t].deadline)] == t;
    var w := Step(v, Unflag(t), cb);
    EmptyRun(w, cb);
    OneMoreEvent(v, Unflag(t), [], cb);
    OneMoreEvent(u, Call(Start(t)), [Unflag(t)] + [], cb);
    OneMoreEvent(s, Remove(t), [Call(Start(t))] + ([Unflag(t)] + []), cb);
  }
}
