/** Mailboxes over the kernel: a ring of mails, a list of suspended receivers and one of suspended senders.
    A blocked call is split at its rt_schedule, so any interleaving of senders, receivers, timeouts and
    resets is a run of these steps. */
module Mailbox {
  import opened Options
  import opened Seqs
  import opened Scheduler
  import opened Threads
  import opened Steps
  import opened Waiting
  import opened Kernel

  type Mail = int

  datatype Side = RECV | SEND

  /** What a thread inside a blocking call is doing: receiving, or sending the mail it carries. */
  datatype Call = Call(side: Side, mail: Mail)

  datatype Result = DONE(mail: Mail) | REFUSED(e: Error) | ASLEEP

  // ---------- the ring of mails ----------

  datatype Ring = Ring(size: nat, pool: seq<Mail>, entry: nat, inOffset: nat, outOffset: nat)

  ghost predicate RingOk(r: Ring) {
    && |r.pool| == r.size && r.entry <= r.size
    && (if r.size == 0 then r.inOffset == 0 && r.outOffset == 0
        else r.outOffset < r.size && r.inOffset == (r.outOffset + r.entry) % r.size)
  }

  /** The mails from the output offset on, oldest first. */
  ghost function Contents(r: Ring): seq<Mail>
    requires RingOk(r)
  {
    seq(r.entry, i requires 0 <= i < r.entry => r.pool[(r.outOffset + i) % r.size])
  }

  function Advance(i: nat, size: nat): nat {
    if i + 1 >= size then 0 else i + 1
  }

  function PutMail(r: Ring, m: Mail): Ring
    requires RingOk(r) && r.entry < r.size
  {
    r.(pool := r.pool[r.inOffset := m], inOffset := Advance(r.inOffset, r.size), entry := r.entry + 1)
  }

  function GetMail(r: Ring): Ring
    requires RingOk(r) && r.entry > 0
  {
    r.(outOffset := Advance(r.outOffset, r.size), entry := r.entry - 1)
  }

  lemma RingOffsets(r: Ring)
    requires RingOk(r) && r.size > 0
    ensures r.inOffset < r.size && r.outOffset < r.size
  {
  }

  lemma WrapOnce(a: nat, size: nat)
    requires 0 < size && a < 2 * size
    ensures a % size == if a < size then a else a - size
  {
    if a >= size {
      assert a == size + (a - size);
      assert (a - size) % size == a - size;
    }
  }

  lemma PutAppends(r: Ring, m: Mail)
    requires RingOk(r) && r.entry < r.size
    ensures RingOk(PutMail(r, m)) && Contents(PutMail(r, m)) == Contents(r) + [m]
  {
    var r' := PutMail(r, m);
    WrapOnce(r.outOffset + r.entry, r.size);
    WrapOnce(r.outOffset + r.entry + 1, r.size);
    forall i | 0 <= i < r'.entry
      ensures Contents(r')[i] == (Contents(r) + [m])[i]
    {
      WrapOnce(r.outOffset + i, r.size);
    }
  }

  lemma GetRemovesOldest(r: Ring)
    requires RingOk(r) && r.entry > 0
    ensures RingOk(GetMail(r)) && Contents(r) == [r.pool[r.outOffset]] + Contents(GetMail(r))
  {
    var r' := GetMail(r);
    WrapOnce(r.outOffset + r.entry, r.size);
    WrapOnce(r'.outOffset + r'.entry, r.size);
    forall i | 0 <= i < r.entry
      ensures Contents(r)[i] == ([r.pool[r.outOffset]] + Contents(r'))[i]
    {
      WrapOnce(r.outOffset + i, r.size);
      if i > 0 {
        WrapOnce(r'.outOffset + (i - 1), r.size);
      }
    }
  }

  // ---------- the mailbox ----------

  datatype Box = Box(k: Sched, recvList: nat, sendList: nat, flag: Flag, ring: Ring, calls: map<Tid, Call>,
                     sent: seq<Mail>, received: seq<Mail>)

  function ListOf(b: Box, side: Side): nat {
    if side == RECV then b.recvList else b.sendList
  }

  /** The threads that were resumed out of a blocking call on this side and have not run since. */
  ghost function Resumed(b: Box, side: Side): set<Tid> {
    set t | t in b.calls && t in b.k.threads && b.calls[t].side == side
            && t !in Waiters(b.k, ListOf(b, side)) && b.k.threads[t].error == EOK
  }

  /** How many calls of this side could go on now: mails to take, or free places to fill. */
  function Chances(r: Ring, side: Side): int {
    if side == RECV then r.entry else r.size - r.entry
  }

  /** If some thread still sleeps on this side, there are no more chances than threads on their way to take them. */
  ghost predicate NoLostWakeup(b: Box, side: Side) {
    Waiters(b.k, ListOf(b, side)) != [] ==> Chances(b.ring, side) <= |Resumed(b, side)|
  }

  /** Ready, or in the middle of a resume: on no list, with the timer stopped. */
  ghost predicate OnItsWay(k: Sched, t: Tid) {
    t in k.threads && (k.threads[t].stat == READY || (k.threads[t].stat == SUSPEND && !k.threads[t].timer)) && forall w :: t !in Waiters(k, w)
  }

  /** Sleepers are inside a call of the side whose list they are on, with no error yet; callers that are
      not asleep are on their way. */
  ghost predicate CallsOk(b: Box) {
    && (forall side, t | t in Waiters(b.k, ListOf(b, side)) ::
          t in b.calls && b.calls[t].side == side && t in b.k.threads && b.k.threads[t].error == EOK)
    && (forall t <- b.calls :: t in b.k.threads && (t !in Waiters(b.k, ListOf(b, b.calls[t].side)) ==> OnItsWay(b.k, t)))
  }

  ghost predicate BoxInv(b: Box) {
    && Inv(b.k) && WaitList(b.recvList) in b.k.lists && WaitList(b.sendList) in b.k.lists && b.recvList != b.sendList
    && RingOk(b.ring) && CallsOk(b)
    && b.sent == b.received + Contents(b.ring)
    && NoLostWakeup(b, RECV) && NoLostWakeup(b, SEND)
  }

  // ---------- the steps ----------

  datatype Op =
    | Enter(side: Side, mail: Mail, timeout: int)   // rt_mb_send_wait or rt_mb_recv, from its start
    | Again(timeout: int)                           // either of them, from the return of its rt_schedule, with the time left
    | Reset                                         // RT_IPC_CMD_RESET
    | Other(a: Step)                                // anything else in the kernel

  function Opposite(side: Side): Side {
    if side == RECV then SEND else RECV
  }

  /** Mail in or out, and a wake-up for the other side. */
  function Transfer(b: Box, side: Side, m: Mail): (Box, Result)
    requires BoxInv(b) && Chances(b.ring, side) > 0
  {
    var v := if side == RECV then b.ring.pool[b.ring.outOffset] else m;
    var ring := if side == RECV then GetMail(b.ring) else PutMail(b.ring, m);
    WaitersAreNotInitial(b.k, ListOf(b, Opposite(side)));
    (b.(ring := ring, k := WakeFirst(b.k, ListOf(b, Opposite(side))),
        sent := if side == SEND then b.sent + [m] else b.sent,
        received := if side == RECV then b.received + [v] else b.received), DONE(v))
  }

  /** Going to sleep on this side. */
  function FallAsleep(b: Box, side: Side, m: Mail, timed: bool): (Box, Result)
    requires BoxInv(b) && Running(b.k)
  {
    WaitersAreNotInitial(b.k, ListOf(b, side));
    (b.(k := Block(b.k, ListOf(b, side), b.flag, timed), calls := b.calls[b.k.current.value := Call(side, m)]), ASLEEP)
  }

  function Refusal(side: Side): Error {
    if side == RECV then ETIMEOUT else EFULL
  }

  /** A call from a thread that is not inside another one; only one that may wait needs a running thread. */
  predicate BoxEnabled(b: Box, op: Op)
    requires Shaped(b.k)
  {
    match op
    case Enter(side, _, timeout) =>
      Chances(b.ring, side) <= 0 && timeout != 0 ==> Running(b.k) && b.k.current.value !in b.calls
    case Again(_) => Running(b.k) && b.k.current.value in b.calls
    case Reset => true
    case Other(a) =>
      && Enabled(b.k, a)
      && (a.DoBlock? || a.DoWake? ==> a.w != b.recvList && a.w != b.sendList)
      && (a.DoSuspend? || a.DoSleep? || a.DoBlock? ==> b.k.current.value !in b.calls)
      && (a.DoClose? || a.DoRemove? || a.DoMark? || a.DoSetError? ==> a.t !in b.calls)
  }

  function BoxStep(b: Box, op: Op): (Box, Result)
    requires BoxInv(b) && BoxEnabled(b, op)
  {
    match op
    case Enter(side, m, timeout) =>
      if Chances(b.ring, side) > 0 then Transfer(b, side, m)
      else if timeout == 0 then (b, REFUSED(Refusal(side)))
      else FallAsleep(b, side, m, timeout > 0)
    case Again(timeout) =>
      var c := b.k.current.value;
      var call := b.calls[c];
      var b' := b.(calls := b.calls - {c});
      if b.k.threads[c].error != EOK then (b', REFUSED(b.k.threads[c].error))
      else if Chances(b.ring, call.side) > 0 then WithoutCall(Transfer(b, call.side, call.mail), c)
      else if timeout == 0 then
        if call.side == RECV then (b'.(k := Update(b.k, c, b.k.threads[c].(error := ETIMEOUT))), REFUSED(ETIMEOUT))
        else (b', REFUSED(EFULL))
      else FallAsleep(b, call.side, call.mail, timeout > 0)
    case Reset =>
      var k1 := WakeAll(b.k, b.recvList);
      (b.(k := WakeAll(k1, b.sendList), ring := b.ring.(entry := 0, inOffset := 0, outOffset := 0),
          sent := [], received := []), DONE(0))
    case Other(a) => (b.(k := Apply(b.k, a)), DONE(0))
  }

  function WithoutCall(r: (Box, Result), c: Tid): (Box, Result) {
    (r.0.(calls := r.0.calls - {c}), r.1)
  }

  // ---------- the invariant is kept ----------

  lemma SidesAreTwo(side: Side, x: Side)
    ensures x == side || x == Opposite(side)
  {
  }

  lemma SleepersLeaveOthers(b: Box, side: Side)
    requires BoxInv(b) && Waiters(b.k, ListOf(b, side)) != []
    ensures var t := Waiters(b.k, ListOf(b, side))[0];
            && t in b.calls && b.calls[t].side == side && t in b.k.threads && b.k.threads[t].error == EOK
            && b.k.threads[t].stat == SUSPEND
            && t !in Waiters(b.k, ListOf(b, Opposite(side)))
  {
    var t := Waiters(b.k, ListOf(b, side))[0];
    assert t in Waiters(b.k, ListOf(b, side)) && PlacedRight(b.k, t);
  }

  /** b with the first sleeper of a side, if any, woken. */
  function Woken(b: Box, side: Side): Box
    requires BoxInv(b)
  {
    WaitersAreNotInitial(b.k, ListOf(b, side));
    b.(k := WakeFirst(b.k, ListOf(b, side)))
  }

  /** r is b after thread t, first on the list of this side, was made ready. */
  ghost predicate FirstLeft(b: Box, r: Box, side: Side, t: Tid) {
    && r == b.(k := r.k) && t in b.k.threads
    && Waiters(b.k, ListOf(b, side)) == [t] + Waiters(r.k, ListOf(b, side)) && t !in Waiters(r.k, ListOf(b, side))
    && Waiters(r.k, ListOf(b, Opposite(side))) == Waiters(b.k, ListOf(b, Opposite(side))) && t !in Waiters(b.k, ListOf(b, Opposite(side)))
    && r.k.threads == b.k.threads[t := b.k.threads[t].(stat := READY, timer := false)]
    && (forall v, u :: u in Waiters(r.k, v) ==> u != t && u in Waiters(b.k, v))
  }

  lemma FirstLeftCalls(b: Box, r: Box, side: Side, t: Tid)
    requires CallsOk(b) && FirstLeft(b, r, side, t)
    ensures CallsOk(r)
  {
    forall x, u | u in Waiters(r.k, ListOf(r, x))
      ensures u in r.calls && r.calls[u].side == x && u in r.k.threads && r.k.threads[u].error == EOK
    {
      SidesAreTwo(side, x);
      assert u in Waiters(b.k, ListOf(b, x));
    }
    forall u | u in r.calls
      ensures u in r.k.threads && (u !in Waiters(r.k, ListOf(r, r.calls[u].side)) ==> OnItsWay(r.k, u))
    {
      SidesAreTwo(side, r.calls[u].side);
    }
  }

  lemma FirstLeftResumed(b: Box, r: Box, side: Side, t: Tid)
    requires CallsOk(b) && FirstLeft(b, r, side, t)
    ensures Resumed(r, Opposite(side)) == Resumed(b, Opposite(side))
    ensures Resumed(r, side) == Resumed(b, side) + {t} && t !in Resumed(b, side)
  {
    assert t in Waiters(b.k, ListOf(b, side));
    assert t in b.calls && b.calls[t].side == side && b.k.threads[t].error == EOK;
    assert forall u :: u in Resumed(r, side) <==> u in Resumed(b, side) || u == t;
    assert forall u :: u in Resumed(r, Opposite(side)) <==> u in Resumed(b, Opposite(side));
  }

  lemma WokenIsFirstLeft(b: Box, side: Side)
    requires BoxInv(b) && Waiters(b.k, ListOf(b, side)) != []
    ensures FirstLeft(b, Woken(b, side), side, Waiters(b.k, ListOf(b, side))[0])
    ensures Inv(Woken(b, side).k) && Woken(b, side).k.lists.Keys == b.k.lists.Keys
  {
    hide CallsOk, NoLostWakeup, RingOk, WakeFirst;
    SleepersLeaveOthers(b, side);
    WakeFirstEffect(b.k, ListOf(b, side));
    HeadNotBehind(b.k, ListOf(b, side));
  }

  lemma HeadNotBehind(k: Sched, w: nat)
    requires Inv(k) && Waiters(k, w) != []
    ensures Waiters(k, w)[0] !in Waiters(k, w)[1..]
  {
  }

  lemma WokenView(b: Box, side: Side)
    requires BoxInv(b)
    ensures var r, q := Woken(b, side), Waiters(b.k, ListOf(b, side));
            && Inv(r.k) && r.k.lists.Keys == b.k.lists.Keys && CallsOk(r)
            && Waiters(r.k, ListOf(b, Opposite(side))) == Waiters(b.k, ListOf(b, Opposite(side)))
            && Resumed(r, Opposite(side)) == Resumed(b, Opposite(side))
            && (q == [] ==> Waiters(r.k, ListOf(b, side)) == [])
            && (q != [] ==> Waiters(r.k, ListOf(b, side)) == q[1..] && |Resumed(r, side)| == |Resumed(b, side)| + 1)
  {
    var q := Waiters(b.k, ListOf(b, side));
    if q != [] {
      WokenIsFirstLeft(b, side);
      FirstLeftCalls(b, Woken(b, side), side, q[0]);
      FirstLeftResumed(b, Woken(b, side), side, q[0]);
    }
  }

  /** The lists, calls and threads of r are those of w: only the mails differ. */
  lemma SameResumed(w: Box, r: Box)
    requires r.k == w.k && r.calls == w.calls && r.recvList == w.recvList && r.sendList == w.sendList
    ensures Resumed(r, RECV) == Resumed(w, RECV) && Resumed(r, SEND) == Resumed(w, SEND)
    ensures CallsOk(w) ==> CallsOk(r)
  {
    assert forall side :: ListOf(r, side) == ListOf(w, side);
  }

  lemma TransferMails(b: Box, side: Side, m: Mail)
    requires BoxInv(b) && Chances(b.ring, side) > 0
    ensures var r := Transfer(b, side, m).0;
            RingOk(r.ring) && r.sent == r.received + Contents(r.ring)
            && Chances(r.ring, side) == Chances(b.ring, side) - 1
            && Chances(r.ring, Opposite(side)) == Chances(b.ring, Opposite(side)) + 1
  {
    if side == RECV {
      MailOut(b.ring, b.sent, b.received);
    } else {
      MailIn(b.ring, m, b.sent, b.received);
    }
  }

  lemma MailOut(r: Ring, sent: seq<Mail>, received: seq<Mail>)
    requires RingOk(r) && r.entry > 0 && sent == received + Contents(r)
    ensures RingOk(GetMail(r)) && sent == received + [r.pool[r.outOffset]] + Contents(GetMail(r))
  {
    GetRemovesOldest(r);
    assert received + ([r.pool[r.outOffset]] + Contents(GetMail(r))) == received + [r.pool[r.outOffset]] + Contents(GetMail(r));
  }

  lemma MailIn(r: Ring, m: Mail, sent: seq<Mail>, received: seq<Mail>)
    requires RingOk(r) && r.entry < r.size && sent == received + Contents(r)
    ensures RingOk(PutMail(r, m)) && sent + [m] == received + Contents(PutMail(r, m))
  {
    PutAppends(r, m);
    assert received + Contents(r) + [m] == received + (Contents(r) + [m]);
  }

  lemma TransferKeeps(b: Box, side: Side, m: Mail)
    requires BoxInv(b) && Chances(b.ring, side) > 0
    ensures var r := Transfer(b, side, m).0;
            && BoxInv(r) && r.calls == b.calls
            && Resumed(r, side) == Resumed(b, side)
            && Waiters(r.k, ListOf(r, side)) == Waiters(b.k, ListOf(b, side))
            && Chances(r.ring, side) == Chances(b.ring, side) - 1
  {
    WokenView(b, Opposite(side));
    TransferMails(b, side, m);
    SameResumed(Woken(b, Opposite(side)), Transfer(b, side, m).0);
  }

  /** A receive delivers the oldest mail in the ring and takes it out; a send puts its mail behind all others;
      and each resumes the first caller waiting on the other side. */
  lemma TransferDelivers(b: Box, side: Side, m: Mail)
    requires BoxInv(b) && Chances(b.ring, side) > 0
    ensures var (r, result) := Transfer(b, side, m);
            var q := Waiters(b.k, ListOf(b, Opposite(side)));
            && RingOk(r.ring) && result.DONE?
            && (side == RECV ==> Contents(b.ring) == [result.mail] + Contents(r.ring) && r.received == b.received + [result.mail] && r.sent == b.sent)
            && (side == SEND ==> Contents(r.ring) == Contents(b.ring) + [m] && r.sent == b.sent + [m] && r.received == b.received)
            && (q != [] ==> Waiters(r.k, ListOf(b, Opposite(side))) == q[1..] && q[0] in r.k.threads && r.k.threads[q[0]].stat == READY)
            && (q == [] ==> r.k == b.k)
  {
    if side == RECV {
      GetRemovesOldest(b.ring);
    } else {
      PutAppends(b.ring, m);
    }
    if Waiters(b.k, ListOf(b, Opposite(side))) != [] {
      WakeFirstEffect(b.k, ListOf(b, Opposite(side)));
    }
  }

  /** What a call comes to, when it begins and each time it runs again: it transfers exactly when there is a
      mail or a slot for it and no timeout or reset has ended its sleep; it is refused with no time left, or
      with the error its sleep ended with, and then moves no mail; else it sleeps on its own side's list. */
  lemma CallOutcome(b: Box, op: Op)
    requires BoxInv(b) && BoxEnabled(b, op) && (op.Enter? || op.Again?)
    ensures var (r, result) := BoxStep(b, op);
            var side := if op.Enter? then op.side else b.calls[b.k.current.value].side;
            var ended := op.Again? && b.k.threads[b.k.current.value].error != EOK;
            && (result.DONE? <==> !ended && Chances(b.ring, side) > 0)
            && (result.REFUSED? <==> ended || (Chances(b.ring, side) <= 0 && op.timeout == 0))
            && (result.REFUSED? ==> r.ring == b.ring && r.sent == b.sent && r.received == b.received
                                    && result.e == if ended then b.k.threads[b.k.current.value].error else Refusal(side))
            && (result.ASLEEP? ==>
                  var c := b.k.current.value;
                  && r.ring == b.ring && c in Waiters(r.k, ListOf(b, side)) && c in r.calls && r.calls[c].side == side
                  && c in r.k.threads && (r.k.threads[c].timer <==> op.timeout > 0))
            && (op.Again? && !result.ASLEEP? ==> b.k.current.value !in r.calls)
  {
    var side := if op.Enter? then op.side else b.calls[b.k.current.value].side;
    if Chances(b.ring, side) <= 0 && op.timeout != 0 && !(op.Again? && b.k.threads[b.k.current.value].error != EOK) {
      BlockEffect(b.k, ListOf(b, side), b.flag, op.timeout > 0);
    }
  }

  lemma LeaveCallResumed(b: Box, c: Tid)
    requires CallsOk(b) && c in b.calls && c !in Waiters(b.k, ListOf(b, b.calls[c].side))
    ensures var r, side := b.(calls := b.calls - {c}), b.calls[c].side;
            && CallsOk(r)
            && Resumed(r, Opposite(side)) == Resumed(b, Opposite(side))
            && Resumed(r, side) == Resumed(b, side) - {c}
  {
    hide OnItsWay, Waiters;
    var r, side := b.(calls := b.calls - {c}), b.calls[c].side;
    forall x, t | t in Waiters(r.k, ListOf(r, x))
      ensures t in r.calls && r.calls[t].side == x
    {
      assert ListOf(r, x) == ListOf(b, x);
      assert t in b.calls && b.calls[t].side == x;
    }
    forall t | t in r.calls
      ensures t !in Waiters(r.k, ListOf(r, r.calls[t].side)) ==> OnItsWay(r.k, t)
    {
      assert ListOf(r, r.calls[t].side) == ListOf(b, b.calls[t].side);
    }
    assert forall t :: t in Resumed(r, side) <==> t in Resumed(b, side) && t != c;
    assert forall t :: t in Resumed(r, Opposite(side)) <==> t in Resumed(b, Opposite(side));
  }

  /** A resumed thread may leave its call once it has used a chance, or when there is none. */
  lemma LeaveCallKeeps(b: Box, c: Tid)
    requires Inv(b.k) && WaitList(b.recvList) in b.k.lists && WaitList(b.sendList) in b.k.lists && b.recvList != b.sendList
    requires RingOk(b.ring) && CallsOk(b) && b.sent == b.received + Contents(b.ring)
    requires c in b.calls && c !in Waiters(b.k, ListOf(b, b.calls[c].side))
    requires NoLostWakeup(b, Opposite(b.calls[c].side))
    requires var side := b.calls[c].side;
             Waiters(b.k, ListOf(b, side)) != [] ==> Chances(b.ring, side) <= |Resumed(b, side) - {c}|
    ensures BoxInv(b.(calls := b.calls - {c}))
  {
    LeaveCallResumed(b, c);
  }

  /** r is b after running thread c went to sleep on this side. */
  ghost predicate FellAsleep(b: Box, r: Box, side: Side, c: Tid, m: Mail) {
    && r == b.(k := r.k, calls := b.calls[c := Call(side, m)]) && c in b.k.threads
    && (forall t :: t in Waiters(r.k, ListOf(b, side)) <==> t in Waiters(b.k, ListOf(b, side)) || t == c)
    && Waiters(r.k, ListOf(b, Opposite(side))) == Waiters(b.k, ListOf(b, Opposite(side))) && c !in Waiters(b.k, ListOf(b, Opposite(side)))
    && c in r.k.threads && r.k.threads[c].error == EOK
    && r.k.threads == b.k.threads[c := r.k.threads[c]]
    && (forall v, u :: u in Waiters(r.k, v) ==> u == c || u in Waiters(b.k, v))
  }

  lemma FellAsleepCalls(b: Box, r: Box, side: Side, c: Tid, m: Mail)
    requires CallsOk(b) && FellAsleep(b, r, side, c, m)
    ensures CallsOk(r)
  {
    forall x, u | u in Waiters(r.k, ListOf(r, x))
      ensures u in r.calls && r.calls[u].side == x && u in r.k.threads && r.k.threads[u].error == EOK
    {
      SidesAreTwo(side, x);
      assert u == c || u in Waiters(b.k, ListOf(b, x));
    }
    forall u | u in r.calls
      ensures u in r.k.threads && (u !in Waiters(r.k, ListOf(r, r.calls[u].side)) ==> OnItsWay(r.k, u))
    {
      SidesAreTwo(side, r.calls[u].side);
    }
  }

  lemma FellAsleepResumed(b: Box, r: Box, side: Side, c: Tid, m: Mail)
    requires CallsOk(b) && FellAsleep(b, r, side, c, m) && (c in b.calls ==> b.calls[c].side == side)
    ensures Resumed(r, Opposite(side)) == Resumed(b, Opposite(side))
  {
    assert forall u :: u in Resumed(r, Opposite(side)) <==> u in Resumed(b, Opposite(side));
  }

  /** The block as a change of records and of lists. */
  lemma BlockView(k: Sched, w: nat, flag: Flag, timed: bool)
    requires Inv(k) && Running(k) && WaitList(w) in k.lists
    ensures forall t <- Waiters(k, w) :: t in k.threads
    ensures var c, r := k.current.value, Block(k, w, flag, timed);
            && Inv(r) && r.lists.Keys == k.lists.Keys
            && r.threads == k.threads[c := k.threads[c].(stat := SUSPEND, error := EOK, timer := timed)]
            && (forall v :: Waiters(r, v) == if v == w then InsertAt(Waiters(k, w), WaitPos(k, w, flag), c) else Waiters(k, v))
            && (forall v :: c !in Waiters(k, v))
  {
    RunningDoesNotWait(k, k.current.value);
    BlockKeeps(k, w, flag, timed);
    BlockEffect(k, w, flag, timed);
    forall v | v != w
      ensures Waiters(Block(k, w, flag, timed), v) == Waiters(k, v)
    {
      StepWaiters(k, DoBlock(w, flag, timed), v);
    }
  }

  lemma InsertedMembers(q: seq<Tid>, i: nat, c: Tid)
    requires i <= |q|
    ensures forall t :: t in InsertAt(q, i, c) <==> t in q || t == c
  {
    assert q == q[..i] + q[i..];
  }

  lemma SleepFallsAsleep(b: Box, side: Side, m: Mail, timed: bool)
    requires BoxInv(b) && Running(b.k)
    ensures FellAsleep(b, FallAsleep(b, side, m, timed).0, side, b.k.current.value, m)
    ensures Inv(FallAsleep(b, side, m, timed).0.k) && FallAsleep(b, side, m, timed).0.k.lists.Keys == b.k.lists.Keys
  {
    hide CallsOk, NoLostWakeup, RingOk, Block, PlacedRight;
    var w := ListOf(b, side);
    BlockView(b.k, w, b.flag, timed);
    InsertedMembers(Waiters(b.k, w), WaitPos(b.k, w, b.flag), b.k.current.value);
  }

  lemma FallAsleepKeeps(b: Box, side: Side, m: Mail, timed: bool)
    requires BoxInv(b) && Running(b.k) && Chances(b.ring, side) <= 0
    requires b.k.current.value in b.calls ==> b.calls[b.k.current.value].side == side
    ensures BoxInv(FallAsleep(b, side, m, timed).0)
  {
    var c, r := b.k.current.value, FallAsleep(b, side, m, timed).0;
    SleepFallsAsleep(b, side, m, timed);
    FellAsleepCalls(b, r, side, c, m);
    FellAsleepResumed(b, r, side, c, m);
  }

  lemma SmallerAfterRemoval(s: set<Tid>, c: Tid)
    ensures |s - {c}| == if c in s then |s| - 1 else |s|
  {
    if c in s {
      assert s == (s - {c}) + {c};
    } else {
      assert s - {c} == s;
    }
  }

  lemma AgainKeeps(b: Box, timeout: int)
    requires BoxInv(b) && BoxEnabled(b, Again(timeout))
    ensures BoxInv(BoxStep(b, Again(timeout)).0)
  {
    var c := b.k.current.value;
    var side := b.calls[c].side;
    RunningDoesNotWait(b.k, c);
    SmallerAfterRemoval(Resumed(b, side), c);
    if b.k.threads[c].error != EOK {
      LeaveCallKeeps(b, c);
    } else if Chances(b.ring, side) > 0 {
      TransferKeeps(b, side, b.calls[c].mail);
      LeaveCallKeeps(Transfer(b, side, b.calls[c].mail).0, c);
    } else if timeout == 0 {
      LeaveCallKeeps(b, c);
      if side == RECV {
        ErrorOutsideCallKeeps(b.(calls := b.calls - {c}), c, ETIMEOUT);
      }
    } else {
      FallAsleepKeeps(b, side, b.calls[c].mail, timeout > 0);
    }
  }

  lemma ErrorOutsideCallKeeps(b: Box, c: Tid, e: Error)
    requires BoxInv(b) && c in b.k.threads && c !in b.calls
    ensures BoxInv(b.(k := Update(b.k, c, b.k.threads[c].(error := e))))
  {
    ErrorKeeps(b.k, c, e);
    SameCallersKeep(b, Update(b.k, c, b.k.threads[c].(error := e)));
  }

  /** The kernel changed outside the lists and the callers. */
  lemma SameCallersKeep(b: Box, k: Sched)
    requires BoxInv(b) && Inv(k) && k.lists == b.k.lists && k.threads.Keys == b.k.threads.Keys
    requires forall t <- b.calls :: t in k.threads && k.threads[t] == b.k.threads[t]
    ensures BoxInv(b.(k := k))
  {
    hide Inv, RingOk;
    var r := b.(k := k);
    assert forall w :: Waiters(k, w) == Waiters(b.k, w);
    forall side
      ensures Resumed(r, side) == Resumed(b, side)
    {
      assert ListOf(r, side) == ListOf(b, side);
    }
    forall t | t in r.calls
      ensures t !in Waiters(r.k, ListOf(r, r.calls[t].side)) ==> OnItsWay(r.k, t)
    {
      assert t !in Waiters(b.k, ListOf(b, b.calls[t].side)) ==> OnItsWay(b.k, t);
    }
    forall side, t | t in Waiters(r.k, ListOf(r, side))
      ensures t in r.calls && r.calls[t].side == side && t in r.k.threads && r.k.threads[t].error == EOK
    {
      assert t in Waiters(b.k, ListOf(b, side));
    }
  }

  /** After all waiters of a list are woken, they and those on their way before are on their way. */
  lemma WakeAllOnItsWay(k: Sched, w: nat, t: Tid)
    requires Inv(k) && (t in Waiters(k, w) || OnItsWay(k, t))
    ensures OnItsWay(WakeAll(k, w), t)
  {
    var r := WakeAll(k, w);
    WakeAllWakesTheWaiters(k, w);
    if t in Waiters(k, w) {
      RunningDoesNotWait(r, t);
    } else {
      forall v
        ensures t !in Waiters(r, v)
      {
        if v != w {
          WakeAllOtherLists(k, w, v);
        }
      }
    }
  }

  lemma ResetCalls(b: Box)
    requires BoxInv(b)
    ensures var k := WakeAll(WakeAll(b.k, b.recvList), b.sendList);
            && WaitList(b.recvList) in k.lists && WaitList(b.sendList) in k.lists
            && Waiters(k, b.recvList) == [] && Waiters(k, b.sendList) == []
            && (forall t <- b.calls :: OnItsWay(k, t))
  {
    var k1 := WakeAll(b.k, b.recvList);
    WakeAllOtherLists(b.k, b.recvList, b.sendList);
    WakeAllOtherLists(k1, b.sendList, b.recvList);
    forall t | t in b.calls
      ensures OnItsWay(WakeAll(k1, b.sendList), t)
    {
      SidesAreTwo(RECV, b.calls[t].side);
      if t in Waiters(b.k, b.recvList) || OnItsWay(b.k, t) {
        WakeAllOnItsWay(b.k, b.recvList, t);
      }
      WakeAllOnItsWay(k1, b.sendList, t);
    }
  }

  lemma ResetKeeps(b: Box)
    requires BoxInv(b)
    ensures BoxInv(BoxStep(b, Reset).0)
  {
    ResetCalls(b);
    var r := BoxStep(b, Reset).0;
    assert forall side :: Waiters(r.k, ListOf(r, side)) == [];
    assert forall t <- r.calls :: OnItsWay(r.k, t);
  }

  lemma FewerOrEqual(s: set<Tid>, t: set<Tid>)
    requires s <= t
    ensures |s| <= |t|
  {
    assert t == s + (t - s);
  }

  /** Of one side: no new sleepers, the sleepers have no error, and callers that do not sleep are ready. */
  ghost predicate SideKept(b: Box, r: Box, side: Side) {
    && (forall t | t in Waiters(r.k, ListOf(b, side)) ::
          t in Waiters(b.k, ListOf(b, side)) && t in r.k.threads && r.k.threads[t].error == EOK)
    && (forall t | t in b.calls && b.calls[t].side == side && t !in Waiters(r.k, ListOf(b, side)) ::
          OnItsWay(r.k, t))
  }

  lemma OtherView(b: Box, a: Step, side: Side)
    requires BoxInv(b) && BoxEnabled(b, Other(a))
    ensures var r := BoxStep(b, Other(a)).0;
            SideKept(b, r, side) && Resumed(b, side) <= Resumed(r, side)
  {
    var r, w := BoxStep(b, Other(a)).0, ListOf(b, side);
    StepWaiters(b.k, a, w);
    StepErrors(b.k, a, w);
    forall t | t in b.calls && b.calls[t].side == side && t !in Waiters(r.k, w)
      ensures OnItsWay(r.k, t) && (t !in Waiters(b.k, w) ==> r.k.threads[t].error == b.k.threads[t].error)
    {
      if t in Waiters(b.k, w) {
        LeaverIsOnItsWay(b.k, a, t, w);
      } else {
        StepOnItsWay(b.k, a, t);
      }
    }
  }

  /** What a caller outside its list may not do or suffer: block, be closed, have its error set. */
  predicate LeavesCaller(k: Sched, a: Step, t: Tid) {
    && (a.DoSuspend? || a.DoSleep? || a.DoBlock? ==> k.current != Some(t))
    && (a.DoClose? || a.DoRemove? || a.DoMark? || a.DoSetError? ==> a.t != t)
  }

  lemma StepOnItsWay(k: Sched, a: Step, t: Tid)
    requires Inv(k) && Enabled(k, a) && OnItsWay(k, t) && LeavesCaller(k, a, t)
    ensures OnItsWay(Apply(k, a), t) && Apply(k, a).threads[t].error == k.threads[t].error
  {
    StepLists(k, a, t);
    if k.threads[t].stat == READY {
      StepStaysReady(k, a, t);
    } else {
      StepRecords(k, a);
      assert a.DoWake? ==> t !in Waiters(k, a.w);
    }
  }

  lemma LeaverIsOnItsWay(k: Sched, a: Step, t: Tid, w: nat)
    requires Inv(k) && Enabled(k, a) && LeavesCaller(k, a, t) && t in Waiters(k, w) && Leaver(k, a) == Some(t)
    ensures OnItsWay(Apply(k, a), t)
  {
    if a.DoUnlink? {
      WaitersAreNotInitial(k, w);
      StepRecords(k, a);
      forall v
        ensures t !in Waiters(Apply(k, a), v)
      {
        StepWaiters(k, a, v);
      }
    } else {
      LeaverIsReady(k, a, t, w);
      StepKeeps(k, a);
      RunningDoesNotWait(Apply(k, a), t);
    }
  }

  lemma OtherSideKeeps(b: Box, a: Step, side: Side)
    requires BoxInv(b) && BoxEnabled(b, Other(a))
    ensures NoLostWakeup(BoxStep(b, Other(a)).0, side)
  {
    OtherView(b, a, side);
    var r := BoxStep(b, Other(a)).0;
    FewerOrEqual(Resumed(b, side), Resumed(r, side));
    assert Waiters(r.k, ListOf(r, side)) != [] ==> Waiters(r.k, ListOf(r, side))[0] in Waiters(b.k, ListOf(b, side));
  }

  lemma OtherCallsKeeps(b: Box, a: Step)
    requires BoxInv(b) && BoxEnabled(b, Other(a))
    ensures CallsOk(BoxStep(b, Other(a)).0)
  {
    OtherView(b, a, RECV);
    OtherView(b, a, SEND);
    StepThreads(b.k, a);
    OtherCalls(b, BoxStep(b, Other(a)).0);
  }

  lemma StepThreads(k: Sched, a: Step)
    requires Inv(k) && Enabled(k, a)
    ensures Apply(k, a).threads.Keys == k.threads.Keys
  {
    if !a.DoChangePriority? {
      StepPriorities(k, a);
    }
  }

  lemma OtherKeeps(b: Box, a: Step)
    requires BoxInv(b) && BoxEnabled(b, Other(a))
    ensures BoxInv(BoxStep(b, Other(a)).0)
  {
    StepKeeps(b.k, a);
    StepListKeys(b.k, a);
    OtherSideKeeps(b, a, RECV);
    OtherSideKeeps(b, a, SEND);
    OtherCallsKeeps(b, a);
  }

  lemma OtherCalls(b: Box, r: Box)
    requires CallsOk(b) && r == b.(k := r.k) && SideKept(b, r, RECV) && SideKept(b, r, SEND)
    requires forall t <- b.calls :: t in r.k.threads
    ensures CallsOk(r)
  {
    forall side, t | t in Waiters(r.k, ListOf(r, side))
      ensures t in r.calls && r.calls[t].side == side && t in r.k.threads && r.k.threads[t].error == EOK
    {
      SidesAreTwo(RECV, side);
      assert t in Waiters(b.k, ListOf(b, side));
    }
    forall t | t in r.calls
      ensures t !in Waiters(r.k, ListOf(r, r.calls[t].side)) ==> OnItsWay(r.k, t)
    {
      SidesAreTwo(RECV, r.calls[t].side);
    }
  }

  lemma BoxStepKeeps(b: Box, op: Op)
    requires BoxInv(b) && BoxEnabled(b, op)
    ensures BoxInv(BoxStep(b, op).0)
  {
    match op
    case Enter(side, m, timeout) =>
      if Chances(b.ring, side) > 0 {
        TransferKeeps(b, side, m);
      } else if timeout != 0 {
        FallAsleepKeeps(b, side, m, timeout > 0);
      }
    case Again(timeout) => AgainKeeps(b, timeout);
    case Reset => ResetKeeps(b);
    case Other(a) => OtherKeeps(b, a);
  }

  // ---------- runs ----------

  ghost predicate Runs(b: Box, ops: seq<Op>)
    requires BoxInv(b)
    decreases |ops|
  {
    ops != [] ==> BoxEnabled(b, ops[0]) && (BoxStepKeeps(b, ops[0]); Runs(BoxStep(b, ops[0]).0, ops[1..]))
  }

  function Run(b: Box, ops: seq<Op>): (r: Box)
    requires BoxInv(b) && Runs(b, ops)
    ensures BoxInv(r)
    decreases |ops|
  {
    if ops == [] then b else BoxStepKeeps(b, ops[0]); Run(BoxStep(b, ops[0]).0, ops[1..])
  }

  /** rt_mb_init on lists nobody waits on. */
  ghost predicate Fresh(b: Box) {
    && Inv(b.k) && WaitList(b.recvList) in b.k.lists && WaitList(b.sendList) in b.k.lists && b.recvList != b.sendList
    && Waiters(b.k, b.recvList) == [] && Waiters(b.k, b.sendList) == []
    && |b.ring.pool| == b.ring.size && b.ring.entry == b.ring.inOffset == b.ring.outOffset == 0
    && b.calls == map[] && b.sent == [] && b.received == []
  }

  lemma FreshInv(b: Box)
    requires Fresh(b)
    ensures BoxInv(b)
  {
    assert forall side :: Waiters(b.k, ListOf(b, side)) == [];
  }

  /** No wake-up is lost, whatever senders, receivers, timeouts, resets and the rest of the kernel do:
      while a receiver sleeps there are at most as many mails as receivers already resumed and ready to take
      them, and while a sender sleeps at most as many free places as resumed senders. */
  lemma NoWakeupIsLost(b: Box, ops: seq<Op>)
    requires Fresh(b) && BoxInv(b) && Runs(b, ops)
    ensures var r := Run(b, ops);
            && (Waiters(r.k, ListOf(r, RECV)) != [] ==> r.ring.entry <= |Resumed(r, RECV)|)
            && (Waiters(r.k, ListOf(r, SEND)) != [] ==> r.ring.size - r.ring.entry <= |Resumed(r, SEND)|)
            && (forall side, t :: t in Resumed(r, side) ==> OnItsWay(r.k, t))
  {
    var r := Run(b, ops);
    assert NoLostWakeup(r, RECV) && NoLostWakeup(r, SEND) && CallsOk(r);
  }

  /** In every reachable state the mails received since the last reset are a prefix of those sent, and the
      ring holds exactly the rest, oldest first. */
  lemma ReceivedIsPrefixOfSent(b: Box, ops: seq<Op>)
    requires Fresh(b) && BoxInv(b) && Runs(b, ops)
    ensures var r := Run(b, ops);
            && RingOk(r.ring) && r.received <= r.sent
            && |r.sent| - |r.received| == r.ring.entry <= r.ring.size
            && r.sent[|r.received|..] == Contents(r.ring)
  {
    var r := Run(b, ops);
    assert r.sent == r.received + Contents(r.ring);
  }

  // ---------- deleting a caller ----------

  /** A thread in the middle of a call is deleted, and its call with it. */
  function WithoutCaller(b: Box, t: Tid): Box
    requires BoxInv(b) && t in b.k.threads
  {
    b.(k := Close(b.k, t), calls := b.calls - {t})
  }

  /** Of one side, after caller t was deleted. */
  ghost predicate CallerLeft(b: Box, r: Box, t: Tid, side: Side) {
    && Waiters(r.k, ListOf(b, side)) == Without(Waiters(b.k, ListOf(b, side)), t)
    && (forall x | x in b.calls && b.calls[x].side == side && x != t ::
          && x in b.k.threads && x in r.k.threads && r.k.threads[x].error == b.k.threads[x].error
          && (x !in Waiters(b.k, ListOf(b, side)) ==> OnItsWay(r.k, x)))
  }

  lemma DeletionView(b: Box, t: Tid, side: Side)
    requires BoxInv(b) && t in b.calls
    ensures CallerLeft(b, WithoutCaller(b, t), t, side)
  {
    var a, w := DoClose(t), ListOf(b, side);
    StepWaiters(b.k, a, w);
    StepRecords(b.k, a);
    forall x | x in b.calls && b.calls[x].side == side && x != t && x !in Waiters(b.k, w)
      ensures OnItsWay(Apply(b.k, a), x)
    {
      StepOnItsWay(b.k, a, x);
    }
  }

  lemma CallerLeftCalls(b: Box, r: Box, t: Tid)
    requires CallsOk(b) && r == b.(k := r.k, calls := b.calls - {t})
    requires CallerLeft(b, r, t, RECV) && CallerLeft(b, r, t, SEND)
    ensures CallsOk(r)
    ensures forall side :: Resumed(r, side) == Resumed(b, side) - {t}
  {
    hide OnItsWay, Inv;
    forall side, x | x in Waiters(r.k, ListOf(r, side))
      ensures x in r.calls && r.calls[x].side == side && x in r.k.threads && r.k.threads[x].error == EOK
    {
      SidesAreTwo(RECV, side);
      assert x in Waiters(b.k, ListOf(b, side));
    }
    forall x | x in r.calls
      ensures x in r.k.threads && (x !in Waiters(r.k, ListOf(r, r.calls[x].side)) ==> OnItsWay(r.k, x))
    {
      SidesAreTwo(RECV, b.calls[x].side);
    }
    forall side
      ensures Resumed(r, side) == Resumed(b, side) - {t}
    {
      SidesAreTwo(RECV, side);
      assert ListOf(r, side) == ListOf(b, side);
      assert forall x :: x in Resumed(r, side) <==> x in Resumed(b, side) && x != t;
    }
  }

  /** Deleting a caller keeps the invariant if and only if the caller was not resumed to take a chance that a sleeping
      thread of its side is then missing. */
  lemma DeletionKeepsWakeupsIff(b: Box, t: Tid)
    requires BoxInv(b) && t in b.calls
    ensures var side := b.calls[t].side;
            BoxInv(WithoutCaller(b, t)) <==>
              (t in Resumed(b, side) && Waiters(b.k, ListOf(b, side)) != [] ==> Chances(b.ring, side) < |Resumed(b, side)|)
  {
    hide Inv, Close, OnItsWay;
    var side, r := b.calls[t].side, WithoutCaller(b, t);
    CloseKeeps(b.k, t);
    StepListKeys(b.k, DoClose(t));
    DeletionView(b, t, RECV);
    DeletionView(b, t, SEND);
    CallerLeftCalls(b, r, t);
    SmallerAfterRemoval(Resumed(b, side), t);
    SmallerAfterRemoval(Resumed(b, Opposite(side)), t);
    DeletionChances(b, r, t, side);
    DeletionChances(b, r, t, Opposite(side));
    SidesAreTwo(side, RECV);
    SidesAreTwo(side, SEND);
  }

  lemma DeletionChances(b: Box, r: Box, t: Tid, side: Side)
    requires BoxInv(b) && r == b.(k := r.k, calls := b.calls - {t}) && t in b.calls && CallerLeft(b, r, t, side)
    requires Resumed(r, side) == Resumed(b, side) - {t}
    ensures t !in Resumed(b, side) ==> NoLostWakeup(r, side)
    ensures t in Resumed(b, side) ==> Waiters(r.k, ListOf(r, side)) == Waiters(b.k, ListOf(b, side)) && b.calls[t].side == side
  {
    hide Inv, OnItsWay;
    SmallerAfterRemoval(Resumed(b, side), t);
    if t !in Resumed(b, side) && Waiters(r.k, ListOf(r, side)) != [] {
      assert Waiters(r.k, ListOf(r, side))[0] in Waiters(b.k, ListOf(b, side));
    }
  }

  /** Two receivers sleep, a mail is sent and resumes the first, and the first is deleted before it runs: the mail is
      there, the second receiver sleeps, and nobody is on the way. */
  lemma DeletedReceiverLosesWakeup(b: Box, m: Mail)
    requires BoxInv(b) && b.ring.entry == 0 < b.ring.size && |Waiters(b.k, b.recvList)| > 1 && Resumed(b, RECV) == {}
    ensures var r, t := Transfer(b, SEND, m).0, Waiters(b.k, b.recvList)[0];
            && BoxInv(r) && t in r.calls && !BoxInv(WithoutCaller(r, t))
            && var d := WithoutCaller(r, t);
            && d.ring.entry == 1 && Waiters(d.k, b.recvList) == Waiters(b.k, b.recvList)[1..] && Resumed(d, RECV) == {}
  {
    var r, t := Transfer(b, SEND, m).0, Waiters(b.k, b.recvList)[0];
    TransferKeeps(b, SEND, m);
    WokenIsFirstLeft(b, RECV);
    FirstLeftResumed(b, Woken(b, RECV), RECV, t);
    SameResumed(Woken(b, RECV), r);
    assert Resumed(r, RECV) == {t};
    DeletionView(r, t, RECV);
    DeletionView(r, t, SEND);
    CallerLeftCalls(r, WithoutCaller(r, t), t);
    DeletionKeepsWakeupsIff(r, t);
  }

  // ---------- the mailbox object ----------

  class MailboxObject {
    const kernel: Kernel
    const recvList: nat
    const sendList: nat
    const flag: Flag
    const msgPool: array<Mail>
    var entry: nat
    var inOffset: nat
    var outOffset: nat
    ghost var calls: map<Tid, Call>
    ghost var sent: seq<Mail>
    ghost var received: seq<Mail>

    ghost function State(): Box
      reads this, kernel, msgPool
    {
      Box(kernel.State(), recvList, sendList, flag, Ring(msgPool.Length, msgPool[..], entry, inOffset, outOffset), calls, sent, received)
    }

    ghost predicate Valid()
      reads this, kernel, kernel.readyTable, msgPool
    {
      kernel.Valid() && BoxInv(State()) && msgPool as object != kernel.readyTable
    }

    /** rt_mb_init on lists nobody waits on. */
    constructor (kernel: Kernel, recvList: nat, sendList: nat, flag: Flag, msgPool: array<Mail>)
      requires kernel.Valid() && WaitList(recvList) in kernel.lists && WaitList(sendList) in kernel.lists
      requires recvList != sendList && kernel.lists[WaitList(recvList)] == [] && kernel.lists[WaitList(sendList)] == []
      requires msgPool as object != kernel.readyTable
      ensures Valid() && Fresh(State()) && this.kernel == kernel && this.msgPool == msgPool
    {
      this.kernel, this.recvList, this.sendList, this.flag, this.msgPool := kernel, recvList, sendList, flag, msgPool;
      entry, inOffset, outOffset := 0, 0, 0;
      calls, sent, received := map[], [], [];
      new;
      FreshInv(State());
    }

    /** Stores a mail and wakes a receiver. */
    method Store(value: Mail)
      requires Valid() && entry < msgPool.Length
      modifies this, kernel, kernel.readyTable, msgPool
      ensures Valid() && State() == Transfer(old(State()), SEND, value).0
    {
      hide Inv, CallsOk, NoLostWakeup, BitmapOk;
      TransferKeeps(State(), SEND, value);
      PutInPool(value);
      sent := sent + [value];
      if kernel.lists[WaitList(recvList)] != [] {
        kernel.ResumeFirst(recvList);
      }
    }

    ghost function RingState(): Ring
      reads this, msgPool
    {
      Ring(msgPool.Length, msgPool[..], entry, inOffset, outOffset)
    }

    method PutInPool(value: Mail)
      requires RingOk(RingState()) && entry < msgPool.Length
      modifies this`inOffset, this`entry, msgPool
      ensures RingState() == PutMail(old(RingState()), value)
    {
      RingOffsets(RingState());
      msgPool[inOffset] := value;
      inOffset := inOffset + 1;
      if inOffset >= msgPool.Length {
        inOffset := 0;
      }
      entry := entry + 1;
    }

    method TakeFromPool() returns (value: Mail)
      requires RingOk(RingState()) && entry > 0
      modifies this`outOffset, this`entry
      ensures value == old(msgPool[outOffset]) && RingState() == GetMail(old(RingState()))
    {
      value := msgPool[outOffset];
      outOffset := outOffset + 1;
      if outOffset >= msgPool.Length {
        outOffset := 0;
      }
      entry := entry - 1;
    }

    /** Takes the oldest mail out and wakes a sender. */
    method Fetch() returns (value: Mail)
      requires Valid() && entry > 0
      modifies this, kernel, kernel.readyTable
      ensures Valid() && (State(), DONE(value)) == Transfer(old(State()), RECV, 0)
    {
      hide Inv, CallsOk, NoLostWakeup, BitmapOk;
      TransferKeeps(State(), RECV, 0);
      value := TakeFromPool();
      received := received + [value];
      if kernel.lists[WaitList(sendList)] != [] {
        kernel.ResumeFirst(sendList);
      }
      assert State() == Transfer(old(State()), RECV, 0).0;
    }

    /** rt_mb_send_wait from its start to its first rt_schedule or its end. */
    method SendWait(value: Mail, timeout: int) returns (result: Result)
      requires Valid() && BoxEnabled(State(), Enter(SEND, value, timeout))
      modifies this, kernel, kernel.readyTable, msgPool
      ensures Valid() && (State(), result) == BoxStep(old(State()), Enter(SEND, value, timeout))
    {
      if entry == msgPool.Length && timeout == 0 {
        return REFUSED(EFULL);
      }
      if entry == msgPool.Length {
        SleepOn(SEND, value, timeout > 0);
        return ASLEEP;
      }
      Store(value);
      return DONE(value);
    }

    /** rt_mb_recv from its start to its first rt_schedule or its end. */
    method Receive(timeout: int) returns (result: Result)
      requires Valid() && BoxEnabled(State(), Enter(RECV, 0, timeout))
      modifies this, kernel, kernel.readyTable
      ensures Valid() && (State(), result) == BoxStep(old(State()), Enter(RECV, 0, timeout))
    {
      if entry == 0 && timeout == 0 {
        return REFUSED(ETIMEOUT);
      }
      if entry == 0 {
        SleepOn(RECV, 0, timeout > 0);
        return ASLEEP;
      }
      var value := Fetch();
      return DONE(value);
    }

    /** The suspending part of either loop. */
    method SleepOn(side: Side, m: Mail, timed: bool)
      requires Valid() && Running(kernel.State()) && Chances(State().ring, side) <= 0
      requires kernel.current.value in calls ==> calls[kernel.current.value].side == side
      modifies this, kernel, kernel.readyTable
      ensures Valid() && State() == FallAsleep(old(State()), side, m, timed).0
    {
      hide Inv, CallsOk, NoLostWakeup, BitmapOk;
      FallAsleepKeeps(State(), side, m, timed);
      kernel.BlockOn(if side == RECV then recvList else sendList, flag, timed);
      calls := calls[kernel.current.value := Call(side, m)];
      assert State() == FallAsleep(old(State()), side, m, timed).0;
    }

    /** rt_mb_send_wait from the return of its rt_schedule, with the mail it carries and the time left. */
    method SendGoesOn(value: Mail, timeout: int) returns (result: Result)
      requires Valid() && BoxEnabled(State(), Again(timeout)) && calls[kernel.current.value] == Call(SEND, value)
      modifies this, kernel, kernel.readyTable, msgPool
      ensures Valid() && (State(), result) == BoxStep(old(State()), Again(timeout))
    {
      hide Inv, CallsOk, NoLostWakeup, BitmapOk;
      var thread := kernel.current.value;
      AgainKeeps(State(), timeout);
      if kernel.threads[thread].error != EOK {
        calls := calls - {thread};
        return REFUSED(kernel.threads[thread].error);
      }
      if entry == msgPool.Length {
        if timeout == 0 {
          calls := calls - {thread};
          return REFUSED(EFULL);
        }
        SleepOn(SEND, value, timeout > 0);
        return ASLEEP;
      }
      Store(value);
      calls := calls - {thread};
      return DONE(value);
    }

    /** rt_mb_recv from the return of its rt_schedule, with the time left. */
    method ReceiveGoesOn(timeout: int) returns (result: Result)
      requires Valid() && BoxEnabled(State(), Again(timeout)) && calls[kernel.current.value] == Call(RECV, 0)
      modifies this, kernel, kernel.readyTable
      ensures Valid() && (State(), result) == BoxStep(old(State()), Again(timeout))
    {
      hide Inv, CallsOk, NoLostWakeup, BitmapOk;
      var thread := kernel.current.value;
      AgainKeeps(State(), timeout);
      if kernel.threads[thread].error != EOK {
        calls := calls - {thread};
        return REFUSED(kernel.threads[thread].error);
      }
      if entry == 0 {
        if timeout == 0 {
          kernel.SetError(thread, ETIMEOUT);
          calls := calls - {thread};
          return REFUSED(ETIMEOUT);
        }
        SleepOn(RECV, 0, timeout > 0);
        return ASLEEP;
      }
      var value := Fetch();
      calls := calls - {thread};
      return DONE(value);
    }

    /** RT_IPC_CMD_RESET up to its rt_schedule. */
    method ResetBox()
      requires Valid()
      modifies this, kernel, kernel.readyTable
      ensures Valid() && State() == BoxStep(old(State()), Reset).0
    {
      hide Inv, CallsOk, NoLostWakeup, BitmapOk;
      ResetKeeps(State());
      WakeBoth();
      entry := 0;
      inOffset := 0;
      outOffset := 0;
      sent := [];
      received := [];
      assert State() == BoxStep(old(State()), Reset).0;
    }

    /** Resumes all receivers, then all senders. */
    method WakeBoth()
      requires kernel.Valid() && WaitList(recvList) in kernel.lists && WaitList(sendList) in kernel.lists
      modifies kernel, kernel.readyTable
      ensures kernel.Valid() && kernel.State() == WakeAll(WakeAll(old(kernel.State()), recvList), sendList)
    {
      kernel.ResumeAll(recvList);
      kernel.ResumeAll(sendList);
    }
  }
}
