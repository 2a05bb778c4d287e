/** What the calls of a mailbox come to, as equations on its whole state: which mail moves, who is woken, who sleeps. */
module MailboxLaws {
  import opened Options
  import opened Scheduler
  import opened Threads
  import opened Steps
  import opened Scheduling
  import opened Mailbox

  /** The mail m has been put behind all others, and the first sleeping receiver has been resumed. */
  ghost predicate Sent(b: Box, r: Box, m: Mail)
    requires BoxInv(b)
  {
    && RingOk(r.ring) && r.ring.size == b.ring.size && Contents(r.ring) == Contents(b.ring) + [m]
    && r.sent == b.sent + [m] && r.received == b.received && r.calls == b.calls
    && r.recvList == b.recvList && r.sendList == b.sendList && r.flag == b.flag
    && (forall t <- Waiters(b.k, b.recvList) :: t in b.k.threads) && FirstWoke(b.k, r.k, b.recvList)
  }

  /** The oldest mail has been taken out, and the first sleeping sender has been resumed. */
  ghost predicate Received(b: Box, r: Box, m: Mail)
    requires BoxInv(b)
  {
    && RingOk(r.ring) && r.ring.size == b.ring.size && Contents(b.ring) == [m] + Contents(r.ring)
    && r.sent == b.sent && r.received == b.received + [m] && r.calls == b.calls
    && r.recvList == b.recvList && r.sendList == b.sendList && r.flag == b.flag
    && (forall t <- Waiters(b.k, b.sendList) :: t in b.k.threads) && FirstWoke(b.k, r.k, b.sendList)
  }

  /** The caller sleeps on this side's list, with the mail it carries. */
  ghost predicate Slept(b: Box, r: Box, side: Side, m: Mail, timed: bool)
    requires BoxInv(b) && Running(b.k)
  {
    var c, w := b.k.current.value, if side == RECV then b.recvList else b.sendList;
    && r == b.(k := r.k, calls := b.calls[c := Call(side, m)])
    && c in b.k.threads && (forall t <- Waiters(b.k, w) :: t in b.k.threads) && WentToSleep(b.k, r.k, w, b.flag, timed)
  }

  lemma TransferIs(b: Box, side: Side, m: Mail)
    requires BoxInv(b) && Chances(b.ring, side) > 0
    ensures var (r, result) := Transfer(b, side, m);
            && result.DONE?
            && (side == SEND ==> Sent(b, r, m) && result.mail == m)
            && (side == RECV ==> Received(b, r, result.mail) && result.mail == Contents(b.ring)[0])
  {
    hide Inv, FirstWoke, CallsOk, NoLostWakeup, WakeFirst;
    TransferDelivers(b, side, m);
    WakeFirstIs(b.k, ListOf(b, Opposite(side)));
  }

  lemma SleepIs(b: Box, side: Side, m: Mail, timed: bool)
    requires BoxInv(b) && Running(b.k)
    ensures Slept(b, FallAsleep(b, side, m, timed).0, side, m, timed) && FallAsleep(b, side, m, timed).1 == ASLEEP
  {
    hide Inv, WentToSleep, CallsOk, NoLostWakeup, Block;
    BlockIs(b.k, ListOf(b, side), b.flag, timed);
  }

  /** A send that finds room stores the mail it was called with. With no room it is refused at once if it may not wait,
      with the error of a full mailbox, and otherwise sleeps with its mail. */
  lemma SendIs(b: Box, m: Mail, timeout: int)
    requires BoxInv(b) && BoxEnabled(b, Enter(SEND, m, timeout))
    ensures var (r, result) := BoxStep(b, Enter(SEND, m, timeout));
            if b.ring.entry < b.ring.size then Sent(b, r, m) && result == DONE(m)
            else if timeout == 0 then r == b && result == REFUSED(EFULL)
            else Slept(b, r, SEND, m, timeout > 0) && result == ASLEEP
  {
    hide Sent, Slept, Transfer, FallAsleep;
    if b.ring.entry < b.ring.size {
      TransferIs(b, SEND, m);
    } else if timeout != 0 {
      SleepIs(b, SEND, m, timeout > 0);
    }
  }

  /** A receive yields the oldest mail if there is one; else it is refused with a timeout, or sleeps. */
  lemma ReceiveIs(b: Box, m: Mail, timeout: int)
    requires BoxInv(b) && BoxEnabled(b, Enter(RECV, m, timeout))
    ensures var (r, result) := BoxStep(b, Enter(RECV, m, timeout));
            if Contents(b.ring) != [] then Received(b, r, Contents(b.ring)[0]) && result == DONE(Contents(b.ring)[0])
            else if timeout == 0 then r == b && result == REFUSED(ETIMEOUT)
            else Slept(b, r, RECV, m, timeout > 0) && result == ASLEEP
  {
    hide Received, Slept, Transfer, FallAsleep;
    if b.ring.entry > 0 {
      TransferIs(b, RECV, m);
    } else if timeout != 0 {
      SleepIs(b, RECV, m, timeout > 0);
    }
  }

  /** A call that runs again after its sleep leaves with the error that ended it, if one did. Otherwise a send stores the
      mail that it went to sleep with, and a receive yields the oldest; with no room, or no mail, it is refused if no
      time is left, or sleeps again with the same mail. */
  lemma AgainIs(b: Box, timeout: int)
    requires BoxInv(b) && BoxEnabled(b, Again(timeout))
    ensures var (r, result) := BoxStep(b, Again(timeout));
            var c := b.k.current.value;
            var call, left, error := b.calls[c], b.calls - {c}, b.k.threads[c].error;
            if error != EOK then r == b.(calls := left) && result == REFUSED(error)
            else if call.side == SEND && b.ring.entry < b.ring.size then
              r.calls == left && Sent(b, r.(calls := b.calls), call.mail) && result == DONE(call.mail)
            else if call.side == RECV && Contents(b.ring) != [] then
              r.calls == left && Received(b, r.(calls := b.calls), Contents(b.ring)[0]) && result == DONE(Contents(b.ring)[0])
            else if timeout != 0 then Slept(b, r, call.side, call.mail, timeout > 0) && result == ASLEEP
            else if call.side == SEND then r == b.(calls := left) && result == REFUSED(EFULL)
            else
              && r == b.(calls := left, k := b.k.(threads := b.k.threads[c := b.k.threads[c].(error := ETIMEOUT)]))
              && result == REFUSED(ETIMEOUT)
  {
    hide Sent, Received, Slept, Transfer, FallAsleep;
    var c := b.k.current.value;
    var call := b.calls[c];
    if Chances(b.ring, call.side) > 0 {
      TransferIs(b, call.side, call.mail);
      var r := Transfer(b, call.side, call.mail).0;
      assert b.k.threads[c].error == EOK ==> BoxStep(b, Again(timeout)).0.(calls := b.calls) == r.(calls := b.calls);
      TransferKeeps(b, call.side, call.mail);
    } else if timeout != 0 {
      SleepIs(b, call.side, call.mail, timeout > 0);
    }
  }

  /** A reset sends the sleepers of both sides away with an error, receivers first, and empties the mailbox. */
  lemma ResetIs(b: Box)
    requires BoxInv(b)
    ensures var r := BoxStep(b, Reset).0;
            && RingOk(r.ring) && r.ring.size == b.ring.size && Contents(r.ring) == [] && r.sent == [] && r.received == []
            && r.calls == b.calls && r.recvList == b.recvList && r.sendList == b.sendList && r.flag == b.flag
            && (forall t <- Waiters(b.k, b.recvList) :: t in b.k.threads)
            && exists k: Sched ::
                 && AllWoke(b.k, k, b.recvList)
                 && (forall t <- Waiters(k, b.sendList) :: t in k.threads) && AllWoke(k, r.k, b.sendList)
  {
    hide Inv, AllWoke, CallsOk, NoLostWakeup;
    WakeAllIs(b.k, b.recvList);
    WakeAllIs(WakeAll(b.k, b.recvList), b.sendList);
    var k := WakeAll(b.k, b.recvList);
    assert AllWoke(b.k, k, b.recvList);
    assert BoxStep(b, Reset).0.k == WakeAll(k, b.sendList);
  }
}
