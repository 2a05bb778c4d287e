/** What the calls of a semaphore come to, as equations on its whole state. */
module SemaphoreLaws {
  import opened Scheduler
  import opened Threads
  import opened Steps
  import opened Scheduling
  import opened Semaphore

  /** A take lowers a positive value; at zero it fails if it may not wait, and otherwise sleeps, in the place that the flag
      of the semaphore says. */
  lemma TakeIs(s: SemSys, time: int)
    requires SemInv(s) && SemEnabled(s, Take(time))
    ensures var (r, result) := TakeStep(s, time);
            if s.value > 0 then r == s.(value := s.value - 1, grants := s.grants + 1) && result == TAKEN
            else if time == 0 then r == s && result == TIMEDOUT
            else
              && r == s.(k := r.k) && result == WAITING
              && s.k.current.value in s.k.threads && (forall t <- Waiters(s.k, s.id) :: t in s.k.threads)
              && WentToSleep(s.k, r.k, s.id, s.flag, time > 0)
  {
    if s.value == 0 && time != 0 {
      BlockIs(s.k, s.id, s.flag, time > 0);
    }
  }

  /** A release raises the value by one, within 16 bits, if nobody waits; otherwise the first waiter is resumed and the
      value stays. */
  lemma ReleaseIs(s: SemSys)
    requires SemInv(s)
    ensures var r := ReleaseStep(s);
            && (forall t <- Waiters(s.k, s.id) :: t in s.k.threads) && FirstWoke(s.k, r.k, s.id)
            && r.value == (if Waiters(s.k, s.id) != [] then s.value else if s.value == 65535 then 0 else s.value + 1)
            && r == s.(k := r.k, value := r.value, releases := s.releases + 1,
                       grants := if Waiters(s.k, s.id) != [] then s.grants + 1 else s.grants)
  {
    WakeFirstIs(s.k, s.id);
  }

  /** A reset sends all waiters away with an error and sets the value, cut to 16 bits. */
  lemma ResetIs(s: SemSys, v: nat)
    requires SemInv(s)
    ensures var r := ResetStep(s, v);
            && (forall t <- Waiters(s.k, s.id) :: t in s.k.threads) && AllWoke(s.k, r.k, s.id)
            && r.value < 0x1_0000 && (exists n: nat :: v == n * 0x1_0000 + r.value)
            && r == s.(k := r.k, value := r.value, base := r.value, releases := 0, grants := 0, strays := 0)
  {
    WakeAllIs(s.k, s.id);
    assert v == (v / WORD16) * 0x1_0000 + v % WORD16;
  }
}
