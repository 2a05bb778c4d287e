/** What the calls of an event group come to, as equations on its whole state. */
module EventLaws {
  import opened Bits
  import opened Seqs
  import opened Scheduler
  import opened Threads
  import opened Steps
  import opened Scheduling
  import opened Event

  /** A waiter for all its bits needs each of them, one for any of them needs one. */
  predicate Meets(w: Want, events: nat) {
    if w.isAnd then And(w.events, events) == w.events else w.isOr && And(w.events, events) != 0
  }

  /** The elements of q that are in s, and those that are not, in order. */
  function Part(q: seq<Tid>, s: set<Tid>): seq<Tid> {
    if q == [] then [] else (if q[0] in s then [q[0]] else []) + Part(q[1..], s)
  }

  function Rest(q: seq<Tid>, s: set<Tid>): seq<Tid> {
    if q == [] then [] else (if q[0] in s then [] else [q[0]]) + Rest(q[1..], s)
  }

  lemma {:induction false} RestOfOneMore(q: seq<Tid>, t: Tid, s: set<Tid>)
    ensures Rest(q, {t} + s) == Rest(Without(q, t), s)
  {
    if q != [] {
      RestOfOneMore(q[1..], t, s);
      assert q[0] != t ==> Without(q, t)[1..] == Without(q[1..], t);
    }
  }

  lemma {:induction false} RestOfNothing(q: seq<Tid>)
    ensures Rest(q, {}) == q
  {
    if q != [] {
      RestOfNothing(q[1..]);
    }
  }

  lemma {:induction false} PartOfOthers(q: seq<Tid>, t: Tid, s: set<Tid>)
    requires t !in q
    ensures Part(q, {t} + s) == Part(q, s)
  {
    if q != [] {
      PartOfOthers(q[1..], t, s);
    }
  }

  /** The walk of a send along the waiters q. Words are the event bits before each visit and after the last. A waiter
      whose wish the bits meet is released with those of its bits that are set, and takes them away if it clears; any
      other stays as it is, and so do the bits. */
  ghost predicate Walked(q: seq<Tid>, wants: map<Tid, Want>, words: seq<nat>, released: set<Tid>, wants': map<Tid, Want>) {
    && |words| == |q| + 1
    && forall i | 0 <= i < |q| ::
         && q[i] in wants && q[i] in wants'
         && Visited(wants[q[i]], words[i], words[i + 1], q[i] in released, wants'[q[i]])
  }

  predicate Visited(w: Want, events: nat, events': nat, released: bool, w': Want) {
    && (released <==> Meets(w, events))
    && w' == (if released then w.(events := And(w.events, events)) else w)
    && events' == if released && w.clear then AndNot(events, And(w.events, events)) else events
  }

  lemma VisitedOne(w: Want, events: nat)
    ensures Visited(w, events, BitsAfter(w, events), Satisfied(w, events), WantAfter(w, events))
  {
  }

  /** The released waiters are ready with their timers stopped, queued in the order of the list, and nothing else has
      changed in the kernel. */
  ghost predicate Released(s: Sched, r: Sched, w: nat, q: seq<Tid>, released: set<Tid>)
  {
    && r.threads.Keys == s.threads.Keys
    && (forall t <- s.threads :: t in r.threads
          && r.threads[t] == if t in released then s.threads[t].(stat := READY, timer := false) else s.threads[t])
    && (forall v: nat :: Waiters(r, v) == if v == w then Rest(Waiters(s, w), released) else Waiters(s, v))
    && (forall p: nat :: Queue(r, p) == Queue(s, p) + OfPriority(s, Part(q, released), p))
    && r.current == s.current && r.lists.Keys == s.lists.Keys && r.priorityMax == s.priorityMax
    && r.lockNest == s.lockNest && r.limbo == s.limbo
  }

  lemma {:induction false} TraverseIs(g: Group, q: seq<Tid>) returns (words: seq<nat>, released: set<Tid>)
    requires GroupOk(g) && NoDup(q) && forall t <- q :: t in Waiters(g.k, g.id)
    ensures var r := Traverse(g, q);
            && Walked(q, g.wants, words, released, r.wants) && words[0] == g.events && words[|q|] == r.events
            && Released(g.k, r.k, g.id, q, released) && (forall t <- released :: t in q)
            && r.wants.Keys == g.wants.Keys && forall t <- g.wants | t !in q :: r.wants[t] == g.wants[t]
    decreases |q|
  {
    hide PlacedRight, ListsOk, WantsOk, BitsAfter, WantAfter, Satisfied, Released, Walked;
    if q == [] {
      words, released := [g.events], {};
      NothingReleased(g, words);
    } else {
      VisitKeeps(g, q);
      var g1, t := Visit(g, q[0]), q[0];
      assert t in Waiters(g.k, g.id) && t !in q[1..];
      words, released := TraverseIs(g1, q[1..]);
      assert Traverse(g, q) == Traverse(g1, q[1..]);
      OneMoreWord(g, q, words, released, Traverse(g, q).wants);
      if Satisfied(g.wants[t], g.events) {
        WaiterResumed(g.k, g.id, t);
        OneMoreReleased(g.k, g1.k, Traverse(g, q).k, g.id, q, released);
        released := {t} + released;
      } else {
        NotReleased(g.k, Traverse(g, q).k, g.id, q, released);
      }
      words := [g.events] + words;
    }
  }

  lemma NothingReleased(g: Group, words: seq<nat>)
    requires |words| == 1
    ensures Released(g.k, g.k, g.id, [], {}) && Walked([], g.wants, words, {}, g.wants)
  {
    RestOfNothing(Waiters(g.k, g.id));
  }

  lemma OneMoreWord(g: Group, q: seq<Tid>, words: seq<nat>, released: set<Tid>, wants': map<Tid, Want>)
    requires q != [] && q[0] !in q[1..] && q[0] in g.wants && q[0] !in released
    requires var w := g.wants[q[0]];
             && Walked(q[1..], g.wants[q[0] := WantAfter(w, g.events)], words, released, wants')
             && words[0] == BitsAfter(w, g.events) && q[0] in wants' && wants'[q[0]] == WantAfter(w, g.events)
    ensures Walked(q, g.wants, [g.events] + words, if Satisfied(g.wants[q[0]], g.events) then {q[0]} + released else released, wants')
  {
    hide Visited, BitsAfter, WantAfter, Satisfied;
    var w := g.wants[q[0]];
    VisitedOne(w, g.events);
    forall i | 0 < i < |q|
      ensures q[i] == q[1..][i - 1] && q[i] != q[0] && ([g.events] + words)[i] == words[i - 1] && ([g.events] + words)[i + 1] == words[i]
    {
      assert q[i] in q[1..];
    }
  }

  lemma OneMoreReleased(s: Sched, s1: Sched, r: Sched, w: nat, q: seq<Tid>, released: set<Tid>)
    requires q != [] && q[0] !in q[1..] && q[0] in s.threads && q[0] !in released && (forall t <- released :: t in q[1..])
    requires WaiterLeft(s, s1, w, q[0], s.threads[q[0]].error) && Released(s1, r, w, q[1..], released)
    ensures Released(s, r, w, q, {q[0]} + released)
  {
    hide Rest, Part, OfPriority, Queue, Waiters;
    RestOfOneMore(Waiters(s, w), q[0], released);
    forall p: nat
      ensures Queue(r, p) == Queue(s, p) + OfPriority(s, Part(q, {q[0]} + released), p)
    {
      OneMoreQueued(s, s1, q, released, p);
    }
  }

  lemma OneMoreQueued(s: Sched, s1: Sched, q: seq<Tid>, released: set<Tid>, p: nat)
    requires q != [] && q[0] !in q[1..] && q[0] in s.threads && s1.current == s.current
    requires s1.threads == s.threads[q[0] := s.threads[q[0]].(stat := READY, timer := false)]
    ensures OfPriority(s, [q[0]], p) + OfPriority(s1, Part(q[1..], released), p) == OfPriority(s, Part(q, {q[0]} + released), p)
  {
    PartOfOthers(q[1..], q[0], released);
    SameOfPriority(s, s1, Part(q[1..], released), p);
    var part := Part(q, {q[0]} + released);
    assert part == [q[0]] + Part(q[1..], released) && part[1..] == Part(q[1..], released) && [q[0]][1..] == [];
  }

  lemma NotReleased(s: Sched, r: Sched, w: nat, q: seq<Tid>, released: set<Tid>)
    requires q != [] && q[0] !in released && Released(s, r, w, q[1..], released)
    ensures Released(s, r, w, q, released)
  {
    assert Part(q, released) == Part(q[1..], released);
  }

  /** A send adds its bits and walks along the waiters in the order of the list; a send of nothing does nothing. */
  lemma SendIs(g: Group, events: nat) returns (words: seq<nat>, released: set<Tid>)
    requires GroupOk(g)
    ensures var r, q := SendStep(g, events), Waiters(g.k, g.id);
            && (events == 0 ==> r == g)
            && (events != 0 ==>
                  && Walked(q, g.wants, words, released, r.wants) && words[0] == Or(g.events, events) && words[|q|] == r.events
                  && Released(g.k, r.k, g.id, q, released) && (forall t <- released :: t in q)
                  && r.wants.Keys == g.wants.Keys && (forall t <- g.wants | t !in q :: r.wants[t] == g.wants[t])
                  && r.id == g.id && r.flag == g.flag)
  {
    hide Walked, Released, Traverse;
    if events != 0 {
      words, released := TraverseIs(g.(events := Or(g.events, events)), Waiters(g.k, g.id));
    } else {
      words, released := [], {};
    }
  }

  /** A receive of nothing fails. A receive whose wish is met yields those of its bits that are set and clears its bits
      if asked to; otherwise it fails with a timeout if it may not wait, or sleeps with its wish. The caller's error is
      reset before. */
  lemma ReceiveIs(g: Group, w: Want, timeout: int)
    requires GroupOk(g) && GroupEnabled(g, Recv(w, timeout))
    ensures var (r, result) := RecvStep(g, w, timeout);
            var c := g.k.current.value;
            var k0 := g.k.(threads := g.k.threads[c := g.k.threads[c].(error := EOK)]);
            if w.events == 0 then r == g && result == FAILED(ERROR)
            else if Meets(w, g.events) then
              && r == g.(k := k0, events := if w.clear then AndNot(g.events, w.events) else g.events)
              && result == GOT(And(g.events, w.events))
            else if timeout == 0 then
              && r == g.(k := g.k.(threads := g.k.threads[c := g.k.threads[c].(error := ETIMEOUT)]))
              && result == FAILED(ETIMEOUT)
            else
              && r == g.(k := r.k, wants := g.wants[c := w]) && result == ASLEEP
              && (forall t <- Waiters(k0, g.id) :: t in k0.threads) && WentToSleep(k0, r.k, g.id, g.flag, timeout > 0)
  {
    hide ListsOk, PlacedRight, WantsOk, Block, WentToSleep;
    if w.events != 0 {
      Event.ErrorKeeps(g.k, EOK);
      if !Meets(w, g.events) && timeout != 0 {
        BlockIs(ErrorOf(g.k, EOK), g.id, g.flag, timeout > 0);
      }
    }
  }

  /** A reset sends every waiter away with an error and clears all bits. */
  lemma ResetIs(g: Group)
    requires GroupOk(g)
    ensures var r := ResetStep(g);
            && r == g.(k := r.k, events := 0)
            && (forall t <- Waiters(g.k, g.id) :: t in g.k.threads) && AllWoke(g.k, r.k, g.id)
  {
    WakeAllIs(g.k, g.id);
  }
}
