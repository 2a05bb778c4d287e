/** What the sections of the message queue calls come to: which node moves where, and who is woken or sleeps. */
module MessageLaws {
  import opened Seqs
  import opened Scheduler
  import opened Threads
  import opened Steps
  import opened Scheduling
  import opened Mailbox
  import opened MailboxLaws
  import opened MessageReceivers
  import MQ = MessageQueue

  /** Each section moves one node: from the head of the free list to the sender, from there to the tail of the queue or, if
      it is urgent, to its head, from the head of the queue to the receiver, and from there to the head of the free
      list. The copy stores the message. A reset empties the queue onto the free list, where the last one is in front. */
  lemma NodesMove(p: MQ.Pool, op: MQ.Op)
    requires MQ.Conserved(p) && MQ.Enabled(p, op)
    ensures var r := MQ.Step(p, op);
            match op
            case TakeFree =>
              exists n: nat :: p.free == [n] + r.free && r == p.(free := r.free, sending := p.sending + {n})
            case Fill(n, m) => r == p.(data := r.data) && |r.data| == |p.data| && r.data[n] == m
                               && forall i: nat | i < |p.data| && i != n :: r.data[i] == p.data[i]
            case LinkLast(n) => r == p.(queue := p.queue + [n], sending := r.sending) && r.sending + {n} == p.sending && n !in r.sending
            case LinkFirst(n) => r == p.(queue := [n] + p.queue, sending := r.sending) && r.sending + {n} == p.sending && n !in r.sending
            case TakeFirst =>
              exists n: nat :: p.queue == [n] + r.queue && r == p.(queue := r.queue, receiving := p.receiving + {n})
            case GiveBack(n) =>
              r == p.(free := [n] + p.free, receiving := r.receiving) && r.receiving + {n} == p.receiving && n !in r.receiving
            case Reset =>
              && r == p.(free := r.free, queue := []) && |r.free| == |p.queue| + |p.free|
              && (forall i | 0 <= i < |p.queue| :: r.free[|p.queue| - 1 - i] == p.queue[i])
              && r.free[|p.queue|..] == p.free
  {
    match op
    case TakeFree => assert p.free == [p.free[0]] + p.free[1..];
    case TakeFirst => assert p.queue == [p.queue[0]] + p.queue[1..];
    case Reset => ReverseTurns(p.queue);
    case _ =>
  }

  lemma {:induction false} ReverseTurns(q: seq<nat>)
    ensures |MQ.Reverse(q)| == |q| && forall i | 0 <= i < |q| :: MQ.Reverse(q)[|q| - 1 - i] == q[i]
  {
    if q != [] {
      ReverseTurns(q[1..]);
      forall i | 0 <= i < |q|
        ensures MQ.Reverse(q)[|q| - 1 - i] == q[i]
      {
        assert i > 0 ==> q[i] == q[1..][i - 1] && MQ.Reverse(q)[|q| - 1 - i] == MQ.Reverse(q[1..])[|q| - 1 - i];
      }
    }
  }

  /** The second section of a send links its node and resumes the first sleeping receiver. */
  lemma LinkIs(q: Mq, node: nat, urgent: bool)
    requires MqInv(q) && MqEnabled(q, Link(node, urgent))
    ensures var r := MqStep(q, Link(node, urgent));
            && r.pool.queue == (if urgent then [node] + q.pool.queue else q.pool.queue + [node])
            && r.pool == q.pool.(queue := r.pool.queue, sending := q.pool.sending - {node})
            && r.box.calls == q.box.calls
            && (forall t <- Waiters(q.box.k, q.box.recvList) :: t in q.box.k.threads) && FirstWoke(q.box.k, r.box.k, q.box.recvList)
  {
    hide BoxInv, FirstWoke, Contents;
    QueueHasRoom(q.pool, node);
    SendIs(q.box, 0, 0);
  }

  /** The outcome of a receive that waits or goes on: the first node is taken exactly if there is one and no error has
      ended the sleep; otherwise the caller leaves with an error, or sleeps. */
  ghost predicate ReceiveComesTo(q: Mq, r: Mq, ended: bool, timeout: int, m: Mail)
    requires MqInv(q)
  {
    if !ended && q.pool.queue != [] then
      && r.pool == q.pool.(queue := q.pool.queue[1..], receiving := q.pool.receiving + {q.pool.queue[0]})
    else
      && r.pool == q.pool
      && (!ended && timeout != 0 ==> Running(q.box.k) && Slept(q.box, r.box, RECV, m, timeout > 0))
      && (ended || timeout == 0 ==> forall v: nat :: Waiters(r.box.k, v) == Waiters(q.box.k, v))
  }

  lemma ReceiveFromStart(q: Mq, timeout: int)
    requires MqInv(q) && MqEnabled(q, Receive(timeout))
    ensures ReceiveComesTo(q, MqStep(q, Receive(timeout)), false, timeout, 0)
  {
    hide BoxInv, Slept, Contents;
    ReceiveIs(q.box, 0, timeout);
  }

  lemma ReceiveGoingOn(q: Mq, timeout: int)
    requires MqInv(q) && MqEnabled(q, GoOn(timeout))
    ensures var c := q.box.k.current.value;
            ReceiveComesTo(q, MqStep(q, GoOn(timeout)), q.box.k.threads[c].error != EOK, timeout, q.box.calls[c].mail)
  {
    hide BoxInv, Slept, Contents;
    AgainIs(q.box, timeout);
  }

  /** A reset gives all queued nodes back and sends all receivers away with an error. */
  lemma ClearIs(q: Mq)
    requires MqInv(q)
    ensures MqEnabled(q, Clear)
    ensures var r := MqStep(q, Clear);
            && r.pool.queue == [] && r.pool == MQ.Step(q.pool, MQ.Reset)
            && (forall t <- Waiters(q.box.k, q.box.recvList) :: t in q.box.k.threads)
            && exists k: Sched ::
                 && AllWoke(q.box.k, k, q.box.recvList)
                 && (forall t <- Waiters(k, q.box.sendList) :: t in k.threads) && AllWoke(k, r.box.k, q.box.sendList)
  {
    hide BoxInv, AllWoke, Contents;
    ResetIs(q.box);
  }

  /** Anything else in the kernel leaves the nodes alone, and a section that concerns no receiver the kernel. */
  lemma OthersLeave(q: Mq, op: MqOp)
    requires MqInv(q) && MqEnabled(q, op)
    ensures op.Elsewhere? ==> MqStep(q, op).pool == q.pool && MqStep(q, op).box.k == Apply(q.box.k, op.a)
    ensures op.Local? ==> MqStep(q, op).box == q.box && MqStep(q, op).pool == MQ.Step(q.pool, op.op)
  {
  }
}
