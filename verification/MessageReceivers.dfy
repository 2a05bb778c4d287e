/** The receivers that wait on a message queue. The nodes are those of MessageQueue, and the suspend list is the
    receiving side of a mailbox that nobody waits to send to: a send links its node and wakes a receiver in one
    section, and a receive sleeps and goes on as one from a mailbox does. */
module MessageReceivers {
  import opened Seqs
  import opened Scheduler
  import opened Threads
  import opened Mailbox
  import MessageQueue

  /** entry of the queue is the entry of the box. */
  datatype Mq = Mq(pool: MessageQueue.Pool, box: Box)

  ghost predicate MqInv(q: Mq) {
    && MessageQueue.Conserved(q.pool) && BoxInv(q.box)
    && q.box.ring.size == q.pool.size && q.box.ring.entry == |q.pool.queue|
    && forall t <- q.box.calls :: q.box.calls[t].side == RECV
  }

  /** After rt_mq_init nothing is queued and nobody waits. */
  lemma NewMqIsRight(q: Mq)
    requires MessageQueue.Conserved(q.pool) && q.pool.queue == [] && Fresh(q.box) && q.box.ring.size == q.pool.size
    ensures MqInv(q)
  {
    FreshInv(q.box);
  }

  datatype MqOp =
    | Local(op: MessageQueue.Op)               // a section that concerns no receiver
    | Link(node: nat, urgent: bool)            // the second section of rt_mq_send or rt_mq_urgent
    | Receive(timeout: int)                    // rt_mq_recv from its start, up to its rt_schedule or its first section's end
    | GoOn(timeout: int)                       // rt_mq_recv from the return of its rt_schedule, with the time left
    | Clear                                    // RT_IPC_CMD_RESET
    | Elsewhere(a: Threads.Step)               // anything else in the kernel

  function LinkOp(op: MqOp): MessageQueue.Op
    requires op.Link?
  {
    if op.urgent then MessageQueue.LinkFirst(op.node) else MessageQueue.LinkLast(op.node)
  }

  /** What the operation is to the suspend list. */
  function BoxOp(op: MqOp): Mailbox.Op
    requires !op.Local?
  {
    match op
    case Link(_, _) => Enter(SEND, 0, 0)
    case Receive(timeout) => Enter(RECV, 0, timeout)
    case GoOn(timeout) => Again(timeout)
    case Clear => Mailbox.Reset
    case Elsewhere(a) => Other(a)
  }

  predicate MqEnabled(q: Mq, op: MqOp)
    requires Shaped(q.box.k)
  {
    match op
    case Local(o) => (o.TakeFree? || o.Fill? || o.GiveBack?) && MessageQueue.Enabled(q.pool, o)
    case Link(_, _) => MessageQueue.Enabled(q.pool, LinkOp(op))
    case _ => BoxEnabled(q.box, BoxOp(op))
  }

  function MqStep(q: Mq, op: MqOp): Mq
    requires MqInv(q) && MqEnabled(q, op)
  {
    match op
    case Local(o) => q.(pool := MessageQueue.Step(q.pool, o))
    case Link(_, _) => Mq(MessageQueue.Step(q.pool, LinkOp(op)), BoxStep(q.box, BoxOp(op)).0)
    case Clear => Mq(MessageQueue.Step(q.pool, MessageQueue.Reset), BoxStep(q.box, BoxOp(op)).0)
    case Elsewhere(_) => q.(box := BoxStep(q.box, BoxOp(op)).0)
    case _ =>
      var (b, result) := BoxStep(q.box, BoxOp(op));
      Mq(if result.DONE? && q.pool.queue != [] then MessageQueue.Step(q.pool, MessageQueue.TakeFirst) else q.pool, b)
  }

  /** A node in the hands of a sender leaves room in the queue. */
  lemma QueueHasRoom(p: MessageQueue.Pool, n: nat)
    requires MessageQueue.Conserved(p) && n in p.sending
    ensures |p.queue| < p.size
  {
    AtMost(p.queue, UpTo(p.size) - {n});
  }

  lemma LinkKeeps(q: Mq, op: MqOp)
    requires MqInv(q) && op.Link? && MqEnabled(q, op)
    ensures MqInv(MqStep(q, op))
  {
    hide BoxInv, MessageQueue.Conserved;
    MessageQueue.StepConserves(q.pool, LinkOp(op));
    QueueHasRoom(q.pool, op.node);
    TransferKeeps(q.box, SEND, 0);
    TransferMails(q.box, SEND, 0);
  }

  lemma ReceiveKeeps(q: Mq, op: MqOp)
    requires MqInv(q) && (op.Receive? || op.GoOn?) && MqEnabled(q, op)
    ensures MqInv(MqStep(q, op))
  {
    hide BoxInv, MessageQueue.Conserved;
    BoxStepKeeps(q.box, BoxOp(op));
    if q.box.ring.entry > 0 {
      TransferMails(q.box, RECV, 0);
      MessageQueue.StepConserves(q.pool, MessageQueue.TakeFirst);
    }
  }

  lemma MqStepKeeps(q: Mq, op: MqOp)
    requires MqInv(q) && MqEnabled(q, op)
    ensures MqInv(MqStep(q, op))
  {
    match op
    case Local(o) => MessageQueue.StepConserves(q.pool, o);
    case Link(_, _) => LinkKeeps(q, op);
    case Clear =>
      MessageQueue.StepConserves(q.pool, MessageQueue.Reset);
      BoxStepKeeps(q.box, BoxOp(op));
    case Elsewhere(_) => BoxStepKeeps(q.box, BoxOp(op));
    case _ => ReceiveKeeps(q, op);
  }

  ghost predicate MqRuns(q: Mq, ops: seq<MqOp>)
    requires MqInv(q)
    decreases |ops|
  {
    ops != [] ==> MqEnabled(q, ops[0]) && (MqStepKeeps(q, ops[0]); MqRuns(MqStep(q, ops[0]), ops[1..]))
  }

  function MqRun(q: Mq, ops: seq<MqOp>): (r: Mq)
    requires MqInv(q) && MqRuns(q, ops)
    ensures MqInv(r)
    decreases |ops|
  {
    if ops == [] then q else MqStepKeeps(q, ops[0]); MqRun(MqStep(q, ops[0]), ops[1..])
  }

  /** No wake-up is lost: however the sections of senders and receivers interleave, with timeouts and resets, while a
      receiver sleeps there are at most as many messages as receivers on their way to take them. */
  lemma NoMessageIsOverslept(q: Mq, ops: seq<MqOp>)
    requires MqInv(q) && MqRuns(q, ops)
    ensures var r := MqRun(q, ops);
            && (Waiters(r.box.k, r.box.recvList) != [] ==> |r.pool.queue| <= |Resumed(r.box, RECV)|)
            && forall t <- Resumed(r.box, RECV) :: OnItsWay(r.box.k, t)
  {
    var r := MqRun(q, ops);
    assert NoLostWakeup(r.box, RECV) && CallsOk(r.box);
  }

  /** What a receive comes to: it takes the first node exactly when the queue is not empty and no timeout or reset has
      ended its sleep; it fails with no time left, or with the error its sleep ended with, and takes nothing; else it
      sleeps. A link puts its node in the queue and wakes the first receiver. */
  lemma ReceiveOutcome(q: Mq, op: MqOp)
    requires MqInv(q) && MqEnabled(q, op) && (op.Receive? || op.GoOn?)
    ensures var r, result := MqStep(q, op), BoxStep(q.box, BoxOp(op)).1;
            var ended := op.GoOn? && q.box.k.threads[q.box.k.current.value].error != EOK;
            && (result.DONE? <==> !ended && q.pool.queue != [])
            && (result.DONE? ==> r.pool == MessageQueue.Step(q.pool, MessageQueue.TakeFirst))
            && (!result.DONE? ==> r.pool == q.pool)
            && (result.REFUSED? <==> ended || (q.pool.queue == [] && op.timeout == 0))
  {
    CallOutcome(q.box, BoxOp(op));
  }
}
