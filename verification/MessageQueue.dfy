/** Message queues: a pool of nodes linked into a free list and a queue. A send takes a node in one critical
    section and links it in another; a receive unlinks a node in one and gives it back in another. */
module MessageQueue {
  import opened Seqs

  type Message = seq<int>

  const NULL: int := -1

  // ---------- the pool as a value ----------

  /** Which nodes are free, queued, or held by a sender or receiver between its two sections. */
  datatype Pool = Pool(size: nat, free: seq<nat>, queue: seq<nat>, sending: set<nat>, receiving: set<nat>, data: seq<Message>)

  /** Every node of the pool is in exactly one place. */
  ghost predicate Conserved(p: Pool) {
    && |p.data| == p.size && NoDup(p.free) && NoDup(p.queue)
    && (forall n: nat :: n in p.free || n in p.queue || n in p.sending || n in p.receiving <==> n < p.size)
    && (forall n <- p.free :: n !in p.queue && n !in p.sending && n !in p.receiving)
    && (forall n <- p.queue :: n !in p.sending && n !in p.receiving)
    && p.sending !! p.receiving
  }

  datatype Op =
    | TakeFree                          // first section of rt_mq_send and rt_mq_urgent
    | Fill(node: nat, m: Message)       // the copy between the sections
    | LinkLast(node: nat)               // second section of rt_mq_send
    | LinkFirst(node: nat)              // second section of rt_mq_urgent
    | TakeFirst                         // first section of rt_mq_recv once there is a message
    | GiveBack(node: nat)               // second section of rt_mq_recv
    | Reset                             // RT_IPC_CMD_RESET

  predicate Enabled(p: Pool, op: Op) {
    match op
    case TakeFree => p.free != []
    case Fill(n, _) => n in p.sending && n < |p.data|
    case LinkLast(n) => n in p.sending
    case LinkFirst(n) => n in p.sending
    case TakeFirst => p.queue != []
    case GiveBack(n) => n in p.receiving
    case Reset => true
  }

  function Reverse(q: seq<nat>): (r: seq<nat>)
    ensures |r| == |q| && forall n :: n in r <==> n in q
  {
    if q == [] then [] else Reverse(q[1..]) + [q[0]]
  }

  function Step(p: Pool, op: Op): Pool
    requires Enabled(p, op)
  {
    match op
    case TakeFree => p.(free := p.free[1..], sending := p.sending + {p.free[0]})
    case Fill(n, m) => p.(data := p.data[n := m])
    case LinkLast(n) => p.(queue := p.queue + [n], sending := p.sending - {n})
    case LinkFirst(n) => p.(queue := [n] + p.queue, sending := p.sending - {n})
    case TakeFirst => p.(queue := p.queue[1..], receiving := p.receiving + {p.queue[0]})
    case GiveBack(n) => p.(free := [n] + p.free, receiving := p.receiving - {n})
    case Reset => p.(free := Reverse(p.queue) + p.free, queue := [])
  }

  lemma {:induction false} ReverseIsDistinct(q: seq<nat>)
    requires NoDup(q)
    ensures NoDup(Reverse(q))
  {
    if q != [] {
      ReverseIsDistinct(q[1..]);
      assert q[0] !in q[1..];
      assert forall i | 0 <= i < |Reverse(q[1..])| :: Reverse(q[1..])[i] in q[1..];
    }
  }

  lemma JoinedIsDistinct(a: seq<nat>, b: seq<nat>)
    requires NoDup(a) && NoDup(b) && forall n <- a :: n !in b
    ensures NoDup(a + b)
  {
    forall i, j | 0 <= i < j < |a + b|
      ensures (a + b)[i] != (a + b)[j]
    {
      if i < |a| && |a| <= j {
        assert a[i] in a && b[j - |a|] in b;
      }
    }
  }

  /** No node is ever lost, duplicated or in two places. */
  lemma StepConserves(p: Pool, op: Op)
    requires Conserved(p) && Enabled(p, op)
    ensures Conserved(Step(p, op))
  {
    match op
    case TakeFree =>
      assert p.free == [p.free[0]] + p.free[1..] && p.free[0] !in p.free[1..];
    case Fill(n, m) =>
    case LinkLast(n) => JoinedIsDistinct(p.queue, [n]);
    case LinkFirst(n) => JoinedIsDistinct([n], p.queue);
    case TakeFirst =>
      assert p.queue == [p.queue[0]] + p.queue[1..] && p.queue[0] !in p.queue[1..];
    case GiveBack(n) => JoinedIsDistinct([n], p.free);
    case Reset =>
      ReverseIsDistinct(p.queue);
      JoinedIsDistinct(Reverse(p.queue), p.free);
  }

  // ---------- what is delivered ----------

  /** The messages queued, first to last. */
  function Pending(p: Pool): seq<Message>
    requires Conserved(p)
  {
    assert forall i | 0 <= i < |p.queue| :: p.queue[i] in p.queue;
    Contents(p.queue, p.data)
  }

  function Contents(q: seq<nat>, data: seq<Message>): (r: seq<Message>)
    requires forall i | 0 <= i < |q| :: q[i] < |data|
    ensures |r| == |q| && forall i | 0 <= i < |q| :: r[i] == data[q[i]]
  {
    if q == [] then [] else [data[q[0]]] + Contents(q[1..], data)
  }

  /** A copy into a node that is not queued does not change what is queued, a send appends, an urgent send goes
      in front, a receive takes the first, and a node being received keeps its message until it is given back. */
  lemma StepDelivers(p: Pool, op: Op)
    requires Conserved(p) && Enabled(p, op)
    ensures Conserved(Step(p, op))
    ensures Pending(Step(p, op)) ==
              match op
              case LinkLast(n) => Pending(p) + [p.data[n]]
              case LinkFirst(n) => [p.data[n]] + Pending(p)
              case TakeFirst => Pending(p)[1..]
              case Reset => []
              case _ => Pending(p)
    ensures op.TakeFirst? ==> p.data[p.queue[0]] == Pending(p)[0]
    ensures forall n <- p.receiving | n < p.size :: Step(p, op).data[n] == p.data[n]
    ensures forall n <- p.sending | n < p.size && !(op.Fill? && op.node == n) :: Step(p, op).data[n] == p.data[n]
  {
    StepConserves(p, op);
    var r := Step(p, op);
    assert forall i | 0 <= i < |p.queue| :: p.queue[i] in p.queue;
    match op
    case LinkLast(n) => assert Pending(r) == Pending(p) + [p.data[n]];
    case LinkFirst(n) => assert Pending(r) == [p.data[n]] + Pending(p);
    case TakeFirst => assert Pending(r) == Pending(p)[1..];
    case Reset =>
    case _ => assert Pending(r) == Pending(p);
  }

  ghost predicate Runs(p: Pool, ops: seq<Op>)
    decreases |ops|
  {
    ops != [] ==> Enabled(p, ops[0]) && Runs(Step(p, ops[0]), ops[1..])
  }

  function Run(p: Pool, ops: seq<Op>): Pool
    requires Runs(p, ops)
    decreases |ops|
  {
    if ops == [] then p else Run(Step(p, ops[0]), ops[1..])
  }

  /** In every interleaving of the sections of any number of senders, receivers and resets the nodes are conserved. */
  lemma {:induction false} NodesAreConserved(p: Pool, ops: seq<Op>)
    requires Conserved(p) && Runs(p, ops)
    ensures Conserved(Run(p, ops))
    decreases |ops|
  {
    if ops != [] {
      StepConserves(p, ops[0]);
      NodesAreConserved(Step(p, ops[0]), ops[1..]);
    }
  }

  /** The messages a run links, in link order, and those it takes. */
  function Linked(p: Pool, ops: seq<Op>): seq<Message>
    requires Conserved(p) && Runs(p, ops)
    decreases |ops|
  {
    if ops == [] then []
    else
      StepConserves(p, ops[0]);
      (if ops[0].LinkLast? then [p.data[ops[0].node]] else []) + Linked(Step(p, ops[0]), ops[1..])
  }

  function Taken(p: Pool, ops: seq<Op>): seq<Message>
    requires Conserved(p) && Runs(p, ops)
    decreases |ops|
  {
    if ops == [] then []
    else
      StepConserves(p, ops[0]);
      (if ops[0].TakeFirst? then [p.data[p.queue[0]]] else []) + Taken(Step(p, ops[0]), ops[1..])
  }

  /** Without urgent sends and resets, messages are taken in exactly the order in which they were linked, however
      the two sections of the sends and receives interleave. */
  lemma {:induction false} DeliveryIsLinkOrder(p: Pool, ops: seq<Op>)
    requires Conserved(p) && Runs(p, ops)
    requires forall op <- ops :: !op.LinkFirst? && !op.Reset?
    ensures Conserved(Run(p, ops))
    ensures Pending(p) + Linked(p, ops) == Taken(p, ops) + Pending(Run(p, ops))
    decreases |ops|
  {
    NodesAreConserved(p, ops);
    if ops != [] {
      var op, p' := ops[0], Step(p, ops[0]);
      assert op in ops;
      StepDelivers(p, op);
      DeliveryIsLinkOrder(p', ops[1..]);
      var l := if op.LinkLast? then [p.data[op.node]] else [];
      var t := if op.TakeFirst? then [p.data[p.queue[0]]] else [];
      assert Pending(p) + l == t + Pending(p');
      Joining(Pending(p), l, Linked(p', ops[1..]), t, Taken(p', ops[1..]), Pending(p'), Pending(Run(p, ops)));
    }
  }

  lemma Joining(a: seq<Message>, l: seq<Message>, ls: seq<Message>, t: seq<Message>, ts: seq<Message>, b: seq<Message>, c: seq<Message>)
    requires a + l == t + b && b + ls == ts + c
    ensures a + (l + ls) == (t + ts) + c
  {
    assert a + (l + ls) == (a + l) + ls;
    assert (t + b) + ls == t + (b + ls);
    assert t + (ts + c) == (t + ts) + c;
  }

  // ---------- the queue object ----------

  /** Following next from first visits q and ends at NULL. */
  ghost predicate Chain(next: seq<int>, first: int, q: seq<nat>) {
    && first == (if q == [] then NULL else q[0])
    && (forall i | 0 <= i < |q| :: q[i] < |next|)
    && forall i {:trigger next[q[i]]} | 0 <= i < |q| :: next[q[i]] == if i + 1 < |q| then q[i + 1] else NULL
  }

  /** Changing the link of a node that is not on the list. */
  lemma ChainFrame(next: seq<int>, first: int, q: seq<nat>, n: nat, v: int)
    requires Chain(next, first, q) && n !in q && n < |next|
    ensures Chain(next[n := v], first, q)
  {
    forall i | 0 <= i < |q|
      ensures q[i] < |next| && next[n := v][q[i]] == if i + 1 < |q| then q[i + 1] else NULL
    {
      assert q[i] in q;
      assert next[q[i]] == if i + 1 < |q| then q[i + 1] else NULL;
    }
  }

  lemma ChainTail(next: seq<int>, first: int, q: seq<nat>)
    requires Chain(next, first, q) && q != []
    ensures q[0] < |next| && Chain(next, next[q[0]], q[1..])
  {
    assert next[q[0]] == if 1 < |q| then q[1] else NULL;
    forall i | 0 <= i < |q[1..]|
      ensures q[1..][i] < |next| && next[q[1..][i]] == if i + 1 < |q[1..]| then q[1..][i + 1] else NULL
    {
      assert next[q[i + 1]] == if i + 2 < |q| then q[i + 2] else NULL;
    }
  }

  lemma ChainPush(next: seq<int>, first: int, q: seq<nat>, n: nat)
    requires Chain(next, first, q) && n !in q && n < |next|
    ensures Chain(next[n := first], n, [n] + q)
  {
    ChainFrame(next, first, q, n, first);
    var r, next' := [n] + q, next[n := first];
    forall i | 0 <= i < |r|
      ensures r[i] < |next'| && next'[r[i]] == if i + 1 < |r| then r[i + 1] else NULL
    {
      if i > 0 {
        assert next'[q[i - 1]] == if i < |q| then q[i] else NULL;
      }
    }
  }

  lemma ChainAppend(next: seq<int>, first: int, q: seq<nat>, n: nat)
    requires Chain(next, first, q) && NoDup(q) && n !in q && n < |next| && next[n] == NULL
    ensures q == [] ==> Chain(next, n, [n])
    ensures q != [] ==> q[|q| - 1] < |next| && Chain(next[q[|q| - 1] := n], first, q + [n])
  {
    if q != [] {
      var last := q[|q| - 1];
      assert next[q[|q| - 1]] == NULL;
      var r, next' := q + [n], next[last := n];
      assert last in q;
      forall i | 0 <= i < |r|
        ensures r[i] < |next'| && next'[r[i]] == if i + 1 < |r| then r[i + 1] else NULL
      {
        if i < |q| {
          assert next[q[i]] == if i + 1 < |q| then q[i + 1] else NULL;
        }
      }
    }
  }

  class MessageQueueObject {
    const next: array<int>
    const data: array<Message>
    var head: int
    var tail: int
    var free: int
    var entry: nat
    ghost var pool: Pool
    ghost var cleared: set<nat>      // nodes of senders that have set their next to NULL

    /** The links spell out the pool, entry is the length of the queue, and head and tail are null together. */
    ghost predicate Valid()
      reads this, next, data
    {
      && Conserved(pool) && next as object != data && next.Length == pool.size && data[..] == pool.data
      && Chain(next[..], free, pool.free) && Chain(next[..], head, pool.queue)
      && tail == (if pool.queue == [] then NULL else pool.queue[|pool.queue| - 1])
      && (head == NULL <==> tail == NULL) && entry == |pool.queue|
      && cleared <= pool.sending && forall n <- cleared :: n < pool.size && next[n] == NULL
    }

    /** The pool part of rt_mq_init. */
    constructor (maxMsgs: nat)
      ensures Valid() && fresh(next) && fresh(data)
      ensures pool.size == maxMsgs && pool.queue == [] && pool.sending == {} && pool.receiving == {} && |pool.free| == maxMsgs
    {
      next := new int[maxMsgs];
      data := new Message[maxMsgs](i => []);
      head, tail, entry := NULL, NULL, 0;
      free := NULL;
      cleared := {};
      pool := Pool(maxMsgs, [], [], {}, {}, []);
      new;
      ghost var done: seq<nat> := [];
      var temp := 0;
      while temp < maxMsgs
        invariant 0 <= temp <= maxMsgs && next.Length == maxMsgs
        invariant NoDup(done) && |done| == temp && forall n: nat :: n in done <==> n < temp
        invariant Chain(next[..], free, done)
        invariant head == tail == NULL && entry == 0 && cleared == {}
      {
        ChainPush(next[..], free, done, temp);
        ghost var before := next[..];
        next[temp] := free;
        assert next[..] == before[temp := free];
        free := temp;
        JoinedIsDistinct([temp], done);
        done := [temp] + done;
        temp := temp + 1;
      }
      pool := Pool(maxMsgs, done, [], {}, {}, data[..]);
    }

    /** First section of a send: take a free node, or find the pool exhausted. */
    method TakeFreeNode() returns (node: int)
      requires Valid()
      modifies this
      ensures Valid() && cleared == old(cleared)
      ensures node == NULL <==> old(pool.free) == []
      ensures if node == NULL then pool == old(pool) else pool == Step(old(pool), TakeFree) && node == old(pool.free)[0]
    {
      node := free;
      if node == NULL {
        return;
      }
      StepConserves(pool, TakeFree);
      ChainTail(next[..], free, pool.free);
      free := next[node];
      pool := Step(pool, TakeFree);
    }

    /** msg->next = RT_NULL, outside the sections. */
    method ClearNext(node: nat)
      requires Valid() && node in pool.sending
      modifies this`cleared, next
      ensures Valid() && pool == old(pool) && cleared == old(cleared) + {node}
    {
      ghost var before := next[..];
      ChainFrame(before, free, pool.free, node, NULL);
      ChainFrame(before, head, pool.queue, node, NULL);
      next[node] := NULL;
      assert next[..] == before[node := NULL];
      cleared := cleared + {node};
    }

    /** The copy of a message into its node, outside the sections. */
    method CopyIn(node: nat, m: Message)
      requires Valid() && node in pool.sending
      modifies this`pool, data
      ensures Valid() && pool == Step(old(pool), Fill(node, m)) && cleared == old(cleared)
    {
      ghost var before := data[..];
      data[node] := m;
      assert data[..] == before[node := m];
      pool := Step(pool, Fill(node, m));
    }

    /** Second section of rt_mq_send. */
    method LinkAtEnd(node: nat)
      requires Valid() && node in cleared
      modifies this, next
      ensures Valid() && pool == Step(old(pool), LinkLast(node)) && cleared == old(cleared) - {node}
    {
      StepConserves(pool, LinkLast(node));
      ghost var before := next[..];
      ChainAppend(before, head, pool.queue, node);
      if tail != NULL {
        assert pool.queue[|pool.queue| - 1] in pool.queue;
        ChainFrame(before, free, pool.free, tail, node);
        next[tail] := node;
        assert next[..] == before[tail := node];
      }
      tail := node;
      if head == NULL {
        head := node;
      }
      entry := entry + 1;
      cleared := cleared - {node};
      pool := Step(pool, LinkLast(node));
    }

    /** Second section of rt_mq_urgent. */
    method LinkAtFront(node: nat)
      requires Valid() && node in pool.sending
      modifies this, next
      ensures Valid() && pool == Step(old(pool), LinkFirst(node)) && cleared == old(cleared) - {node}
    {
      StepConserves(pool, LinkFirst(node));
      ghost var before := next[..];
      ChainPush(before, head, pool.queue, node);
      ChainFrame(before, free, pool.free, node, head);
      next[node] := head;
      assert next[..] == before[node := head];
      head := node;
      if tail == NULL {
        tail := node;
      }
      entry := entry + 1;
      cleared := cleared - {node};
      pool := Step(pool, LinkFirst(node));
    }

    /** First section of rt_mq_recv once there is a message: unlink the first node. */
    method TakeFirstNode() returns (node: nat)
      requires Valid() && entry > 0
      modifies this
      ensures Valid() && cleared == old(cleared)
      ensures pool == Step(old(pool), TakeFirst) && node == old(pool.queue)[0]
    {
      StepConserves(pool, TakeFirst);
      ChainTail(next[..], head, pool.queue);
      node := head;
      head := next[node];
      if tail == node {
        tail := NULL;
      }
      entry := entry - 1;
      pool := Step(pool, TakeFirst);
    }

    /** The copy out, outside the sections: what was queued first when the node was taken. */
    method CopyOut(node: nat) returns (m: Message)
      requires Valid() && node in pool.receiving
      ensures node < |pool.data| && m == pool.data[node]
    {
      m := data[node];
    }

    /** Second section of rt_mq_recv. */
    method GiveNodeBack(node: nat)
      requires Valid() && node in pool.receiving
      modifies this, next
      ensures Valid() && pool == Step(old(pool), GiveBack(node)) && cleared == old(cleared)
    {
      StepConserves(pool, GiveBack(node));
      ghost var before := next[..];
      ChainPush(before, free, pool.free, node);
      ChainFrame(before, head, pool.queue, node, free);
      next[node] := free;
      assert next[..] == before[node := free];
      free := node;
      pool := Step(pool, GiveBack(node));
    }

    /** One turn of the loop of the reset: the first queued node goes to the free list. */
    method ReleaseFirst()
      requires Valid() && head != NULL
      modifies this, next
      ensures Valid() && cleared == old(cleared)
      ensures pool == old(pool).(free := [old(pool.queue)[0]] + old(pool.free), queue := old(pool.queue)[1..])
    {
      var node := TakeFirstNode();
      GiveNodeBack(node);
      assert pool.receiving == old(pool.receiving);
    }

    /** RT_IPC_CMD_RESET: every queued message is dropped. */
    method ResetQueue()
      requires Valid()
      modifies this, next
      ensures Valid() && pool == Step(old(pool), Reset) && cleared == old(cleared)
    {
      while head != NULL
        invariant Valid() && cleared == old(cleared)
        invariant pool == old(pool).(free := pool.free, queue := pool.queue)
        invariant Reverse(pool.queue) + pool.free == Reverse(old(pool.queue)) + old(pool.free)
        decreases |pool.queue|
      {
        assert Reverse(pool.queue) + pool.free == Reverse(pool.queue[1..]) + ([pool.queue[0]] + pool.free);
        ReleaseFirst();
      }
      entry := 0;
    }
  }
}
