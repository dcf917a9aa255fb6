/** struct rt_messagequeue as ipc.c updates it: singly linked nodes behind head, tail and free pointers. */
module MessageQueueObject {
  import opened Wrappers
  import opened RtList
  import opened SinglyLinked
  import opened WaitQueue
  import MQ = MessageQueue

  type Message = MQ.Message

  ghost function LastOf(queue: seq<Node>): Node { if queue == [] then NULL else queue[|queue| - 1] }

  /** A node filled by rt_mq_send already ends the list it is going to be put on. */
  ghost predicate Terminated(next: map<Node, Node>, flights: map<Node, MQ.Flight>) {
    forall n :: n in flights && flights[n].Filled? && !flights[n].urgent ==> n in next && next[n] == NULL
  }

  ghost predicate Linked(next: map<Node, Node>, head: Node, tail: Node, freeHead: Node,
                         queue: seq<Node>, free: seq<Node>, flights: map<Node, MQ.Flight>) {
    && Chain(next, head, queue) && Chain(next, freeHead, free)
    && tail == LastOf(queue) && Terminated(next, flights)
  }

  class Object {
    const max: nat
    const msgSize: nat
    var next: map<Node, Node>
    var head: Node
    var tail: Node
    var freeHead: Node
    var entry: nat
    var msg: map<Node, Message>
    var receivers: Waiters
    var senders: Waiters
    ghost var pool: set<Node>
    ghost var queue: seq<Node>
    ghost var free: seq<Node>
    ghost var flights: map<Node, MQ.Flight>

    ghost function Abs(): MQ.State
      reads this
    {
      MQ.State(pool, msgSize, queue, free, flights, entry, msg, receivers, senders)
    }

    ghost predicate Valid()
      reads this
    {
      && MQ.Inv(Abs()) && NULL !in pool
      && Linked(next, head, tail, freeHead, queue, free, flights)
    }

    /** head is null exactly when tail is, and exactly when nothing is queued. */
    lemma HeadTail()
      requires Valid()
      ensures (head == NULL <==> tail == NULL) && (head == NULL <==> entry == 0)
    {
      if queue != [] { InElems(queue, queue[|queue| - 1]); }
    }

    /** rt_mq_init, where the pool holds at least one message */
    constructor (size: nat, poolSize: nat, header: nat)
      requires header > 0 && MQ.MaxMsgs(size, poolSize, header) > 0
      ensures Valid()
      ensures max == MQ.MaxMsgs(size, poolSize, header)
      ensures Abs() == MQ.InitialState(max, size % 65536)
    {
      max := MQ.MaxMsgs(size, poolSize, header);
      msgSize := size % 65536;
      next := map[];
      head, tail, freeHead := NULL, NULL, NULL;
      entry := 0;
      msg := map[];
      receivers, senders := NoWaiters, NoWaiters;
      queue, free, flights := [], [], map[];
      new;
      ThreadNodes();
      pool := Elems(free);
      MQ.InitialInv(max, msgSize);
      if NULL in pool { InElems(free, NULL); }
    }

    /** The loop of rt_mq_init: every node goes to the front of the free list. */
    method ThreadNodes()
      requires Chain(next, freeHead, free) && free == []
      modifies this`next, this`freeHead, this`free
      ensures Chain(next, freeHead, free) && free == MQ.InitialFree(max)
    {
      var i := 0;
      while i < max
        invariant 0 <= i <= max && |free| == i && Chain(next, freeHead, free)
        invariant forall k :: 0 <= k < i ==> free[k] == i - 1 - k
      {
        if i in Elems(free) { InElems(free, i); }
        ChainPush(next, freeHead, free, i);
        next := next[i := freeHead];
        freeHead := i;
        free := [i] + free;
        i := i + 1;
      }
    }

    /** Unlink the first free node for a sender. */
    method PopFree(urgent: bool) returns (n: Node)
      requires Linked(next, head, tail, freeHead, queue, free, flights) && free != []
      modifies this`freeHead, this`free, this`flights
      ensures Abs() == MQ.TakeFree(old(Abs()), urgent) && n == old(free)[0]
      ensures Linked(next, head, tail, freeHead, queue, free, flights)
    {
      n := freeHead;
      flights := flights[n := MQ.Filling(urgent)];
      freeHead := next[n];
      free := free[1..];
    }

    method SendLook(t: Tid, waits: bool, slept: Waiters, ghost i: nat) returns (n: Option<Node>)
      requires Linked(next, head, tail, freeHead, queue, free, flights)
      requires i <= |senders.suspended| && slept == Suspend(Look(senders, t), t, i)
      modifies this`freeHead, this`free, this`flights, this`senders
      ensures Abs() == MQ.BeginSend(old(Abs()), t, waits, i)
      ensures Linked(next, head, tail, freeHead, queue, free, flights)
      ensures n == if old(free) == [] then None else Some(old(free)[0])
    {
      if freeHead != NULL {
        var m := PopFree(false);
        n := Some(m);
        senders := Look(senders, t);
      } else {
        n := None;
        senders := if waits then slept else Look(senders, t);
      }
    }

    /** One look of rt_mq_send_wait at the free list: take a node, give up or go to sleep. */
    method SendBegin(t: Tid, waits: bool, fifo: bool, priority: Tid -> nat) returns (n: Option<Node>, ghost i: nat)
      requires Valid() && MQ.Enabled(Abs(), MQ.SendBegin(t, waits, 0))
      modifies this
      ensures Place(old(senders).suspended, t, fifo, priority, i)
      ensures Valid() && Abs() == MQ.BeginSend(old(Abs()), t, waits, i)
      ensures n == if old(free) == [] then None else Some(old(free)[0])
    {
      var slept;
      slept, i := ListSuspend(Look(senders, t), t, fifo, priority);
      MQ.SendBeginInv(Abs(), t, waits, i);
      n := SendLook(t, waits, slept, i);
    }

    method UrgentBegin() returns (n: Option<Node>)
      requires Valid()
      modifies this
      ensures Valid() && Abs() == MQ.BeginUrgent(old(Abs()))
      ensures n == if old(free) == [] then None else Some(old(free)[0])
    {
      MQ.UrgentBeginInv(Abs());
      n := None;
      if freeHead != NULL {
        var m := PopFree(true);
        n := Some(m);
      }
    }

    /** Outside the critical sections: write length and bytes; rt_mq_send also ends the list. */
    method Fill(n: Node, m: Message, urgent: bool)
      requires Valid() && MQ.Enabled(Abs(), MQ.Fill(n, m)) && flights[n].urgent == urgent
      modifies this
      ensures Valid() && Abs() == MQ.FillNode(old(Abs()), n, m)
    {
      MQ.FillInv(Abs(), n, m);
      MQ.FlightNotQueued(Abs(), n);
      Write(n, m, urgent);
      assert Abs() == MQ.FillNode(old(Abs()), n, m);
    }

    /** The node in flight gets the message and, unless it goes to the front, a null link. */
    method Write(n: Node, m: Message, urgent: bool)
      requires Linked(next, head, tail, freeHead, queue, free, flights) && n !in Elems(queue) && n !in Elems(free)
      requires n in flights && flights[n].Filling? && flights[n].urgent == urgent
      modifies this`next, this`msg, this`flights
      ensures Linked(next, head, tail, freeHead, queue, free, flights)
      ensures msg == old(msg)[n := m] && flights == old(flights)[n := MQ.Filled(urgent, m)]
    {
      if !urgent {
        ClearNext(n);
      }
      msg := msg[n := m];
      flights := flights[n := MQ.Filled(flights[n].urgent, m)];
    }

    /** A node in neither list gets a null link. */
    method ClearNext(n: Node)
      requires Chain(next, head, queue) && Chain(next, freeHead, free) && n !in Elems(queue) && n !in Elems(free)
      modifies this`next
      ensures next == old(next)[n := NULL] && Chain(next, head, queue) && Chain(next, freeHead, free)
    {
      ChainFrame(next, head, queue, n, NULL);
      ChainFrame(next, freeHead, free, n, NULL);
      next := next[n := NULL];
    }

    /** Link n at the end of the queue. */
    method LinkLast(n: Node)
      requires Linked(next, head, tail, freeHead, queue, free, flights) && NoDuplicates(queue)
      requires n in flights && flights[n].Filled? && !flights[n].urgent && n != NULL
      requires n !in Elems(queue) && NULL !in Elems(queue) && Elems(queue) !! Elems(free)
      requires Elems(queue) !! flights.Keys
      modifies this`next, this`head, this`tail, this`queue, this`flights
      ensures queue == old(queue) + [n] && flights == old(flights) - {n}
      ensures Linked(next, head, tail, freeHead, queue, free, flights)
    {
      if tail != NULL {
        InElems(queue, tail);
        ChainAppend(next, head, queue, n);
        ChainFrame(next, freeHead, free, tail, n);
        next := next[tail := n];
      } else {
        if queue != [] { InElems(queue, queue[|queue| - 1]); }
        assert Chain(next, n, [n]) by { assert [n][1..] == []; }
      }
      tail := n;
      if head == NULL { head := n; }
      queue := queue + [n];
      flights := flights - {n};
    }

    /** Link n at the front of the queue. */
    method LinkFirst(n: Node)
      requires Linked(next, head, tail, freeHead, queue, free, flights)
      requires n in flights && flights[n].Filled? && flights[n].urgent && n != NULL
      requires n !in Elems(queue) && n !in Elems(free) && NULL !in Elems(queue)
      modifies this`next, this`head, this`tail, this`queue, this`flights
      ensures queue == [n] + old(queue) && flights == old(flights) - {n}
      ensures Linked(next, head, tail, freeHead, queue, free, flights)
    {
      if queue != [] { InElems(queue, queue[|queue| - 1]); }
      ChainPush(next, head, queue, n);
      ChainFrame(next, freeHead, free, n, head);
      next := next[n := head];
      head := n;
      if tail == NULL { tail := n; }
      queue := [n] + queue;
      flights := flights - {n};
    }

    method CommitLink(n: Node, urgent: bool) returns (overflowed: bool)
      requires Linked(next, head, tail, freeHead, queue, free, flights) && NoDuplicates(queue)
      requires n in flights && flights[n].Filled? && flights[n].urgent == urgent && n != NULL
      requires NULL !in Elems(queue) && n !in Elems(queue) && n !in Elems(free)
      requires MQ.Parts(pool, Elems(queue), Elems(free), flights.Keys)
      modifies this`next, this`head, this`tail, this`queue, this`flights, this`entry, this`receivers
      ensures Abs() == MQ.CommitNode(old(Abs()), n) && overflowed == (old(entry) >= MQ.MQ_ENTRY_MAX)
      ensures Linked(next, head, tail, freeHead, queue, free, flights)
    {
      if urgent { LinkFirst(n); } else { LinkLast(n); }
      overflowed := entry >= MQ.MQ_ENTRY_MAX;
      if !overflowed {
        entry := entry + 1;
        receivers := WakeFirst(receivers);
      }
    }

    /** The second critical section of rt_mq_send_wait and rt_mq_urgent; overflow never happens. */
    method Commit(n: Node, urgent: bool) returns (overflowed: bool)
      requires Valid() && MQ.Enabled(Abs(), MQ.Commit(n)) && flights[n].urgent == urgent
      modifies this
      ensures Valid() && Abs() == MQ.CommitNode(old(Abs()), n) && !overflowed
    {
      MQ.CommitInv(Abs(), n);
      MQ.FlightNotQueued(Abs(), n);
      MQ.NeverOverflows(Abs(), n);
      overflowed := CommitLink(n, urgent);
    }

    /** Unlink the first queued node for a receiver. */
    method PopQueue() returns (n: Node)
      requires Linked(next, head, tail, freeHead, queue, free, flights) && NoDuplicates(queue)
      requires queue != [] && queue[0] in msg && entry > 0
      modifies this`head, this`tail, this`queue, this`flights, this`entry
      ensures n == old(queue)[0] && queue == old(queue)[1..] && entry == old(entry) - 1
      ensures flights == old(flights)[n := MQ.Draining(msg[n])]
      ensures Linked(next, head, tail, freeHead, queue, free, flights)
    {
      n := head;
      head := next[n];
      if tail == n { tail := NULL; }
      entry := entry - 1;
      queue := queue[1..];
      flights := flights[n := MQ.Draining(msg[n])];
    }

    method RecvLook(t: Tid, waits: bool, slept: Waiters, ghost i: nat) returns (n: Option<Node>)
      requires Linked(next, head, tail, freeHead, queue, free, flights) && NoDuplicates(queue)
      requires MQ.HasContents(Abs())
      requires i <= |receivers.suspended| && slept == Suspend(Look(receivers, t), t, i)
      modifies this`head, this`tail, this`queue, this`flights, this`entry, this`receivers
      ensures Abs() == MQ.BeginRecv(old(Abs()), t, waits, i)
      ensures Linked(next, head, tail, freeHead, queue, free, flights)
      ensures n == if old(entry) == 0 then None else Some(old(queue)[0])
    {
      if entry > 0 {
        var m := PopQueue();
        n := Some(m);
        receivers := Look(receivers, t);
      } else {
        n := None;
        receivers := if waits then slept else Look(receivers, t);
      }
    }

    /** One look of rt_mq_recv at the queue. */
    method RecvBegin(t: Tid, waits: bool, fifo: bool, priority: Tid -> nat) returns (n: Option<Node>, ghost i: nat)
      requires Valid() && MQ.Enabled(Abs(), MQ.RecvBegin(t, waits, 0))
      modifies this
      ensures Place(old(receivers).suspended, t, fifo, priority, i)
      ensures Valid() && Abs() == MQ.BeginRecv(old(Abs()), t, waits, i)
      ensures n == if old(entry) == 0 then None else Some(old(queue)[0])
    {
      var slept;
      slept, i := ListSuspend(Look(receivers, t), t, fifo, priority);
      MQ.RecvBeginInv(Abs(), t, waits, i);
      n := RecvLook(t, waits, slept, i);
    }

    /** Outside the critical sections: the bytes handed to the caller are the front message as it was popped. */
    method Copy(n: Node, size: nat) returns (buffer: Message)
      requires Valid() && n in flights && flights[n].Draining?
      ensures buffer == MQ.Prefix(flights[n].popped, size)
    {
      assert MQ.Carries(flights[n], if n in msg then Some(msg[n]) else None, msgSize);
      var len := |msg[n]|;
      if len > size { len := size; }
      buffer := msg[n][..len];
    }

    /** The second critical section of rt_mq_recv. */
    method RecvFinish(n: Node)
      requires Valid() && MQ.Enabled(Abs(), MQ.RecvFinish(n))
      modifies this
      ensures Valid() && Abs() == MQ.FinishRecv(old(Abs()), n)
    {
      MQ.RecvFinishInv(Abs(), n);
      MQ.FlightNotQueued(Abs(), n);
      GiveBack(n);
    }

    method GiveBack(n: Node)
      requires Linked(next, head, tail, freeHead, queue, free, flights) && n != NULL
      requires n !in Elems(queue) && n !in Elems(free) && n in flights && flights[n].Draining?
      modifies this`next, this`freeHead, this`free, this`flights, this`senders
      ensures Abs() == MQ.FinishRecv(old(Abs()), n)
      ensures Linked(next, head, tail, freeHead, queue, free, flights)
    {
      PushFree(n);
      flights := flights - {n};
      senders := WakeFirst(senders);
    }

    /** Put n at the front of the free list. */
    method PushFree(n: Node)
      requires Linked(next, head, tail, freeHead, queue, free, flights) && n != NULL
      requires n !in Elems(queue) && n !in Elems(free)
      requires n in flights ==> !flights[n].Filled?
      modifies this`next, this`freeHead, this`free
      ensures free == [n] + old(free)
      ensures Linked(next, head, tail, freeHead, queue, free, flights)
    {
      ChainPush(next, freeHead, free, n);
      ChainFrame(next, head, queue, n, freeHead);
      next := next[n := freeHead];
      freeHead := n;
      free := [n] + free;
    }

    /** rt_mq_control(RT_IPC_CMD_RESET) */
    method Reset()
      requires Valid()
      modifies this
      ensures Valid() && Abs() == MQ.ResetQueue(old(Abs()))
    {
      MQ.ResetInv(Abs());
      ResetLists();
    }

    method ResetLists()
      requires Linked(next, head, tail, freeHead, queue, free, flights)
      requires NoDuplicates(queue) && NoDuplicates(free) && NULL !in Elems(queue)
      requires MQ.Parts(pool, Elems(queue), Elems(free), flights.Keys)
      modifies this`next, this`head, this`tail, this`freeHead, this`queue, this`free, this`entry
      modifies this`receivers, this`senders
      ensures Linked(next, head, tail, freeHead, queue, free, flights)
      ensures Abs() == MQ.ResetQueue(old(Abs()))
    {
      receivers := ResumeEveryone(receivers);
      senders := ResumeEveryone(senders);
      DrainQueue();
      entry := 0;
    }

    /** The loop of the reset: every queued node goes to the free list. */
    method DrainQueue()
      requires Linked(next, head, tail, freeHead, queue, free, flights)
      requires NoDuplicates(queue) && NoDuplicates(free) && NULL !in Elems(queue)
      requires MQ.Parts(pool, Elems(queue), Elems(free), flights.Keys)
      modifies this`next, this`head, this`tail, this`freeHead, this`queue, this`free
      ensures Linked(next, head, tail, freeHead, queue, free, flights)
      ensures queue == [] && free == MQ.Emptied(old(queue), old(free))
    {
      while head != NULL
        invariant Linked(next, head, tail, freeHead, queue, free, flights)
        invariant NoDuplicates(queue) && NoDuplicates(free) && NULL !in Elems(queue)
        invariant MQ.Parts(pool, Elems(queue), Elems(free), flights.Keys)
        invariant MQ.Emptied(queue, free) == MQ.Emptied(old(queue), old(free))
        decreases |queue|
      {
        var n := head;
        ElemsTail(queue);
        MQ.QueueToHeld(pool, Elems(queue), Elems(free), flights.Keys, n);
        MQ.HeldToFree(pool, Elems(queue) - {n}, Elems(free), flights.Keys + {n}, n);
        NotHeld(pool, Elems(queue), Elems(free), flights.Keys, n);
        ElemsPush(n, free);
        head := next[n];
        if tail == n { tail := NULL; }
        queue := queue[1..];
        PushFree(n);
      }
    }
  }

  /** rt_mq_init: refused (null here, -RT_EINVAL there) exactly when the pool holds no message. */
  method MqInit(size: nat, poolSize: nat, header: nat) returns (mq: Object?)
    requires header > 0
    ensures mq == null <==> MQ.MaxMsgs(size, poolSize, header) == 0
    ensures mq != null ==> fresh(mq) && mq.Valid() && mq.max == MQ.MaxMsgs(size, poolSize, header)
    ensures mq != null ==> mq.Abs() == MQ.InitialState(mq.max, size % 65536)
  {
    if MQ.MaxMsgs(size, poolSize, header) == 0 { return null; }
    mq := new Object(size, poolSize, header);
  }

  lemma NotHeld(pool: set<Node>, q: set<Node>, f: set<Node>, h: set<Node>, n: Node)
    requires MQ.Parts(pool, q, f, h) && n in q
    ensures h + {n} - {n} == h && n !in h && n !in f
  {
  }
}
