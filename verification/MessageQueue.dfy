/**
 The message queue of ipc.c as a step machine.  Every section under disabled interrupts is
 one step; between two of them a sender fills, or a receiver copies, a node that is neither
 queued nor free.  Steps of any number of threads and interrupt handlers interleave freely.
 */
module MessageQueue {
  import opened Wrappers
  import opened RtList
  import opened SinglyLinked
  import opened WaitQueue
  import opened BoundedDeque

  const MQ_ENTRY_MAX: nat := 65535

  type Byte = int
  type Message = seq<Byte>

  /** What the call that holds a node outside the lists is doing with it. */
  datatype Flight =
    | Filling(urgent: bool)                 // taken off the free list
    | Filled(urgent: bool, sent: Message)   // written, not linked yet
    | Draining(popped: Message)             // taken off the queue, being copied out

  datatype State = State(
    pool: set<Node>,
    msgSize: nat,
    queue: seq<Node>,
    free: seq<Node>,
    flights: map<Node, Flight>,
    entry: nat,
    msg: map<Node, Message>,
    receivers: Waiters,
    senders: Waiters)

  /** Free list, queue and nodes in flight partition the pool. */
  ghost predicate Partition(pool: set<Node>, queue: seq<Node>, free: seq<Node>, flights: map<Node, Flight>) {
    NoDuplicates(queue) && NoDuplicates(free) && Parts(pool, Elems(queue), Elems(free), flights.Keys)
  }

  ghost predicate Parts(pool: set<Node>, queue: set<Node>, free: set<Node>, held: set<Node>) {
    queue !! free && queue !! held && free !! held && pool == queue + free + held
  }

  /** A node in flight holds what its sender wrote, or what its receiver popped. */
  ghost predicate Carried(flights: map<Node, Flight>, msg: map<Node, Message>, msgSize: nat) {
    forall n :: n in flights ==>
      Carries(flights[n], if n in msg then Some(msg[n]) else None, msgSize)
  }

  ghost predicate Carries(f: Flight, content: Option<Message>, msgSize: nat) {
    match f
    case Filling(_) => true
    case Filled(_, m) => content == Some(m) && 0 < |m| <= msgSize
    case Draining(m) => content == Some(m)
  }

  ghost predicate Stored(queue: seq<Node>, msg: map<Node, Message>, msgSize: nat) {
    forall i :: 0 <= i < |queue| ==> queue[i] in msg && 0 < |msg[queue[i]]| <= msgSize
  }

  ghost predicate Inv(s: State) {
    && Partition(s.pool, s.queue, s.free, s.flights)
    && |s.pool| <= MQ_ENTRY_MAX
    && s.entry == |s.queue|
    && Stored(s.queue, s.msg, s.msgSize)
    && Carried(s.flights, s.msg, s.msgSize)
    && Covered(s.receivers, |s.queue|)
    && Covered(s.senders, |s.free|)
  }

  /** The queued messages, oldest first. */
  ghost function Messages(queue: seq<Node>, msg: map<Node, Message>): (r: seq<Message>)
    requires forall i :: 0 <= i < |queue| ==> queue[i] in msg
    ensures |r| == |queue| && forall i :: 0 <= i < |queue| ==> r[i] == msg[queue[i]]
  {
    seq(|queue|, i requires 0 <= i < |queue| => msg[queue[i]])
  }

  // ---------- the steps ----------

  datatype Event =
    | SendBegin(t: Tid, waits: bool, i: nat)     // first look or look after waking; i is the place to sleep at
    | UrgentBegin
    | Fill(n: Node, m: Message)
    | Commit(n: Node)
    | RecvBegin(t: Tid, waits: bool, i: nat)
    | RecvFinish(n: Node)
    | ExpireReceiver(i: nat)
    | ExpireSender(i: nat)
    | Reset

  ghost predicate Enabled(s: State, e: Event) {
    match e
    case SendBegin(t, _, i) => t !in s.senders.suspended && i <= |s.senders.suspended|
    case UrgentBegin => true
    case Fill(n, m) => n in s.flights && s.flights[n].Filling? && 0 < |m| <= s.msgSize
    case Commit(n) => n in s.flights && s.flights[n].Filled?
    case RecvBegin(t, _, i) => t !in s.receivers.suspended && i <= |s.receivers.suspended|
    case RecvFinish(n) => n in s.flights && s.flights[n].Draining?
    case ExpireReceiver(i) => i < |s.receivers.suspended|
    case ExpireSender(i) => i < |s.senders.suspended|
    case Reset => true
  }

  function TakeFree(s: State, urgent: bool): State
    requires s.free != []
  {
    s.(free := s.free[1..], flights := s.flights[s.free[0] := Filling(urgent)])
  }

  ghost function BeginSend(s: State, t: Tid, waits: bool, i: nat): State
    requires i <= |s.senders.suspended|
  {
    var looked := s.(senders := Look(s.senders, t));
    if s.free != [] then TakeFree(looked, false)
    else if waits then s.(senders := Suspend(looked.senders, t, i))
    else looked
  }

  function BeginUrgent(s: State): State {
    if s.free != [] then TakeFree(s, true) else s
  }

  function FillNode(s: State, n: Node, m: Message): State
    requires n in s.flights && s.flights[n].Filling?
  {
    s.(flights := s.flights[n := Filled(s.flights[n].urgent, m)], msg := s.msg[n := m])
  }

  /** Link a filled node.  The branch for a full entry counter returns without waking anybody. */
  function CommitNode(s: State, n: Node): State
    requires n in s.flights && s.flights[n].Filled?
  {
    var queue := if s.flights[n].urgent then [n] + s.queue else s.queue + [n];
    if s.entry < MQ_ENTRY_MAX then
      s.(queue := queue, flights := s.flights - {n}, entry := s.entry + 1, receivers := WakeFirst(s.receivers))
    else s.(queue := queue, flights := s.flights - {n})
  }

  ghost function BeginRecv(s: State, t: Tid, waits: bool, i: nat): State
    requires i <= |s.receivers.suspended| && (s.entry > 0 ==> s.queue != [] && s.queue[0] in s.msg)
  {
    var looked := s.(receivers := Look(s.receivers, t));
    if s.entry > 0 then
      looked.(queue := s.queue[1..], entry := s.entry - 1,
              flights := s.flights[s.queue[0] := Draining(s.msg[s.queue[0]])])
    else if waits then s.(receivers := Suspend(looked.receivers, t, i))
    else looked
  }

  function FinishRecv(s: State, n: Node): State {
    s.(free := [n] + s.free, flights := s.flights - {n}, senders := WakeFirst(s.senders))
  }

  /** The free list once the queue has been emptied onto it, head first. */
  function Emptied(queue: seq<Node>, free: seq<Node>): seq<Node>
    decreases |queue|
  {
    if queue == [] then free else Emptied(queue[1..], [queue[0]] + free)
  }

  function ResetQueue(s: State): State {
    s.(receivers := ResumeAll(s.receivers), senders := ResumeAll(s.senders),
       free := Emptied(s.queue, s.free), queue := [], entry := 0)
  }

  ghost predicate HasContents(s: State) {
    Stored(s.queue, s.msg, s.msgSize) && s.entry == |s.queue|
  }

  ghost function Step(s: State, e: Event): State
    requires HasContents(s) && Enabled(s, e)
  {
    match e
    case SendBegin(t, waits, i) => BeginSend(s, t, waits, i)
    case UrgentBegin => BeginUrgent(s)
    case Fill(n, m) => FillNode(s, n, m)
    case Commit(n) => CommitNode(s, n)
    case RecvBegin(t, waits, i) => BeginRecv(s, t, waits, i)
    case RecvFinish(n) => FinishRecv(s, n)
    case ExpireReceiver(i) => s.(receivers := Expire(s.receivers, i))
    case ExpireSender(i) => s.(senders := Expire(s.senders, i))
    case Reset => ResetQueue(s)
  }

  // ---------- conservation ----------

  /** Every node is in exactly one place, so the three counts add up to max_msgs. */
  lemma Conservation(s: State)
    requires Partition(s.pool, s.queue, s.free, s.flights)
    ensures |s.queue| + |s.free| + |s.flights.Keys| == |s.pool|
  {
    ElemsSize(s.queue);
    ElemsSize(s.free);
    assert |Elems(s.queue) + Elems(s.free)| == |s.queue| + |s.free|;
  }

  /** The "value overflowed" branches are dead. */
  lemma NeverOverflows(s: State, n: Node)
    requires Inv(s) && n in s.flights
    ensures s.entry < MQ_ENTRY_MAX
  {
    Conservation(s);
    assert {n} <= s.flights.Keys;
    assert |s.flights.Keys| >= 1 by { assert s.flights.Keys == {n} + (s.flights.Keys - {n}); }
  }

  lemma FreeToHeld(pool: set<Node>, q: set<Node>, f: set<Node>, h: set<Node>, n: Node)
    requires Parts(pool, q, f, h) && n in f
    ensures Parts(pool, q, f - {n}, h + {n})
  {
  }

  lemma QueueToHeld(pool: set<Node>, q: set<Node>, f: set<Node>, h: set<Node>, n: Node)
    requires Parts(pool, q, f, h) && n in q
    ensures Parts(pool, q - {n}, f, h + {n})
  {
  }

  lemma HeldToQueue(pool: set<Node>, q: set<Node>, f: set<Node>, h: set<Node>, n: Node)
    requires Parts(pool, q, f, h) && n in h
    ensures n !in q && Parts(pool, q + {n}, f, h - {n})
  {
  }

  lemma HeldToFree(pool: set<Node>, q: set<Node>, f: set<Node>, h: set<Node>, n: Node)
    requires Parts(pool, q, f, h) && n in h
    ensures n !in f && Parts(pool, q, f + {n}, h - {n})
  {
  }

  lemma CarriedAdd(flights: map<Node, Flight>, msg: map<Node, Message>, msgSize: nat, n: Node, f: Flight)
    requires Carried(flights, msg, msgSize) && Carries(f, if n in msg then Some(msg[n]) else None, msgSize)
    ensures Carried(flights[n := f], msg, msgSize) && flights[n := f].Keys == flights.Keys + {n}
  {
  }

  lemma CarriedDrop(flights: map<Node, Flight>, msg: map<Node, Message>, msgSize: nat, n: Node)
    requires Carried(flights, msg, msgSize)
    ensures Carried(flights - {n}, msg, msgSize) && (flights - {n}).Keys == flights.Keys - {n}
  {
  }

  lemma StoredTail(queue: seq<Node>, msg: map<Node, Message>, msgSize: nat)
    requires Stored(queue, msg, msgSize) && queue != []
    ensures Stored(queue[1..], msg, msgSize)
  {
  }

  lemma StoredPush(queue: seq<Node>, msg: map<Node, Message>, msgSize: nat, n: Node)
    requires Stored(queue, msg, msgSize) && n in msg && 0 < |msg[n]| <= msgSize
    ensures Stored(queue + [n], msg, msgSize) && Stored([n] + queue, msg, msgSize)
  {
  }

  lemma {:induction false} EmptiedElems(queue: seq<Node>, free: seq<Node>)
    requires NoDuplicates(queue) && NoDuplicates(free) && Elems(queue) !! Elems(free)
    ensures NoDuplicates(Emptied(queue, free)) && Elems(Emptied(queue, free)) == Elems(queue) + Elems(free)
    decreases |queue|
  {
    if queue != [] {
      ElemsTail(queue);
      ElemsPush(queue[0], free);
      EmptiedElems(queue[1..], [queue[0]] + free);
    }
  }

  // ---------- every step keeps the invariant ----------

  lemma TakeFreePartition(s: State, urgent: bool)
    requires Inv(s) && s.free != []
    ensures var r := TakeFree(s, urgent);
      Partition(r.pool, r.queue, r.free, r.flights) && Carried(r.flights, r.msg, r.msgSize)
  {
    ElemsTail(s.free);
    FreeToHeld(s.pool, Elems(s.queue), Elems(s.free), s.flights.Keys, s.free[0]);
    CarriedAdd(s.flights, s.msg, s.msgSize, s.free[0], Filling(urgent));
  }

  lemma SendBeginInv(s: State, t: Tid, waits: bool, i: nat)
    requires Inv(s) && Enabled(s, SendBegin(t, waits, i))
    ensures Inv(BeginSend(s, t, waits, i))
  {
    if s.free != [] {
      TakeFreePartition(s, false);
      TakeCovered(s.senders, t, |s.free|);
    } else if waits {
      SuspendCovered(s.senders, t, i);
    } else {
      LeaveCovered(s.senders, t);
    }
  }

  lemma UrgentBeginInv(s: State)
    requires Inv(s)
    ensures Inv(BeginUrgent(s))
  {
    if s.free != [] {
      TakeFreePartition(s, true);
      FewerCovered(s.senders, |s.free|, |s.free| - 1);
    }
  }

  lemma FillInv(s: State, n: Node, m: Message)
    requires Inv(s) && Enabled(s, Fill(n, m))
    ensures Inv(FillNode(s, n, m))
  {
    var r := FillNode(s, n, m);
    assert r.flights.Keys == s.flights.Keys;
    forall k | 0 <= k < |s.queue| ensures s.queue[k] != n { InElems(s.queue, s.queue[k]); }
  }

  lemma CommitInv(s: State, n: Node)
    requires Inv(s) && Enabled(s, Commit(n))
    ensures Inv(CommitNode(s, n)) && CommitNode(s, n).entry == s.entry + 1
  {
    NeverOverflows(s, n);
    assert Carries(s.flights[n], if n in s.msg then Some(s.msg[n]) else None, s.msgSize);
    HeldToQueue(s.pool, Elems(s.queue), Elems(s.free), s.flights.Keys, n);
    ElemsPush(n, s.queue);
    ElemsAppend(n, s.queue);
    StoredPush(s.queue, s.msg, s.msgSize, n);
    CarriedDrop(s.flights, s.msg, s.msgSize, n);
    WakeCovered(s.receivers, |s.queue|);
  }

  lemma RecvBeginInv(s: State, t: Tid, waits: bool, i: nat)
    requires Inv(s) && Enabled(s, RecvBegin(t, waits, i))
    ensures Inv(BeginRecv(s, t, waits, i))
  {
    if s.entry > 0 {
      ElemsTail(s.queue);
      TakeCovered(s.receivers, t, |s.queue|);
      QueueToHeld(s.pool, Elems(s.queue), Elems(s.free), s.flights.Keys, s.queue[0]);
      CarriedAdd(s.flights, s.msg, s.msgSize, s.queue[0], Draining(s.msg[s.queue[0]]));
      StoredTail(s.queue, s.msg, s.msgSize);
    } else if waits {
      SuspendCovered(s.receivers, t, i);
    } else {
      LeaveCovered(s.receivers, t);
    }
  }

  lemma RecvFinishInv(s: State, n: Node)
    requires Inv(s) && Enabled(s, RecvFinish(n))
    ensures Inv(FinishRecv(s, n))
  {
    HeldToFree(s.pool, Elems(s.queue), Elems(s.free), s.flights.Keys, n);
    ElemsPush(n, s.free);
    CarriedDrop(s.flights, s.msg, s.msgSize, n);
    WakeCovered(s.senders, |s.free|);
  }

  lemma ResetInv(s: State)
    requires Inv(s)
    ensures Inv(ResetQueue(s))
  {
    EmptiedPartition(s.pool, s.queue, s.free, s.flights);
    var r := ResetQueue(s);
    assert Covered(r.receivers, 0) && Covered(r.senders, |r.free|);
  }

  /** All queued nodes are free again; those in flight stay in flight. */
  lemma EmptiedPartition(pool: set<Node>, queue: seq<Node>, free: seq<Node>, flights: map<Node, Flight>)
    requires Partition(pool, queue, free, flights)
    ensures Partition(pool, [], Emptied(queue, free), flights)
  {
    EmptiedElems(queue, free);
  }

  /** No interleaving breaks conservation, the counters or the wake-ups. */
  lemma StepInv(s: State, e: Event)
    requires Inv(s) && Enabled(s, e)
    ensures Inv(Step(s, e)) && Step(s, e).pool == s.pool
  {
    match e
    case SendBegin(t, waits, i) => SendBeginInv(s, t, waits, i);
    case UrgentBegin => UrgentBeginInv(s);
    case Fill(n, m) => FillInv(s, n, m);
    case Commit(n) => CommitInv(s, n);
    case RecvBegin(t, waits, i) => RecvBeginInv(s, t, waits, i);
    case RecvFinish(n) => RecvFinishInv(s, n);
    case ExpireReceiver(i) => ExpireCovered(s.receivers, i, |s.queue|);
    case ExpireSender(i) => ExpireCovered(s.senders, i, |s.free|);
    case Reset => ResetInv(s);
  }

  // ---------- refinement of the bounded deque ----------

  ghost function Contents(s: State): seq<Message>
    requires HasContents(s)
  {
    Messages(s.queue, s.msg)
  }

  /** The deque operation that takes effect in a step. */
  ghost function Effect(s: State, e: Event): Op<Message>
    requires HasContents(s) && Enabled(s, e)
  {
    match e
    case Commit(n) =>
      if s.flights[n].urgent then PushFront(s.flights[n].sent) else PushBack(s.flights[n].sent)
    case RecvBegin(_, _, _) => if s.queue != [] then PopFront(s.msg[s.queue[0]]) else Stutter
    case Reset => Clear
    case _ => Stutter
  }

  lemma MessagesPush(queue: seq<Node>, msg: map<Node, Message>, msgSize: nat, n: Node)
    requires Stored(queue, msg, msgSize) && n in msg && 0 < |msg[n]| <= msgSize
    ensures Stored(queue + [n], msg, msgSize) && Messages(queue + [n], msg) == Messages(queue, msg) + [msg[n]]
    ensures Stored([n] + queue, msg, msgSize) && Messages([n] + queue, msg) == [msg[n]] + Messages(queue, msg)
  {
    StoredPush(queue, msg, msgSize, n);
  }

  lemma MessagesTail(queue: seq<Node>, msg: map<Node, Message>, msgSize: nat)
    requires Stored(queue, msg, msgSize) && queue != []
    ensures Stored(queue[1..], msg, msgSize) && Messages(queue[1..], msg) == Messages(queue, msg)[1..]
  {
    StoredTail(queue, msg, msgSize);
  }

  lemma MessagesFill(queue: seq<Node>, msg: map<Node, Message>, msgSize: nat, n: Node, m: Message)
    requires Stored(queue, msg, msgSize) && n !in Elems(queue)
    ensures Stored(queue, msg[n := m], msgSize) && Messages(queue, msg[n := m]) == Messages(queue, msg)
  {
    forall k | 0 <= k < |queue| ensures queue[k] != n { InElems(queue, queue[k]); }
  }

  /** A committed node was not queued before, so there is room. */
  lemma CommitRoom(s: State, n: Node)
    requires Inv(s) && Enabled(s, Commit(n))
    ensures |s.queue| < |s.pool| && s.entry < MQ_ENTRY_MAX
    ensures n in s.msg && s.msg[n] == s.flights[n].sent && 0 < |s.msg[n]| <= s.msgSize
  {
    NeverOverflows(s, n);
    Conservation(s);
    assert s.flights.Keys == {n} + (s.flights.Keys - {n});
    assert Carries(s.flights[n], if n in s.msg then Some(s.msg[n]) else None, s.msgSize);
  }

  /** Step e is a legal step of a deque of max_msgs messages. */
  ghost predicate Refines(s: State, e: Event) {
    && HasContents(s) && Enabled(s, e) && HasContents(Step(s, e))
    && Apply(|s.pool|, Contents(s), Effect(s, e)) == Some(Contents(Step(s, e)))
  }

  lemma CommitRefines(s: State, n: Node)
    requires HasContents(s) && Enabled(s, Commit(n)) && |s.queue| < |s.pool| && s.entry < MQ_ENTRY_MAX
    requires n in s.msg && s.msg[n] == s.flights[n].sent && 0 < |s.msg[n]| <= s.msgSize
    ensures Refines(s, Commit(n))
  {
    MessagesPush(s.queue, s.msg, s.msgSize, n);
  }

  lemma FillRefines(s: State, n: Node, m: Message)
    requires HasContents(s) && Enabled(s, Fill(n, m)) && n !in Elems(s.queue)
    ensures Refines(s, Fill(n, m))
  {
    MessagesFill(s.queue, s.msg, s.msgSize, n, m);
  }

  lemma RecvRefines(s: State, t: Tid, waits: bool, i: nat)
    requires HasContents(s) && Enabled(s, RecvBegin(t, waits, i))
    ensures Refines(s, RecvBegin(t, waits, i))
  {
    if s.queue != [] { MessagesTail(s.queue, s.msg, s.msgSize); }
  }

  lemma InvContents(s: State)
    requires Inv(s)
    ensures HasContents(s)
  {
  }

  lemma FlightNotQueued(s: State, n: Node)
    requires Inv(s) && n in s.flights
    ensures n !in Elems(s.queue) && n !in Elems(s.free)
  {
  }

  /** The remaining steps leave the queued messages alone or drop them all. */
  lemma OthersRefine(s: State, e: Event)
    requires HasContents(s) && Enabled(s, e) && !e.Commit? && !e.Fill? && !e.RecvBegin?
    ensures Refines(s, e)
  {
  }

  lemma StepRefines(s: State, e: Event)
    requires Inv(s) && Enabled(s, e)
    ensures Refines(s, e)
  {
    InvContents(s);
    match e
    case Commit(n) => CommitRoom(s, n); CommitRefines(s, n);
    case Fill(n, m) => FlightNotQueued(s, n); FillRefines(s, n, m);
    case RecvBegin(t, waits, i) => RecvRefines(s, t, waits, i);
    case _ => OthersRefine(s, e);
  }

  /** What rt_mq_recv copies out: at most size bytes of the message it popped. */
  function Prefix(m: Message, size: nat): (r: Message)
    ensures |r| == if |m| > size then size else |m|
    ensures r <= m
  {
    if |m| > size then m[..size] else m
  }

  /** Until the receiver has put its node back, no step of anyone else changes what it reads. */
  lemma CopyIsStable(s: State, e: Event, n: Node)
    requires Inv(s) && Enabled(s, e) && n in s.flights && s.flights[n].Draining? && e != RecvFinish(n)
    ensures HasContents(s) && Untouched(s, Step(s, e), n)
  {
    InvContents(s);
    FlightNotQueued(s, n);
    assert Carries(s.flights[n], if n in s.msg then Some(s.msg[n]) else None, s.msgSize);
    StepUntouched(s, e, n);
  }

  /** Node n is held by the same receiver, with the same message. */
  ghost predicate Untouched(s: State, r: State, n: Node) {
    && n in s.flights && n in r.flights && r.flights[n] == s.flights[n]
    && n in s.msg && n in r.msg && r.msg[n] == s.msg[n]
  }

  lemma StepUntouched(s: State, e: Event, n: Node)
    requires HasContents(s) && Enabled(s, e) && n in s.flights && s.flights[n].Draining? && e != RecvFinish(n)
    requires n !in Elems(s.queue) && n !in Elems(s.free) && n in s.msg
    ensures Untouched(s, Step(s, e), n)
  {
    InElems(s.free, n);
    InElems(s.queue, n);
  }

  // ---------- runs ----------

  ghost predicate Legal(s: State, es: seq<Event>)
    requires Inv(s)
    decreases |es|, 0
  {
    es == [] || (Legal(s, es[..|es| - 1]) && Enabled(After(s, es[..|es| - 1]), es[|es| - 1]))
  }

  ghost function After(s: State, es: seq<Event>): (r: State)
    requires Inv(s) && Legal(s, es)
    ensures Inv(r) && r.pool == s.pool
    decreases |es|, 1
  {
    if es == [] then s
    else
      var p := After(s, es[..|es| - 1]);
      StepInv(p, es[|es| - 1]);
      Step(p, es[|es| - 1])
  }

  ghost function Effects(s: State, es: seq<Event>): seq<Op<Message>>
    requires Inv(s) && Legal(s, es)
    decreases |es|
  {
    if es == [] then []
    else Effects(s, es[..|es| - 1]) + [Effect(After(s, es[..|es| - 1]), es[|es| - 1])]
  }

  /** rt_mq_init: max_msgs is held in 16 bits. */
  function MaxMsgs(msgSize: nat, poolSize: nat, header: nat): nat
    requires header > 0
  {
    poolSize / ((msgSize + 7) / 8 * 8 + header) % 65536
  }

  ghost function InitialFree(max: nat): (r: seq<Node>)
    ensures |r| == max && forall k :: 0 <= k < max ==> r[k] == max - 1 - k
  {
    seq(max, k => max - 1 - k)
  }

  ghost function InitialState(max: nat, msgSize: nat): State {
    State(Elems(InitialFree(max)), msgSize, [], InitialFree(max), map[], 0, map[], NoWaiters, NoWaiters)
  }

  lemma InitialInv(max: nat, msgSize: nat)
    requires max <= MQ_ENTRY_MAX
    ensures Inv(InitialState(max, msgSize)) && |InitialState(max, msgSize).pool| == max
  {
    InitialPartition(max);
  }

  lemma InitialPartition(max: nat)
    ensures Partition(Elems(InitialFree(max)), [], InitialFree(max), map[]) && |Elems(InitialFree(max))| == max
  {
    var free := InitialFree(max);
    assert NoDuplicates(free);
    ElemsSize(free);
    var none: map<Node, Flight> := map[];
    assert none.Keys == {} && Elems([]) == {};
  }

  lemma {:induction false} RunRefines(s: State, es: seq<Event>)
    requires Inv(s) && s.queue == [] && Legal(s, es)
    ensures Run(|s.pool|, Effects(s, es)) == Some(Contents(After(s, es)))
    decreases |es|
  {
    if es != [] {
      var before := es[..|es| - 1];
      RunRefines(s, before);
      RunSnoc(|s.pool|, Effects(s, before), Effect(After(s, before), es[|es| - 1]));
      InvContents(After(s, before));
      StepRefines(After(s, before), es[|es| - 1]);
    }
  }

  /** No node in flight belongs to an urgent send. */
  ghost predicate NoneUrgent(flights: map<Node, Flight>) {
    forall n :: n in flights ==> flights[n].Draining? || !flights[n].urgent
  }

  lemma StepNotUrgent(s: State, e: Event)
    requires HasContents(s) && Enabled(s, e) && NoneUrgent(s.flights) && !e.UrgentBegin?
    ensures NoneUrgent(Step(s, e).flights) && !Effect(s, e).PushFront? && (Effect(s, e).Clear? ==> e.Reset?)
  {
  }

  lemma {:induction false} PlainEffects(s: State, es: seq<Event>)
    requires Inv(s) && NoneUrgent(s.flights) && Legal(s, es)
    requires forall i :: 0 <= i < |es| ==> !es[i].UrgentBegin? && !es[i].Reset?
    ensures NoneUrgent(After(s, es).flights) && Plain(Effects(s, es))
    decreases |es|
  {
    if es != [] {
      var before, last := es[..|es| - 1], es[|es| - 1];
      PlainEffects(s, before);
      var p := After(s, before);
      InvContents(p);
      StepNotUrgent(p, last);
      PlainSnoc(Effects(s, before), Effect(p, last));
    }
  }

  /** Without urgent sends and resets, messages are received in the order of their commits, none lost. */
  lemma MessagesInOrder(max: nat, msgSize: nat, es: seq<Event>)
    requires max <= MQ_ENTRY_MAX && Inv(InitialState(max, msgSize)) && Legal(InitialState(max, msgSize), es)
    requires forall i :: 0 <= i < |es| ==> !es[i].UrgentBegin? && !es[i].Reset?
    ensures var s, ops := After(InitialState(max, msgSize), es), Effects(InitialState(max, msgSize), es);
      HasContents(s) && Pushed(ops) == Popped(ops) + Contents(s)
  {
    var s0 := InitialState(max, msgSize);
    RunRefines(s0, es);
    PlainEffects(s0, es);
    InvContents(After(s0, es));
    FirstInFirstOut(|s0.pool|, Effects(s0, es));
  }

  /**
   In every interleaving of sends, urgent sends, receives, time-outs and resets: nodes are
   conserved, entry is the number of queued messages, no wake-up is lost on either side, and
   the queue behaves as one deque bounded by max_msgs.
   */
  lemma EveryRun(max: nat, msgSize: nat, es: seq<Event>)
    requires max <= MQ_ENTRY_MAX
    ensures Inv(InitialState(max, msgSize))
    ensures Legal(InitialState(max, msgSize), es) ==>
      var s := After(InitialState(max, msgSize), es);
      && |s.queue| + |s.free| + |s.flights.Keys| == max && s.entry == |s.queue|
      && NoLostWakeup(s.receivers, |s.queue|) && NoLostWakeup(s.senders, |s.free|)
      && Run(max, Effects(InitialState(max, msgSize), es)) == Some(Contents(s))
  {
    InitialInv(max, msgSize);
    var s0 := InitialState(max, msgSize);
    if Legal(s0, es) {
      RunRefines(s0, es);
      Conservation(After(s0, es));
    }
  }
}
