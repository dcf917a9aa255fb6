/** What whole calls on a message queue come to, in terms of the messages their callers pass. */
module MessageQueueCalls {
  import RtList
  import opened SinglyLinked
  import opened WaitQueue
  import opened BoundedDeque
  import opened MessageQueue

  type Node = RtList.Node

  // ---------- over every run ----------

  /** The message of the last Fill of each node. */
  function LastFill(es: seq<Event>): map<Node, Message> {
    if es == [] then map[]
    else
      var before := LastFill(es[..|es| - 1]);
      match es[|es| - 1] case Fill(n, m) => before[n := m] case _ => before
  }

  /** The messages passed to the calls, in the order in which these commit. */
  function Sent(es: seq<Event>): seq<Message> {
    if es == [] then []
    else
      var before := es[..|es| - 1];
      match es[|es| - 1]
      case Commit(n) => Sent(before) + (if n in LastFill(before) then [LastFill(before)[n]] else [])
      case _ => Sent(before)
  }

  /** Everything that is pushed, at either end. */
  function Entered(ops: seq<Op<Message>>): seq<Message> {
    if ops == [] then []
    else
      var rest := Entered(ops[..|ops| - 1]);
      match ops[|ops| - 1]
      case PushBack(m) => rest + [m]
      case PushFront(m) => rest + [m]
      case _ => rest
  }

  /** A filled node in flight holds the message last passed for it. */
  ghost predicate AsPassed(flights: map<Node, Flight>, fills: map<Node, Message>) {
    forall n :: n in flights && flights[n].Filled? ==> n in fills && fills[n] == flights[n].sent
  }

  lemma StepAsPassed(s: State, e: Event, fills: map<Node, Message>)
    requires HasContents(s) && Enabled(s, e) && AsPassed(s.flights, fills)
    ensures AsPassed(Step(s, e).flights, match e case Fill(n, m) => fills[n := m] case _ => fills)
    ensures e.Commit? ==> e.n in fills && Effect(s, e) in {PushBack(fills[e.n]), PushFront(fills[e.n])}
    ensures !e.Commit? ==> !Effect(s, e).PushBack? && !Effect(s, e).PushFront?
  {
  }

  lemma EnteredSnoc(ops: seq<Op<Message>>, op: Op<Message>)
    ensures Entered(ops + [op]) == Entered(ops) + (match op case PushBack(m) => [m] case PushFront(m) => [m] case _ => [])
  {
    assert (ops + [op])[..|ops|] == ops;
  }

  lemma {:induction false} RunAsPassed(s: State, es: seq<Event>)
    requires Inv(s) && Legal(s, es) && AsPassed(s.flights, map[])
    ensures AsPassed(MessageQueue.After(s, es).flights, LastFill(es)) && Entered(Effects(s, es)) == Sent(es)
    decreases |es|
  {
    if es != [] {
      var before, last := es[..|es| - 1], es[|es| - 1];
      RunAsPassed(s, before);
      var p := MessageQueue.After(s, before);
      EnteredSnoc(Effects(s, before), Effect(p, last));
      LastAsPassed(p, last, LastFill(before));
    }
  }

  lemma LastAsPassed(p: State, e: Event, fills: map<Node, Message>)
    requires Inv(p) && HasContents(p) && Enabled(p, e) && AsPassed(p.flights, fills)
    ensures AsPassed(Step(p, e).flights, match e case Fill(n, m) => fills[n := m] case _ => fills)
    ensures (match Effect(p, e) case PushBack(m) => [m] case PushFront(m) => [m] case _ => [])
         == (match e case Commit(n) => (if n in fills then [fills[n]] else []) case _ => [])
  {
    StepAsPassed(p, e, fills);
  }

  /**
   In every run from initialisation the messages that enter the queue are the ones the callers
   passed, in the order of the commits; without urgent sends and resets they are also the ones
   received followed by the ones queued.
   */
  lemma MessagesAsPassed(max: nat, msgSize: nat, es: seq<Event>)
    requires max <= MQ_ENTRY_MAX && Inv(InitialState(max, msgSize)) && Legal(InitialState(max, msgSize), es)
    ensures var s, ops := After(InitialState(max, msgSize), es), Effects(InitialState(max, msgSize), es);
      && Entered(ops) == Sent(es)
      && ((forall i :: 0 <= i < |es| ==> !es[i].UrgentBegin? && !es[i].Reset?) ==>
            HasContents(s) && Sent(es) == Popped(ops) + Contents(s))
  {
    var s0 := InitialState(max, msgSize);
    RunAsPassed(s0, es);
    if forall i :: 0 <= i < |es| ==> !es[i].UrgentBegin? && !es[i].Reset? {
      MessagesInOrder(max, msgSize, es);
      PlainEffects(s0, es);
      EnteredPlain(Effects(s0, es));
    }
  }

  lemma {:induction false} EnteredPlain(ops: seq<Op<Message>>)
    requires Plain(ops)
    ensures Entered(ops) == Pushed(ops)
  {
    if ops != [] { EnteredPlain(ops[..|ops| - 1]); }
  }

  // ---------- one call after the other ----------

  /** Sections of a send that finds a free node: it takes the node, */
  lemma Begins(s: State, begin: Event) returns (a: State)
    requires Inv(s) && s.free != [] && Enabled(s, begin) && (begin.SendBegin? || begin.UrgentBegin?)
    ensures HasContents(s) && a == Step(s, begin) && Inv(a) && HasContents(a)
    ensures Contents(a) == Contents(s) && a.msgSize == s.msgSize
    ensures s.free[0] in a.flights && a.flights[s.free[0]] == Filling(begin.UrgentBegin?)
  {
    InvContents(s);
    StepInv(s, begin);
    StepRefines(s, begin);
    a := Step(s, begin);
  }

  /** copies the message into it, */
  lemma Fills(s: State, n: Node, m: Message, urgent: bool) returns (b: State)
    requires Inv(s) && n in s.flights && s.flights[n] == Filling(urgent) && 0 < |m| <= s.msgSize
    ensures HasContents(s) && b == Step(s, Fill(n, m)) && Inv(b) && HasContents(b)
    ensures Contents(b) == Contents(s)
    ensures n in b.flights && b.flights[n] == Filled(urgent, m)
  {
    InvContents(s);
    StepInv(s, Fill(n, m));
    StepRefines(s, Fill(n, m));
    b := Step(s, Fill(n, m));
  }

  /** and links it. */
  lemma Commits(s: State, n: Node, m: Message, urgent: bool) returns (r: State)
    requires Inv(s) && n in s.flights && s.flights[n] == Filled(urgent, m)
    ensures HasContents(s) && r == Step(s, Commit(n)) && Inv(r) && HasContents(r)
    ensures Contents(r) == if urgent then [m] + Contents(s) else Contents(s) + [m]
  {
    InvContents(s);
    CommitInv(s, n);
    r := CommitNode(s, n);
    InvContents(r);
    Committed(s, n, m, r);
  }

  lemma Committed(s: State, n: Node, m: Message, r: State)
    requires HasContents(s) && HasContents(r) && n in s.msg && s.msg[n] == m && 0 < |m| <= s.msgSize && r.msg == s.msg
    requires r.queue == s.queue + [n] || r.queue == [n] + s.queue
    ensures r.queue == s.queue + [n] ==> Contents(r) == Contents(s) + [m]
    ensures r.queue == [n] + s.queue ==> Contents(r) == [m] + Contents(s)
  {
    MessagesPush(s.queue, s.msg, s.msgSize, n);
  }

  /** The three sections of a send leave the caller's message, whole, behind all others; those of an urgent send in front. */
  lemma SendAdds(s: State, begin: Event, m: Message) returns (r: State)
    requires Inv(s) && s.free != [] && 0 < |m| <= s.msgSize && Enabled(s, begin) && (begin.SendBegin? || begin.UrgentBegin?)
    ensures HasContents(s) && HasContents(Step(s, begin)) && Enabled(Step(s, begin), Fill(s.free[0], m))
    ensures var b := Step(Step(s, begin), Fill(s.free[0], m));
      HasContents(b) && Enabled(b, Commit(s.free[0])) && r == Step(b, Commit(s.free[0]))
    ensures HasContents(r) && Contents(r) == if begin.SendBegin? then Contents(s) + [m] else [m] + Contents(s)
  {
    var a := Begins(s, begin);
    var b := Fills(a, s.free[0], m, begin.UrgentBegin?);
    r := Commits(b, s.free[0], m, begin.UrgentBegin?);
  }

  /** A receive from a queue that is not empty takes the first message of the queue and holds all of it. */
  lemma ReceiveTakes(s: State, t: Tid, waits: bool, i: nat)
    requires Inv(s) && s.queue != [] && Enabled(s, RecvBegin(t, waits, i))
    ensures HasContents(s) && Contents(s) != []
    ensures var r, n := Step(s, RecvBegin(t, waits, i)), s.queue[0];
      && HasContents(r) && n in r.flights && r.flights[n] == Draining(Contents(s)[0])
      && n in r.msg && r.msg[n] == Contents(s)[0] && Contents(r) == Contents(s)[1..]
  {
    InvContents(s);
    StepRefines(s, RecvBegin(t, waits, i));
  }

  /** A send of which nobody has taken a free node sleeps at its place, or leaves with nothing changed but its look. */
  lemma SendFull(s: State, t: Tid, waits: bool, i: nat)
    requires Inv(s) && s.free == [] && Enabled(s, SendBegin(t, waits, i))
    ensures HasContents(s)
    ensures var r := Step(s, SendBegin(t, waits, i));
      && r.queue == s.queue && r.flights == s.flights && r.free == []
      && (if waits then Joins(s.senders, r.senders, t) else r.senders.suspended == s.senders.suspended)
  {
    InvContents(s);
    JoinsAt(s.senders, t, i);
  }

  /** So does a receive from an empty queue. */
  lemma ReceiveEmpty(s: State, t: Tid, waits: bool, i: nat)
    requires Inv(s) && s.queue == [] && Enabled(s, RecvBegin(t, waits, i))
    ensures HasContents(s)
    ensures var r := Step(s, RecvBegin(t, waits, i));
      && r.queue == [] && r.flights == s.flights && r.free == s.free
      && (if waits then Joins(s.receivers, r.receivers, t) else r.receivers.suspended == s.receivers.suspended)
  {
    InvContents(s);
    JoinsAt(s.receivers, t, i);
  }

  /** A time-out takes its thread off the list and nothing else away. */
  lemma TimeoutLeaves(s: State, i: nat)
    requires Inv(s)
    ensures HasContents(s)
    ensures Enabled(s, ExpireReceiver(i)) ==>
      var r := Step(s, ExpireReceiver(i));
      i < |s.receivers.suspended| && Leaves(s.receivers, r.receivers, s.receivers.suspended[i]) && r == s.(receivers := r.receivers)
    ensures Enabled(s, ExpireSender(i)) ==>
      var r := Step(s, ExpireSender(i));
      i < |s.senders.suspended| && Leaves(s.senders, r.senders, s.senders.suspended[i]) && r == s.(senders := r.senders)
  {
    InvContents(s);
    if i < |s.receivers.suspended| { ExpireLeaves(s.receivers, i); }
    if i < |s.senders.suspended| { ExpireLeaves(s.senders, i); }
  }

  /** A reset leaves the queue empty and nobody asleep; nodes on their way go on. */
  lemma ResetEmpties(s: State)
    requires Inv(s)
    ensures HasContents(s)
    ensures var r := Step(s, Reset);
      && r.queue == [] && r.entry == 0 && r.flights == s.flights && r.msg == s.msg && |r.free| == |s.free| + |s.queue|
      && r.receivers.suspended == [] && r.senders.suspended == []
  {
    InvContents(s);
    StepInv(s, Reset);
    Conservation(s);
    Conservation(Step(s, Reset));
  }

  // ---------- who is woken ----------

  /** The first of the list is woken, and nobody else. */
  ghost predicate FirstWoken(w: Waiters, r: Waiters) {
    w.suspended != [] && r.suspended == w.suspended[1..] && r.woken - w.woken == {w.suspended[0]}
  }

  lemma WakesFirst(w: Waiters)
    requires Wf(w) && w.suspended != []
    ensures FirstWoken(w, WakeFirst(w))
  {
  }

  /** Linking a message wakes the first receiver of the list and no other; returning a node the first sender. */
  lemma WakesTheFirst(s: State, n: Node)
    requires Inv(s)
    ensures HasContents(s)
    ensures Enabled(s, Commit(n)) && s.receivers.suspended != [] ==> FirstWoken(s.receivers, Step(s, Commit(n)).receivers)
    ensures Enabled(s, RecvFinish(n)) && s.senders.suspended != [] ==> FirstWoken(s.senders, Step(s, RecvFinish(n)).senders)
  {
    InvContents(s);
    if Enabled(s, Commit(n)) && s.receivers.suspended != [] { CommitWakes(s, n); }
    if Enabled(s, RecvFinish(n)) && s.senders.suspended != [] { FinishWakes(s, n); }
  }

  lemma CommitWakes(s: State, n: Node)
    requires Inv(s) && HasContents(s) && Enabled(s, Commit(n)) && s.receivers.suspended != []
    ensures FirstWoken(s.receivers, Step(s, Commit(n)).receivers)
  {
    CommitRoom(s, n);
    WakesFirst(s.receivers);
  }

  lemma FinishWakes(s: State, n: Node)
    requires Inv(s) && HasContents(s) && Enabled(s, RecvFinish(n)) && s.senders.suspended != []
    ensures FirstWoken(s.senders, Step(s, RecvFinish(n)).senders)
  {
    WakesFirst(s.senders);
  }
}
