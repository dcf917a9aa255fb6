/** The mailbox of ipc.c: a ring of words with two offsets and a counter. */
module Mailbox {
  import opened Wrappers
  import opened WaitQueue
  import opened BoundedDeque

  const MB_ENTRY_MAX: nat := 65535

  type Mail = int

  datatype Box = Box(
    slots: seq<Mail>,
    inOffset: nat,
    outOffset: nat,
    entry: nat,
    receivers: Waiters,
    senders: Waiters)

  /** Index of the mail k places behind offset o. */
  function Slot(o: nat, k: nat, size: nat): nat
    requires o + k < 2 * size || o + k == 0
  {
    if o + k >= size then o + k - size else o + k
  }

  lemma SlotMod(o: nat, k: nat, size: nat)
    requires o + k < 2 * size
    ensures Slot(o, k, size) == (o + k) % size
  {
    var n := o + k;
    var q, r := n / size, n % size;
    assert n == q * size + r && r < size;
    assert q >= 2 ==> q * size >= 2 * size;
    assert q == 0 || q == 1;
  }

  /** The offsets lie in the ring and in_offset is entry places behind out_offset. */
  ghost predicate RingShape(slots: seq<Mail>, inOffset: nat, outOffset: nat, entry: nat) {
    && |slots| <= MB_ENTRY_MAX && entry <= |slots|
    && (outOffset < |slots| || outOffset == 0)
    && inOffset == Slot(outOffset, entry, |slots|)
  }

  ghost predicate Inv(b: Box) {
    && RingShape(b.slots, b.inOffset, b.outOffset, b.entry)
    && Covered(b.receivers, b.entry)
    && Covered(b.senders, |b.slots| - b.entry)
  }

  /** The mails in the ring, oldest first. */
  ghost function Mails(slots: seq<Mail>, outOffset: nat, entry: nat): (r: seq<Mail>)
    requires entry <= |slots| && (outOffset < |slots| || outOffset == 0)
    ensures |r| == entry && forall k :: 0 <= k < entry ==> r[k] == slots[Slot(outOffset, k, |slots|)]
  {
    seq(entry, k requires 0 <= k < entry => slots[Slot(outOffset, k, |slots|)])
  }

  ghost function Contents(b: Box): seq<Mail>
    requires RingShape(b.slots, b.inOffset, b.outOffset, b.entry)
  {
    Mails(b.slots, b.outOffset, b.entry)
  }

  function Advance(k: nat, size: nat): nat { if k + 1 >= size then 0 else k + 1 }

  function Retreat(k: nat, size: nat): nat
    requires size > 0
  {
    if k > 0 then k - 1 else size - 1
  }

  // ---------- the ring ----------

  lemma PutBack(slots: seq<Mail>, inOffset: nat, outOffset: nat, entry: nat, v: Mail)
    requires RingShape(slots, inOffset, outOffset, entry) && entry < |slots|
    ensures inOffset < |slots| && RingShape(slots[inOffset := v], Advance(inOffset, |slots|), outOffset, entry + 1)
    ensures Mails(slots[inOffset := v], outOffset, entry + 1) == Mails(slots, outOffset, entry) + [v]
  {
    var r := slots[inOffset := v];
    var rest := Mails(slots, outOffset, entry);
    forall k | 0 <= k < entry + 1 ensures Mails(r, outOffset, entry + 1)[k] == (rest + [v])[k] {
      assert r[Slot(outOffset, k, |slots|)] == if k == entry then v else slots[Slot(outOffset, k, |slots|)];
    }
  }

  lemma PutFront(slots: seq<Mail>, inOffset: nat, outOffset: nat, entry: nat, v: Mail)
    requires RingShape(slots, inOffset, outOffset, entry) && entry < |slots|
    ensures var o := Retreat(outOffset, |slots|);
      && o < |slots| && RingShape(slots[o := v], inOffset, o, entry + 1)
      && Mails(slots[o := v], o, entry + 1) == [v] + Mails(slots, outOffset, entry)
  {
    var o := Retreat(outOffset, |slots|);
    var r, rest := slots[o := v], Mails(slots, outOffset, entry);
    forall k | 0 <= k < entry + 1 ensures Mails(r, o, entry + 1)[k] == ([v] + rest)[k] {
      if k > 0 { assert Slot(o, k, |slots|) == Slot(outOffset, k - 1, |slots|) != o; }
    }
  }

  lemma TakeFront(slots: seq<Mail>, inOffset: nat, outOffset: nat, entry: nat)
    requires RingShape(slots, inOffset, outOffset, entry) && entry > 0
    ensures outOffset < |slots| && RingShape(slots, inOffset, Advance(outOffset, |slots|), entry - 1)
    ensures Mails(slots, outOffset, entry)
         == [slots[outOffset]] + Mails(slots, Advance(outOffset, |slots|), entry - 1)
  {
    var o := Advance(outOffset, |slots|);
    var rest := Mails(slots, o, entry - 1);
    forall k | 0 <= k < entry ensures Mails(slots, outOffset, entry)[k] == ([slots[outOffset]] + rest)[k] {
      if k > 0 { assert Slot(o, k - 1, |slots|) == Slot(outOffset, k, |slots|); }
    }
  }

  // ---------- the steps ----------

  datatype Event =
    | Send(t: Tid, mail: Mail, waits: bool, i: nat)
    | Urgent(mail: Mail)
    | Recv(t: Tid, waits: bool, i: nat)
    | ExpireReceiver(i: nat)
    | ExpireSender(i: nat)
    | Reset

  ghost predicate Enabled(b: Box, e: Event) {
    match e
    case Send(t, _, _, i) => t !in b.senders.suspended && i <= |b.senders.suspended|
    case Recv(t, _, i) => t !in b.receivers.suspended && i <= |b.receivers.suspended|
    case ExpireReceiver(i) => i < |b.receivers.suspended|
    case ExpireSender(i) => i < |b.senders.suspended|
    case _ => true
  }

  /** The part of rt_mb_send_wait behind the waiting loop, with its branch for a full counter. */
  function Put(b: Box, v: Mail): Box
    requires b.inOffset < |b.slots|
  {
    var p := b.(slots := b.slots[b.inOffset := v], inOffset := Advance(b.inOffset, |b.slots|));
    if b.entry < MB_ENTRY_MAX then p.(entry := b.entry + 1, receivers := WakeFirst(b.receivers)) else p
  }

  ghost function SendStep(b: Box, t: Tid, v: Mail, waits: bool, i: nat): Box
    requires i <= |b.senders.suspended| && (b.entry != |b.slots| ==> b.inOffset < |b.slots|)
  {
    var looked := b.(senders := Look(b.senders, t));
    if b.entry == |b.slots| then
      if waits then b.(senders := Suspend(looked.senders, t, i)) else looked
    else Put(looked, v)
  }

  function UrgentStep(b: Box, v: Mail): Box
    requires b.outOffset <= |b.slots|
  {
    if b.entry == |b.slots| || |b.slots| == 0 then b
    else
      var o := Retreat(b.outOffset, |b.slots|);
      b.(slots := b.slots[o := v], outOffset := o, entry := b.entry + 1, receivers := WakeFirst(b.receivers))
  }

  ghost function RecvStep(b: Box, t: Tid, waits: bool, i: nat): Box
    requires i <= |b.receivers.suspended|
  {
    var looked := b.(receivers := Look(b.receivers, t));
    if b.entry == 0 then
      if waits then b.(receivers := Suspend(looked.receivers, t, i)) else looked
    else looked.(outOffset := Advance(b.outOffset, |b.slots|), entry := b.entry - 1, senders := WakeFirst(b.senders))
  }

  function ResetStep(b: Box): Box {
    b.(inOffset := 0, outOffset := 0, entry := 0,
       receivers := ResumeAll(b.receivers), senders := ResumeAll(b.senders))
  }

  ghost function Step(b: Box, e: Event): Box
    requires Inv(b) && Enabled(b, e)
  {
    match e
    case Send(t, v, waits, i) => SendStep(b, t, v, waits, i)
    case Urgent(v) => UrgentStep(b, v)
    case Recv(t, waits, i) => RecvStep(b, t, waits, i)
    case ExpireReceiver(i) => b.(receivers := Expire(b.receivers, i))
    case ExpireSender(i) => b.(senders := Expire(b.senders, i))
    case Reset => ResetStep(b)
  }

  /** The deque operation that takes effect in a step. */
  ghost function Effect(b: Box, e: Event): Op<Mail>
    requires Inv(b) && Enabled(b, e)
  {
    match e
    case Send(_, v, _, _) => if b.entry < |b.slots| then PushBack(v) else Stutter
    case Urgent(v) => if b.entry < |b.slots| then PushFront(v) else Stutter
    case Recv(_, _, _) => if b.entry > 0 then PopFront(b.slots[b.outOffset]) else Stutter
    case Reset => Clear
    case _ => Stutter
  }

  /** e keeps the invariant and is a legal step of a deque of size mails. */
  ghost predicate Refines(b: Box, e: Event) {
    && Inv(b) && Enabled(b, e) && Inv(Step(b, e)) && |Step(b, e).slots| == |b.slots|
    && Apply(|b.slots|, Contents(b), Effect(b, e)) == Some(Contents(Step(b, e)))
  }

  lemma SendRefines(b: Box, t: Tid, v: Mail, waits: bool, i: nat)
    requires Inv(b) && Enabled(b, Send(t, v, waits, i))
    ensures Refines(b, Send(t, v, waits, i))
  {
    if b.entry < |b.slots| {
      PutBack(b.slots, b.inOffset, b.outOffset, b.entry, v);
      WakeCovered(b.receivers, b.entry);
      TakeCovered(b.senders, t, |b.slots| - b.entry);
    } else if waits {
      SuspendCovered(b.senders, t, i);
    } else {
      LeaveCovered(b.senders, t);
    }
  }

  lemma UrgentRefines(b: Box, v: Mail)
    requires Inv(b)
    ensures Refines(b, Urgent(v))
  {
    if b.entry < |b.slots| {
      PutFront(b.slots, b.inOffset, b.outOffset, b.entry, v);
      WakeCovered(b.receivers, b.entry);
      FewerCovered(b.senders, |b.slots| - b.entry, |b.slots| - b.entry - 1);
    }
  }

  lemma RecvRefines(b: Box, t: Tid, waits: bool, i: nat)
    requires Inv(b) && Enabled(b, Recv(t, waits, i))
    ensures Refines(b, Recv(t, waits, i))
  {
    if b.entry > 0 {
      TakeFront(b.slots, b.inOffset, b.outOffset, b.entry);
      WakeCovered(b.senders, |b.slots| - b.entry);
      TakeCovered(b.receivers, t, b.entry);
    } else if waits {
      SuspendCovered(b.receivers, t, i);
    } else {
      LeaveCovered(b.receivers, t);
    }
  }

  lemma StepRefines(b: Box, e: Event)
    requires Inv(b) && Enabled(b, e)
    ensures Refines(b, e)
  {
    match e
    case Send(t, v, waits, i) => SendRefines(b, t, v, waits, i);
    case Urgent(v) => UrgentRefines(b, v);
    case Recv(t, waits, i) => RecvRefines(b, t, waits, i);
    case ExpireReceiver(i) => ExpireCovered(b.receivers, i, b.entry);
    case ExpireSender(i) => ExpireCovered(b.senders, i, |b.slots| - b.entry);
    case Reset =>
  }

  // ---------- runs ----------

  ghost predicate Legal(b: Box, es: seq<Event>)
    requires Inv(b)
    decreases |es|, 0
  {
    es == [] || (Legal(b, es[..|es| - 1]) && Enabled(After(b, es[..|es| - 1]), es[|es| - 1]))
  }

  ghost function After(b: Box, es: seq<Event>): (r: Box)
    requires Inv(b) && Legal(b, es)
    ensures Inv(r) && |r.slots| == |b.slots|
    decreases |es|, 1
  {
    if es == [] then b
    else
      var p := After(b, es[..|es| - 1]);
      StepRefines(p, es[|es| - 1]);
      Step(p, es[|es| - 1])
  }

  ghost function Effects(b: Box, es: seq<Event>): seq<Op<Mail>>
    requires Inv(b) && Legal(b, es)
    decreases |es|
  {
    if es == [] then []
    else Effects(b, es[..|es| - 1]) + [Effect(After(b, es[..|es| - 1]), es[|es| - 1])]
  }

  lemma {:induction false} RunRefines(b: Box, es: seq<Event>)
    requires Inv(b) && b.entry == 0 && Legal(b, es)
    ensures Run(|b.slots|, Effects(b, es)) == Some(Contents(After(b, es)))
    decreases |es|
  {
    if es != [] {
      var before := es[..|es| - 1];
      RunRefines(b, before);
      RunSnoc(|b.slots|, Effects(b, before), Effect(After(b, before), es[|es| - 1]));
      StepRefines(After(b, before), es[|es| - 1]);
    }
  }

  function Fresh(slots: seq<Mail>): Box { Box(slots, 0, 0, 0, NoWaiters, NoWaiters) }

  /** in_offset lies entry places behind out_offset, around the ring. */
  ghost predicate InRing(b: Box) {
    |b.slots| > 0 ==> b.inOffset == (b.outOffset + b.entry) % |b.slots|
  }

  /** Without urgent mails and resets, what was sent is what was received followed by what is in the box. */
  lemma MailsInOrder(slots: seq<Mail>, es: seq<Event>)
    requires |slots| <= MB_ENTRY_MAX && Legal(Fresh(slots), es)
    requires forall i :: 0 <= i < |es| ==> !es[i].Urgent? && !es[i].Reset?
    ensures var ops := Effects(Fresh(slots), es);
      Pushed(ops) == Popped(ops) + Contents(After(Fresh(slots), es))
  {
    RunRefines(Fresh(slots), es);
    PlainEffects(Fresh(slots), es);
    FirstInFirstOut(|slots|, Effects(Fresh(slots), es));
  }

  lemma {:induction false} PlainEffects(b: Box, es: seq<Event>)
    requires Inv(b) && Legal(b, es) && forall i :: 0 <= i < |es| ==> !es[i].Urgent? && !es[i].Reset?
    ensures Plain(Effects(b, es))
    decreases |es|
  {
    if es != [] {
      PlainEffects(b, es[..|es| - 1]);
      PlainSnoc(Effects(b, es[..|es| - 1]), Effect(After(b, es[..|es| - 1]), es[|es| - 1]));
    }
  }

  lemma OffsetsAgree(b: Box)
    requires Inv(b)
    ensures InRing(b)
  {
    if |b.slots| > 0 { SlotMod(b.outOffset, b.entry, |b.slots|); }
  }

  /** In every interleaving the ring is one bounded deque and no wake-up is lost on either side. */
  lemma EveryRun(slots: seq<Mail>, es: seq<Event>)
    requires |slots| <= MB_ENTRY_MAX
    ensures Inv(Fresh(slots))
    ensures Legal(Fresh(slots), es) ==>
      var b := After(Fresh(slots), es);
      && InRing(b)
      && NoLostWakeup(b.receivers, b.entry) && NoLostWakeup(b.senders, |slots| - b.entry)
      && Run(|slots|, Effects(Fresh(slots), es)) == Some(Contents(b))
  {
    var b := Fresh(slots);
    assert Inv(b);
    if Legal(b, es) {
      RunRefines(b, es);
      OffsetsAgree(After(b, es));
    }
  }

  // ---------- struct rt_mailbox ----------

  lemma SendInv(b: Box, t: Tid, v: Mail, waits: bool, i: nat)
    requires Inv(b) && Enabled(b, Send(t, v, waits, i))
    ensures Inv(SendStep(b, t, v, waits, i)) && (b.entry < |b.slots| ==> b.inOffset < |b.slots|)
  {
    SendRefines(b, t, v, waits, i);
  }

  lemma RecvInv(b: Box, t: Tid, waits: bool, i: nat)
    requires Inv(b) && Enabled(b, Recv(t, waits, i))
    ensures Inv(RecvStep(b, t, waits, i))
    ensures b.entry > 0 ==> b.outOffset < |b.slots| && Contents(b) != [] && Contents(b)[0] == b.slots[b.outOffset]
  {
    RecvRefines(b, t, waits, i);
  }

  class Object {
    const slots: array<Mail>
    var inOffset: nat
    var outOffset: nat
    var entry: nat
    var receivers: Waiters
    var senders: Waiters

    ghost function Abs(): Box
      reads this, slots
    {
      Box(slots[..], inOffset, outOffset, entry, receivers, senders)
    }

    ghost predicate Valid()
      reads this, slots
    {
      Inv(Abs())
    }

    /** rt_mb_init: size is cut to 16 bits. */
    constructor (size: nat)
      ensures Valid() && fresh(slots) && slots.Length == size % 65536
      ensures Abs() == Fresh(slots[..])
    {
      slots := new Mail[size % 65536];
      inOffset, outOffset, entry := 0, 0, 0;
      receivers, senders := NoWaiters, NoWaiters;
    }

    /** rt_mb_send_wait from one look at the ring to the next wait or the return. */
    method Send(t: Tid, v: Mail, waits: bool, fifo: bool, priority: Tid -> nat) returns (sent: bool, ghost i: nat)
      requires Valid() && Enabled(Abs(), Event.Send(t, v, waits, 0))
      modifies this, slots
      ensures Place(old(senders).suspended, t, fifo, priority, i)
      ensures Valid() && Abs() == SendStep(old(Abs()), t, v, waits, i)
      ensures sent <==> old(entry) < slots.Length
    {
      var slept;
      slept, i := ListSuspend(Look(senders, t), t, fifo, priority);
      SendInv(Abs(), t, v, waits, i);
      sent := entry != slots.Length;
      if !sent {
        senders := if waits then slept else Look(senders, t);
        return;
      }
      senders := Look(senders, t);
      PutMail(v);
    }

    /** The part of rt_mb_send_wait behind the waiting loop. */
    method PutMail(v: Mail)
      requires inOffset < slots.Length
      modifies this`inOffset, this`entry, this`receivers, slots
      ensures Abs() == Put(old(Abs()), v)
    {
      slots[inOffset] := v;
      inOffset := inOffset + 1;
      if inOffset >= slots.Length { inOffset := 0; }
      if entry < MB_ENTRY_MAX {
        entry := entry + 1;
        receivers := WakeFirst(receivers);
      }
    }

    /** rt_mb_urgent */
    method Urgent(v: Mail) returns (sent: bool)
      requires Valid()
      modifies this, slots
      ensures Valid() && Abs() == UrgentStep(old(Abs()), v) && (sent <==> old(entry) < slots.Length)
    {
      UrgentRefines(Abs(), v);
      sent := entry != slots.Length;
      if sent {
        if outOffset > 0 { outOffset := outOffset - 1; } else { outOffset := slots.Length - 1; }
        slots[outOffset] := v;
        entry := entry + 1;
        receivers := WakeFirst(receivers);
      }
    }

    /** rt_mb_recv from one look at the ring to the next wait or the return. */
    method Recv(t: Tid, waits: bool, fifo: bool, priority: Tid -> nat) returns (mail: Option<Mail>, ghost i: nat)
      requires Valid() && Enabled(Abs(), Event.Recv(t, waits, 0))
      modifies this
      ensures Place(old(receivers).suspended, t, fifo, priority, i)
      ensures Valid() && Abs() == RecvStep(old(Abs()), t, waits, i)
      ensures mail == if old(entry) == 0 then None else Some(old(Contents(Abs()))[0])
    {
      var slept;
      slept, i := ListSuspend(Look(receivers, t), t, fifo, priority);
      RecvInv(Abs(), t, waits, i);
      mail := RecvLook(t, waits, slept, i);
    }

    method RecvLook(t: Tid, waits: bool, slept: Waiters, ghost i: nat) returns (mail: Option<Mail>)
      requires i <= |receivers.suspended| && slept == Suspend(Look(receivers, t), t, i)
      requires entry > 0 ==> outOffset < slots.Length
      modifies this
      ensures Abs() == RecvStep(old(Abs()), t, waits, i)
      ensures mail == if old(entry) == 0 then None else Some(slots[old(outOffset)])
    {
      if entry == 0 {
        receivers := if waits then slept else Look(receivers, t);
        return None;
      }
      receivers := Look(receivers, t);
      var v := GetMail();
      mail := Some(v);
    }

    /** The part of rt_mb_recv behind the waiting loop. */
    method GetMail() returns (v: Mail)
      requires outOffset < slots.Length && entry > 0
      modifies this`outOffset, this`entry, this`senders
      ensures v == slots[old(outOffset)]
      ensures Abs() == old(Abs()).(outOffset := Advance(old(outOffset), slots.Length), entry := old(entry) - 1,
                                   senders := WakeFirst(old(senders)))
    {
      v := slots[outOffset];
      outOffset := outOffset + 1;
      if outOffset >= slots.Length { outOffset := 0; }
      entry := entry - 1;
      senders := WakeFirst(senders);
    }

    /** rt_mb_control(RT_IPC_CMD_RESET) */
    method Reset()
      requires Valid()
      modifies this
      ensures Valid() && Abs() == ResetStep(old(Abs()))
    {
      receivers := ResumeEveryone(receivers);
      senders := ResumeEveryone(senders);
      entry, inOffset, outOffset := 0, 0, 0;
    }
  }
}
