/** What single calls on a mailbox come to: where the mail goes, what is received, who sleeps and who is woken. */
module MailboxCalls {
  import opened WaitQueue
  import opened Mailbox

  /** A send puts the caller's mail behind all others, an urgent one in front, unless the box is full. */
  lemma SendAdds(b: Box, e: Event)
    requires Inv(b) && Enabled(b, e) && (e.Send? || e.Urgent?)
    ensures Inv(Step(b, e))
    ensures Contents(Step(b, e)) ==
      if b.entry == |b.slots| then Contents(b) else if e.Send? then Contents(b) + [e.mail] else [e.mail] + Contents(b)
  {
    StepRefines(b, e);
  }

  /** A receive takes the oldest mail, unless the box is empty. */
  lemma ReceiveTakes(b: Box, t: Tid, waits: bool, i: nat)
    requires Inv(b) && Enabled(b, Recv(t, waits, i))
    ensures Inv(Step(b, Recv(t, waits, i)))
    ensures b.entry > 0 ==>
      b.outOffset < |b.slots| && Contents(b) == [b.slots[b.outOffset]] + Contents(Step(b, Recv(t, waits, i)))
    ensures b.entry == 0 ==> Contents(Step(b, Recv(t, waits, i))) == []
  {
    StepRefines(b, Recv(t, waits, i));
  }

  /** A caller that finds a full or empty box and waits falls asleep; one that does not wait leaves. */
  lemma BlockedSleeps(b: Box, e: Event)
    requires Inv(b) && Enabled(b, e)
    ensures e.Send? && b.entry == |b.slots| ==>
      if e.waits then Joins(b.senders, Step(b, e).senders, e.t) else Step(b, e).senders.suspended == b.senders.suspended
    ensures e.Recv? && b.entry == 0 ==>
      if e.waits then Joins(b.receivers, Step(b, e).receivers, e.t) else Step(b, e).receivers.suspended == b.receivers.suspended
  {
    if e.Send? { JoinsAt(b.senders, e.t, e.i); }
    if e.Recv? { JoinsAt(b.receivers, e.t, e.i); }
  }

  /** A mail put in wakes the first receiver of the list and no other; a mail taken out the first sender. */
  lemma WakesTheFirst(b: Box, e: Event)
    requires Inv(b) && Enabled(b, e)
    ensures (e.Send? || e.Urgent?) && b.entry < |b.slots| && b.receivers.suspended != [] ==>
      var r := Step(b, e).receivers;
      r.suspended == b.receivers.suspended[1..] && r.woken - b.receivers.woken == {b.receivers.suspended[0]}
    ensures e.Recv? && b.entry > 0 && b.senders.suspended != [] ==>
      var r := Step(b, e).senders;
      r.suspended == b.senders.suspended[1..] && r.woken - b.senders.woken == {b.senders.suspended[0]}
  {
  }

  /** A time-out takes its thread off the list and nothing else away. */
  lemma TimeoutLeaves(b: Box, i: nat)
    requires Inv(b)
    ensures Enabled(b, ExpireReceiver(i)) ==>
      var r := Step(b, ExpireReceiver(i));
      i < |b.receivers.suspended| && Leaves(b.receivers, r.receivers, b.receivers.suspended[i]) && r == b.(receivers := r.receivers)
    ensures Enabled(b, ExpireSender(i)) ==>
      var r := Step(b, ExpireSender(i));
      i < |b.senders.suspended| && Leaves(b.senders, r.senders, b.senders.suspended[i]) && r == b.(senders := r.senders)
  {
    if i < |b.receivers.suspended| { ExpireLeaves(b.receivers, i); }
    if i < |b.senders.suspended| { ExpireLeaves(b.senders, i); }
  }

  /** A reset leaves the box empty and nobody asleep. */
  lemma ResetEmpties(b: Box)
    requires Inv(b)
    ensures var r := Step(b, Reset);
      Inv(r) && Contents(r) == [] && |r.slots| == |b.slots| && r.receivers.suspended == [] && r.senders.suspended == []
  {
    StepRefines(b, Reset);
  }
}
