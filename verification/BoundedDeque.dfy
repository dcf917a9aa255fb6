/** The bounded double-ended queue that message queues and mailboxes implement. */
module BoundedDeque {
  import opened Wrappers

  datatype Op<M> = PushBack(m: M) | PushFront(m: M) | PopFront(m: M) | Clear | Stutter

  /** The deque after op, or None where the specification does not allow it. */
  function Apply<M(==)>(cap: nat, d: seq<M>, op: Op<M>): Option<seq<M>> {
    match op
    case PushBack(m) => if |d| < cap then Some(d + [m]) else None
    case PushFront(m) => if |d| < cap then Some([m] + d) else None
    case PopFront(m) => if d != [] && d[0] == m then Some(d[1..]) else None
    case Clear => Some([])
    case Stutter => Some(d)
  }

  /** The deque after a whole run, from empty. */
  function Run<M(==)>(cap: nat, ops: seq<Op<M>>): Option<seq<M>> {
    if ops == [] then Some([])
    else
      var d := Run(cap, ops[..|ops| - 1]);
      if d.None? then None else Apply(cap, d.value, ops[|ops| - 1])
  }

  lemma RunSnoc<M>(cap: nat, ops: seq<Op<M>>, op: Op<M>)
    ensures Run(cap, ops + [op]) ==
      var d := Run(cap, ops); if d.None? then None else Apply(cap, d.value, op)
  {
    assert (ops + [op])[..|ops|] == ops;
  }

  /** What was pushed at the back and popped at the front, in order, with no other operation in between. */
  function Pushed<M>(ops: seq<Op<M>>): seq<M> {
    if ops == [] then []
    else
      var rest := Pushed(ops[..|ops| - 1]);
      match ops[|ops| - 1] case PushBack(m) => rest + [m] case _ => rest
  }

  function Popped<M>(ops: seq<Op<M>>): seq<M> {
    if ops == [] then []
    else
      var rest := Popped(ops[..|ops| - 1]);
      match ops[|ops| - 1] case PopFront(m) => rest + [m] case _ => rest
  }

  /** Nothing overtakes and nothing is dropped. */
  ghost predicate Plain<M>(ops: seq<Op<M>>) {
    forall i :: 0 <= i < |ops| ==> !ops[i].PushFront? && !ops[i].Clear?
  }

  lemma PlainSnoc<M>(ops: seq<Op<M>>, op: Op<M>)
    requires Plain(ops) && !op.PushFront? && !op.Clear?
    ensures Plain(ops + [op])
  {
  }

  /** Without urgent messages and resets, messages leave in the order in which they came, none lost. */
  lemma {:induction false} FirstInFirstOut<M>(cap: nat, ops: seq<Op<M>>)
    requires Run(cap, ops).Some?
    requires Plain(ops)
    ensures Pushed(ops) == Popped(ops) + Run(cap, ops).value && |Run(cap, ops).value| <= cap
  {
    if ops != [] {
      FirstInFirstOut(cap, ops[..|ops| - 1]);
    }
  }
}
