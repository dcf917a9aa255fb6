/** The event object of ipc.c: 32 flags, and threads waiting for all or any of some of them. */
module EventObject {
  import opened RtList
  import WaitQueue

  type Tid = int

  /** A flag word: the numbers of the bits that are set. */
  type Flags = set<nat>

  /** The option bits RT_EVENT_FLAG_AND, RT_EVENT_FLAG_OR and RT_EVENT_FLAG_CLEAR. */
  datatype Mode = Mode(all: bool, any: bool, clear: bool)

  /** A suspended thread with its event_set and event_info. */
  datatype Waiter = Waiter(t: Tid, want: Flags, option: Mode)

  /** got: the event_set left to each thread whose receive succeeded. */
  datatype Event = Event(flags: Flags, waiters: seq<Waiter>, got: map<Tid, Flags>)

  predicate HasMode(option: Mode) { option.all || option.any }

  /** The condition for the flags; AND takes precedence when both modes are given. */
  predicate Satisfied(want: Flags, option: Mode, flags: Flags) {
    if option.all then want <= flags else want * flags != {}
  }

  predicate Met(w: Waiter, flags: Flags) { Satisfied(w.want, w.option, flags) }

  ghost predicate DistinctThreads(ws: seq<Waiter>) {
    forall i, j :: 0 <= i < j < |ws| ==> ws[i].t != ws[j].t
  }

  /** Nobody sleeps through flags it is waiting for. */
  ghost predicate NoneMet(ws: seq<Waiter>, flags: Flags) {
    forall i :: 0 <= i < |ws| ==> !Met(ws[i], flags)
  }

  ghost predicate ProperWaiters(ws: seq<Waiter>) {
    forall i :: 0 <= i < |ws| ==> ws[i].want != {} && HasMode(ws[i].option)
  }

  ghost predicate Inv(e: Event) {
    DistinctThreads(e.waiters) && ProperWaiters(e.waiters) && NoneMet(e.waiters, e.flags)
  }

  // ---------- rt_event_send ----------

  function Remaining(ws: seq<Waiter>, flags: Flags): seq<Waiter> {
    if ws == [] then []
    else (if Met(ws[0], flags) then [] else [ws[0]]) + Remaining(ws[1..], flags)
  }

  /** The flags received by waiters that asked for them to be cleared. */
  function ClearSet(ws: seq<Waiter>, flags: Flags): Flags {
    if ws == [] then {}
    else (if Met(ws[0], flags) && ws[0].option.clear then ws[0].want * flags else {}) + ClearSet(ws[1..], flags)
  }

  function Delivered(ws: seq<Waiter>, flags: Flags, got: map<Tid, Flags>): map<Tid, Flags>
    decreases |ws|
  {
    if ws == [] then got
    else Delivered(ws[1..], flags, if Met(ws[0], flags) then got[ws[0].t := ws[0].want * flags] else got)
  }

  function SendStep(e: Event, bits: Flags): Event {
    if bits == {} then e
    else
      var flags := e.flags + bits;
      Event(flags - ClearSet(e.waiters, flags), Remaining(e.waiters, flags), Delivered(e.waiters, flags, e.got))
  }

  // ---------- rt_event_recv ----------

  ghost function RecvStep(e: Event, t: Tid, want: Flags, option: Mode, waits: bool, i: nat): Event
    requires i <= |e.waiters|
  {
    if want == {} then e
    else if Satisfied(want, option, e.flags) then
      e.(flags := if option.clear then e.flags - want else e.flags, got := e.got[t := e.flags * want])
    else if waits then e.(waiters := Inserted(e.waiters, i, Waiter(t, want, option)))
    else e
  }

  // ---------- what a send does, stated without its loop ----------

  /** Fewer flags satisfy less. */
  lemma Monotone(want: Flags, option: Mode, flags: Flags, less: Flags)
    requires Satisfied(want, option, less) && less <= flags
    ensures Satisfied(want, option, flags)
  {
    if !option.all {
      var b :| b in want * less;
      assert b in want * flags;
    }
  }

  /** Exactly the waiters that are not satisfied stay, in their order. */
  lemma {:induction false} RemainingExactly(ws: seq<Waiter>, flags: Flags, w: Waiter)
    ensures w in Remaining(ws, flags) <==> w in ws && !Met(w, flags)
  {
    if ws != [] { RemainingExactly(ws[1..], flags, w); }
  }

  lemma {:induction false} RemainingThreads(ws: seq<Waiter>, flags: Flags)
    requires DistinctThreads(ws)
    ensures DistinctThreads(Remaining(ws, flags))
  {
    if ws != [] {
      RemainingThreads(ws[1..], flags);
      var rest := Remaining(ws[1..], flags);
      forall k | 0 <= k < |rest| ensures rest[k].t != ws[0].t {
        RemainingExactly(ws[1..], flags, rest[k]);
        assert rest[k] in ws[1..];
      }
    }
  }

  ghost predicate Clears(w: Waiter, flags: Flags, b: nat) {
    Met(w, flags) && w.option.clear && b in w.want * flags
  }

  /** The cleared flags are the union of what the resumed CLEAR waiters received. */
  lemma {:induction false} ClearExactly(ws: seq<Waiter>, flags: Flags, b: nat)
    ensures b in ClearSet(ws, flags) <==> exists i :: 0 <= i < |ws| && Clears(ws[i], flags, b)
  {
    if ws != [] {
      ClearExactly(ws[1..], flags, b);
      if exists i :: 0 <= i < |ws[1..]| && Clears(ws[1..][i], flags, b) {
        var i :| 0 <= i < |ws[1..]| && Clears(ws[1..][i], flags, b);
        assert Clears(ws[i + 1], flags, b);
      }
      if exists i :: 0 <= i < |ws| && Clears(ws[i], flags, b) {
        var i :| 0 <= i < |ws| && Clears(ws[i], flags, b);
        if i > 0 { assert Clears(ws[1..][i - 1], flags, b); }
      }
    }
  }

  /** Each thread resumed by a send is left the flags it waited for that are set; no other thread is touched. */
  lemma {:induction false} DeliveredExactly(ws: seq<Waiter>, flags: Flags, got: map<Tid, Flags>)
    requires DistinctThreads(ws)
    ensures forall i :: 0 <= i < |ws| && Met(ws[i], flags) ==>
      ws[i].t in Delivered(ws, flags, got) && Delivered(ws, flags, got)[ws[i].t] == ws[i].want * flags
    ensures forall t :: (forall i :: 0 <= i < |ws| && Met(ws[i], flags) ==> ws[i].t != t) ==>
      (t in Delivered(ws, flags, got) <==> t in got)
      && (t in got ==> Delivered(ws, flags, got)[t] == got[t])
    decreases |ws|
  {
    if ws != [] {
      var g := if Met(ws[0], flags) then got[ws[0].t := ws[0].want * flags] else got;
      var rest := ws[1..];
      DeliveredExactly(rest, flags, g);
      forall i | 0 <= i < |ws| && Met(ws[i], flags)
        ensures ws[i].t in Delivered(ws, flags, got) && Delivered(ws, flags, got)[ws[i].t] == ws[i].want * flags
      {
        if i > 0 { assert rest[i - 1] == ws[i]; }
      }
      forall t | forall i :: 0 <= i < |ws| && Met(ws[i], flags) ==> ws[i].t != t
        ensures (t in Delivered(ws, flags, got) <==> t in got) && (t in got ==> Delivered(ws, flags, got)[t] == got[t])
      {
        forall i | 0 <= i < |rest| && Met(rest[i], flags) ensures rest[i].t != t { assert rest[i] == ws[i + 1]; }
      }
    }
  }

  // ---------- runs ----------

  lemma SendInv(e: Event, bits: Flags)
    requires Inv(e)
    ensures Inv(SendStep(e, bits))
  {
    if bits != {} {
      var flags := e.flags + bits;
      var r := SendStep(e, bits);
      RemainingThreads(e.waiters, flags);
      forall i | 0 <= i < |r.waiters|
        ensures !Met(r.waiters[i], r.flags) && r.waiters[i].want != {} && HasMode(r.waiters[i].option)
      {
        var w := r.waiters[i];
        RemainingExactly(e.waiters, flags, w);
        assert w in r.waiters;
        if Met(w, r.flags) { Monotone(w.want, w.option, flags, r.flags); }
      }
    }
  }

  /** t is not asleep on the event, and asks for AND or OR (rt_event_recv asserts it). */
  ghost predicate CanRecv(e: Event, t: Tid, option: Mode, i: nat) {
    i <= |e.waiters| && HasMode(option) && forall k :: 0 <= k < |e.waiters| ==> e.waiters[k].t != t
  }

  lemma RecvInv(e: Event, t: Tid, want: Flags, option: Mode, waits: bool, i: nat)
    requires Inv(e) && CanRecv(e, t, option, i)
    ensures Inv(RecvStep(e, t, want, option, waits, i))
  {
    var r := RecvStep(e, t, want, option, waits, i);
    if want != {} && Satisfied(want, option, e.flags) {
      forall k | 0 <= k < |r.waiters| ensures !Met(r.waiters[k], r.flags) {
        if Met(r.waiters[k], e.flags - want) { Monotone(r.waiters[k].want, r.waiters[k].option, e.flags, e.flags - want); }
      }
    } else if want != {} && waits {
      WaitInv(e, Waiter(t, want, option), i);
    }
  }

  lemma WaitInv(e: Event, w: Waiter, i: nat)
    requires Inv(e) && CanRecv(e, w.t, w.option, i) && w.want != {} && !Met(w, e.flags)
    ensures Inv(e.(waiters := Inserted(e.waiters, i, w)))
  {
    var ws := Inserted(e.waiters, i, w);
    forall k | 0 <= k < |ws| ensures ws[k].want != {} && HasMode(ws[k].option) && !Met(ws[k], e.flags) {
      if k < i { assert ws[k] == e.waiters[k]; } else if k > i { assert ws[k] == e.waiters[k - 1]; }
    }
    forall j, k | 0 <= j < k < |ws| ensures ws[j].t != ws[k].t {
      if j != i { assert ws[j] == e.waiters[if j < i then j else j - 1]; }
      if k != i { assert ws[k] == e.waiters[if k < i then k else k - 1]; }
    }
  }

  datatype Op =
    | Send(bits: Flags)
    | Recv(t: Tid, want: Flags, option: Mode, waits: bool, i: nat)
    | Expire(i: nat)
    | Reset

  /** Calls the code refuses leave the event as it is. */
  ghost function Step(e: Event, op: Op): (r: Event)
    requires Inv(e)
    ensures Inv(r)
  {
    match op
    case Send(bits) => SendInv(e, bits); SendStep(e, bits)
    case Recv(t, want, option, waits, i) =>
      if CanRecv(e, t, option, i) then
        RecvInv(e, t, want, option, waits, i);
        RecvStep(e, t, want, option, waits, i)
      else e
    case Expire(i) => if i < |e.waiters| then ExpireInv(e, i); e.(waiters := Removed(e.waiters, i)) else e
    case Reset => e.(flags := {}, waiters := [])
  }

  lemma ExpireInv(e: Event, i: nat)
    requires Inv(e) && i < |e.waiters|
    ensures Inv(e.(waiters := Removed(e.waiters, i)))
  {
    var ws := Removed(e.waiters, i);
    forall k | 0 <= k < |ws| ensures ws[k].want != {} && HasMode(ws[k].option) && !Met(ws[k], e.flags) {
      assert ws[k] == e.waiters[if k < i then k else k + 1];
    }
    forall j, k | 0 <= j < k < |ws| ensures ws[j].t != ws[k].t {
      assert ws[j] == e.waiters[if j < i then j else j + 1] && ws[k] == e.waiters[if k < i then k else k + 1];
    }
  }

  ghost function After(e: Event, ops: seq<Op>): (r: Event)
    requires Inv(e)
    ensures Inv(r)
    decreases |ops|
  {
    if ops == [] then e else Step(After(e, ops[..|ops| - 1]), ops[|ops| - 1])
  }

  /** In every run no suspended thread's condition holds, and the EINVAL branch of a send is dead. */
  lemma EveryRun(ops: seq<Op>)
    ensures Inv(Event({}, [], map[]))
    ensures var e := After(Event({}, [], map[]), ops);
      NoneMet(e.waiters, e.flags) && ProperWaiters(e.waiters)
  {
  }

  lemma {:induction false} RemainingConcat(a: seq<Waiter>, b: seq<Waiter>, flags: Flags)
    ensures Remaining(a + b, flags) == Remaining(a, flags) + Remaining(b, flags)
  {
    if a == [] {
      assert a + b == b;
    } else {
      RemainingConcat(a[1..], b, flags);
      assert (a + b)[0] == a[0] && (a + b)[1..] == a[1..] + b;
      var first := if Met(a[0], flags) then [] else [a[0]];
      Assoc(first, Remaining(a[1..], flags), Remaining(b, flags));
    }
  }

  lemma Assoc(x: seq<Waiter>, y: seq<Waiter>, z: seq<Waiter>)
    ensures x + y + z == x + (y + z)
  {
  }

  lemma {:induction false} ClearConcat(a: seq<Waiter>, b: seq<Waiter>, flags: Flags)
    ensures ClearSet(a + b, flags) == ClearSet(a, flags) + ClearSet(b, flags)
  {
    if a == [] {
      assert a + b == b;
    } else {
      ClearConcat(a[1..], b, flags);
      assert (a + b)[1..] == a[1..] + b;
    }
  }

  lemma {:induction false} DeliveredConcat(a: seq<Waiter>, b: seq<Waiter>, flags: Flags, got: map<Tid, Flags>)
    ensures Delivered(a + b, flags, got) == Delivered(b, flags, Delivered(a, flags, got))
    decreases |a|
  {
    if a == [] {
      assert a + b == b;
    } else {
      DeliveredConcat(a[1..], b, flags, if Met(a[0], flags) then got[a[0].t := a[0].want * flags] else got);
      assert (a + b)[1..] == a[1..] + b;
    }
  }

  /** What t has got is not touched by waiters other than t. */
  lemma {:induction false} DeliveredKeeps(ws: seq<Waiter>, flags: Flags, got: map<Tid, Flags>, t: Tid, v: Flags)
    requires forall k :: 0 <= k < |ws| ==> ws[k].t != t
    ensures Delivered(ws, flags, got[t := v]) == Delivered(ws, flags, got)[t := v]
    decreases |ws|
  {
    if ws != [] {
      var x, u := ws[0].t, ws[0].want * flags;
      assert got[t := v][x := u] == got[x := u][t := v];
      DeliveredKeeps(ws[1..], flags, if Met(ws[0], flags) then got[x := u] else got, t, v);
    }
  }

  lemma {:induction false} ClearWithin(ws: seq<Waiter>, flags: Flags)
    ensures ClearSet(ws, flags) <= flags
  {
    if ws != [] { ClearWithin(ws[1..], flags); }
  }

  /** t waits at place i of the list and is then met by the send. */
  ghost function WaitThenSend(e: Event, t: Tid, want: Flags, option: Mode, i: nat, bits: Flags): Event
    requires i <= |e.waiters|
  {
    SendStep(RecvStep(e, t, want, option, true, i), bits)
  }

  /** What place i of the list becomes once the send has taken the satisfied waiters out. */
  ghost function PlaceLeft(e: Event, i: nat, bits: Flags): (j: nat)
    requires i <= |e.waiters| && bits != {}
    ensures j <= |SendStep(e, bits).waiters|
  {
    var flags := e.flags + bits;
    assert e.waiters == e.waiters[..i] + e.waiters[i..];
    RemainingConcat(e.waiters[..i], e.waiters[i..], flags);
    |Remaining(e.waiters[..i], flags)|
  }

  /** The send comes first and t receives, or waits between the same waiters as far as they are left. */
  ghost function SendThenRecv(e: Event, t: Tid, want: Flags, option: Mode, i: nat, bits: Flags): Event
    requires i <= |e.waiters| && bits != {}
  {
    RecvStep(SendStep(e, bits), t, want, option, true, PlaceLeft(e, i, bits))
  }

  function Threads(ws: seq<Waiter>): (r: seq<Tid>)
    ensures |r| == |ws| && forall k :: 0 <= k < |ws| ==> r[k] == ws[k].t
  {
    seq(|ws|, k requires 0 <= k < |ws| => ws[k].t)
  }

  /** No waiter is behind a less urgent one. */
  ghost predicate InOrder(ws: seq<Waiter>, priority: Tid -> nat) {
    forall j, k :: 0 <= j < k < |ws| ==> priority(ws[j].t) <= priority(ws[k].t)
  }

  /** The waiters that stay are waiters that were there. */
  lemma StillThere(ws: seq<Waiter>, flags: Flags, k: nat) returns (m: nat)
    requires k < |Remaining(ws, flags)|
    ensures m < |ws| && ws[m] == Remaining(ws, flags)[k]
  {
    RemainingExactly(ws, flags, Remaining(ws, flags)[k]);
    assert Remaining(ws, flags)[k] in ws;
    m :| 0 <= m < |ws| && ws[m] == Remaining(ws, flags)[k];
  }

  /** In front of place i nobody is less urgent than p; from there on everybody is. */
  ghost predicate Divides(ws: seq<Waiter>, priority: Tid -> nat, p: nat, i: nat) {
    && i <= |ws|
    && (forall k :: 0 <= k < i ==> priority(ws[k].t) <= p)
    && (forall k :: i <= k < |ws| ==> p < priority(ws[k].t))
  }

  lemma DividesRemaining(a: seq<Waiter>, b: seq<Waiter>, flags: Flags, priority: Tid -> nat, p: nat)
    requires Divides(a + b, priority, p, |a|)
    ensures Divides(Remaining(a, flags) + Remaining(b, flags), priority, p, |Remaining(a, flags)|)
  {
    var x, y := Remaining(a, flags), Remaining(b, flags);
    forall k | 0 <= k < |x| ensures priority(x[k].t) <= p {
      var m := StillThere(a, flags, k);
      assert (a + b)[m] == x[k];
    }
    forall k | 0 <= k < |y| ensures p < priority(y[k].t) {
      var m := StillThere(b, flags, k);
      assert (a + b)[|a| + m] == y[k];
    }
  }

  /** If i is where _ipc_list_suspend puts t before the send, PlaceLeft is where it puts t afterwards. */
  lemma PlaceLeftIsPlace(e: Event, t: Tid, fifo: bool, priority: Tid -> nat, i: nat, bits: Flags)
    requires bits != {} && WaitQueue.Place(Threads(e.waiters), t, fifo, priority, i)
    requires fifo || InOrder(e.waiters, priority)
    ensures WaitQueue.Place(Threads(SendStep(e, bits).waiters), t, fifo, priority, PlaceLeft(e, i, bits))
  {
    var flags, a, b := e.flags + bits, e.waiters[..i], e.waiters[i..];
    assert e.waiters == a + b;
    RemainingConcat(a, b, flags);
    if !fifo {
      PlaceDivides(e.waiters, t, priority, i);
      DividesRemaining(a, b, flags, priority, priority(t));
    }
  }

  lemma PlaceDivides(ws: seq<Waiter>, t: Tid, priority: Tid -> nat, i: nat)
    requires WaitQueue.Place(Threads(ws), t, false, priority, i) && InOrder(ws, priority)
    ensures Divides(ws, priority, priority(t), i)
  {
    forall k | 0 <= k < i ensures priority(ws[k].t) <= priority(t) { assert Threads(ws)[k] == ws[k].t; }
    forall k | i <= k < |ws| ensures priority(t) < priority(ws[k].t) { assert Threads(ws)[i] == ws[i].t; }
  }

  /** What a send does to a list with w at place i. */
  lemma JoinedAt(ws: seq<Waiter>, w: Waiter, i: nat, flags: Flags, got: map<Tid, Flags>)
    requires i <= |ws| && forall k :: i <= k < |ws| ==> ws[k].t != w.t
    ensures |Remaining(ws[..i], flags)| <= |Remaining(ws, flags)|
    ensures Remaining(Inserted(ws, i, w), flags) ==
      if Met(w, flags) then Remaining(ws, flags) else Inserted(Remaining(ws, flags), |Remaining(ws[..i], flags)|, w)
    ensures ClearSet(Inserted(ws, i, w), flags) ==
      ClearSet(ws, flags) + (if Met(w, flags) && w.option.clear then w.want * flags else {})
    ensures Delivered(Inserted(ws, i, w), flags, got) ==
      var d := Delivered(ws, flags, got); if Met(w, flags) then d[w.t := w.want * flags] else d
  {
    var a, b := ws[..i], ws[i..];
    assert ws == a + b && Inserted(ws, i, w) == a + ([w] + b) && ([w] + b)[1..] == b;
    RemainingConcat(a, b, flags);
    RemainingConcat(a, [w] + b, flags);
    ClearConcat(a, b, flags);
    ClearConcat(a, [w] + b, flags);
    DeliveredConcat(a, b, flags, got);
    DeliveredConcat(a, [w] + b, flags, got);
    DeliveredKeeps(b, flags, Delivered(a, flags, got), w.t, w.want * flags);
  }

  /**
   Waiting first, anywhere in the list, and being woken by the send ends as sending first and
   receiving afterwards, if and only if t is not satisfied anyway or no other waiter clears a flag
   that t wants.
   */
  lemma WaitCommutesWithSend(e: Event, t: Tid, want: Flags, option: Mode, i: nat, bits: Flags)
    requires want != {} && bits != {} && !Satisfied(want, option, e.flags)
    requires i <= |e.waiters| && forall k :: i <= k < |e.waiters| ==> e.waiters[k].t != t
    ensures WaitThenSend(e, t, want, option, i, bits) == SendThenRecv(e, t, want, option, i, bits) <==>
      var flags := e.flags + bits;
      !Satisfied(want, option, flags) || ClearSet(e.waiters, flags) * want == {}
  {
    var w, flags := Waiter(t, want, option), e.flags + bits;
    var cleared := ClearSet(e.waiters, flags);
    var r := SendStep(e, bits);
    JoinedAt(e.waiters, w, i, flags, e.got);
    ClearWithin(e.waiters, flags);
    if !Satisfied(want, option, flags) {
      if Satisfied(want, option, r.flags) { Monotone(want, option, flags, r.flags); }
    } else if cleared * want == {} {
      SameFlags(flags, cleared, want, option);
    } else {
      LostFlags(flags, cleared, want, option);
      var x, y := WaitThenSend(e, t, want, option, i, bits), SendThenRecv(e, t, want, option, i, bits);
      assert x.got[t] == want * flags && x.waiters == r.waiters;
      if Satisfied(want, option, r.flags) {
        assert y.got[t] == r.flags * want;
      } else {
        assert |y.waiters| == |x.waiters| + 1;
      }
    }
  }

  /**
   They differ: thread 1 waits for flag 0 with CLEAR, and thread 2 waits for flag 0 as well.  A send
   wakes both; after the send alone thread 1 has taken the flag and thread 2 waits.
   */
  lemma WaitDiffers()
    ensures var e, mode := Event({}, [Waiter(1, {0}, Mode(false, true, true))], map[]), Mode(false, true, false);
      && Inv(e) && CanRecv(e, 2, mode, 1)
      && WaitThenSend(e, 2, {0}, mode, 1, {0}) != SendThenRecv(e, 2, {0}, mode, 1, {0})
  {
    var e, mode := Event({}, [Waiter(1, {0}, Mode(false, true, true))], map[]), Mode(false, true, false);
    WaitCommutesWithSend(e, 2, {0}, mode, 1, {0});
    assert 0 in {0} * {0} && {} + {0} == {0};
    assert ClearSet(e.waiters, {0}) == {0};
    assert 0 in ClearSet(e.waiters, {0}) * {0};
  }

  /** Flags cleared elsewhere make no difference to t. */
  lemma SameFlags(flags: Flags, cleared: Flags, want: Flags, option: Mode)
    requires cleared * want == {} && Satisfied(want, option, flags)
    ensures Satisfied(want, option, flags - cleared) && (flags - cleared) * want == want * flags
    ensures (flags - cleared) - want == flags - (cleared + want * flags)
  {
    forall b | b in want ensures b !in cleared { assert b in cleared ==> b in cleared * want; }
    assert (flags - cleared) * want == want * flags;
  }

  /** Flags of t that others clear are lost to it. */
  lemma LostFlags(flags: Flags, cleared: Flags, want: Flags, option: Mode)
    requires cleared * want != {} && cleared <= flags
    ensures (flags - cleared) * want != want * flags
  {
    var b :| b in cleared * want;
    assert b in want * flags && b !in (flags - cleared) * want;
  }

  // ---------- what the flags mean ----------

  /** AND asks for all wanted flags, OR for one of them; AND takes precedence. */
  lemma SatisfiedMeans(want: Flags, option: Mode, flags: Flags)
    ensures option.all ==> (Satisfied(want, option, flags) <==> forall b :: b in want ==> b in flags)
    ensures !option.all ==> (Satisfied(want, option, flags) <==> exists b :: b in want && b in flags)
  {
    if b :| b in want && b in flags { assert b in want * flags; }
  }

  /**
   A receive that is satisfied leaves the caller the wanted flags that are set, and with CLEAR no
   wanted flag set; one that is not sleeps at its place, or changes nothing if it does not wait.
   */
  lemma RecvMeans(e: Event, t: Tid, want: Flags, option: Mode, waits: bool, i: nat)
    requires want != {} && i <= |e.waiters|
    ensures var r := RecvStep(e, t, want, option, waits, i);
      if Satisfied(want, option, e.flags) then
        && r.waiters == e.waiters && t in r.got
        && (forall b :: b in r.got[t] <==> b in want && b in e.flags)
        && (forall x :: x != t ==> (x in r.got <==> x in e.got) && (x in e.got ==> r.got[x] == e.got[x]))
        && (forall b :: b in r.flags <==> b in e.flags && !(option.clear && b in want))
      else if waits then
        && r.flags == e.flags && r.got == e.got
        && |r.waiters| == |e.waiters| + 1 && r.waiters[i] == Waiter(t, want, option) && Removed(r.waiters, i) == e.waiters
      else r == e
  {
  }

  /** After a send a flag is set if it was or has been sent, unless a woken CLEAR waiter has received it. */
  lemma SendMeans(e: Event, bits: Flags, b: nat)
    requires bits != {}
    ensures b in SendStep(e, bits).flags <==>
      (b in e.flags || b in bits) && !exists i :: 0 <= i < |e.waiters| && Clears(e.waiters[i], e.flags + bits, b)
  {
    ClearExactly(e.waiters, e.flags + bits, b);
  }

  // ---------- struct rt_event ----------

  class Object {
    var flags: Flags
    var waiters: seq<Waiter>
    var got: map<Tid, Flags>

    ghost function Abs(): Event
      reads this
    {
      Event(flags, waiters, got)
    }

    constructor ()
      ensures Abs() == Event({}, [], map[]) && Inv(Abs())
    {
      flags, waiters, got := {}, [], map[];
    }

    /** The loop of rt_event_send; refused: a waiter asked for neither AND nor OR. */
    method Walk() returns (clear: Flags, refused: bool)
      requires ProperWaiters(waiters)
      modifies this`waiters, this`got
      ensures !refused && clear == ClearSet(old(waiters), flags)
      ensures waiters == Remaining(old(waiters), flags) && got == Delivered(old(waiters), flags, old(got))
    {
      clear, refused := {}, false;
      var n := 0;
      ghost var kept, rest := [], waiters;
      while n < |waiters|
        invariant !refused && waiters == kept + rest && n == |kept| && ProperWaiters(rest)
        invariant kept + Remaining(rest, flags) == Remaining(old(waiters), flags)
        invariant clear + ClearSet(rest, flags) == ClearSet(old(waiters), flags)
        invariant Delivered(rest, flags, got) == Delivered(old(waiters), flags, old(got))
        decreases |rest|
      {
        var w := waiters[n];
        assert w == rest[0] && HasMode(w.option);
        refused := refused || !HasMode(w.option);
        if Met(w, flags) {
          if w.option.clear { clear := clear + w.want * flags; }
          got := got[w.t := w.want * flags];
          waiters := waiters[..n] + waiters[n + 1..];
          assert waiters == kept + rest[1..];
        } else {
          assert Remaining(rest, flags) == [w] + Remaining(rest[1..], flags);
          kept := kept + [w];
          assert waiters == kept + rest[1..];
          n := n + 1;
        }
        rest := rest[1..];
      }
    }

    /** rt_event_send: resume whoever is satisfied, clear afterwards. */
    method Send(bits: Flags) returns (ok: bool)
      requires Inv(Abs())
      modifies this
      ensures Inv(Abs()) && Abs() == SendStep(old(Abs()), bits) && (ok <==> bits != {})
    {
      SendInv(Abs(), bits);
      ok := bits != {};
      if !ok { return; }
      flags := flags + bits;
      var clear, _ := Walk();
      flags := flags - clear;
    }

    /** rt_event_recv up to the wait or the return */
    method Recv(t: Tid, want: Flags, option: Mode, waits: bool, i: nat)
      requires Inv(Abs()) && CanRecv(Abs(), t, option, i)
      modifies this
      ensures Inv(Abs()) && Abs() == RecvStep(old(Abs()), t, want, option, waits, i)
    {
      RecvInv(Abs(), t, want, option, waits, i);
      if want == {} { return; }
      var met := if option.all then flags * want == want else flags * want != {};
      assert met == Satisfied(want, option, flags) by {
        assert flags * want == want <==> want <= flags;
        assert flags * want == want * flags;
      }
      if met {
        got := got[t := flags * want];
        if option.clear { flags := flags - want; }
      } else if waits {
        ghost var before := waiters;
        waiters := waiters[..i] + [Waiter(t, want, option)] + waiters[i..];
        assert waiters == Inserted(before, i, Waiter(t, want, option));
      }
    }
  }
}
