/**
 What `hold` counts and when a mutex changes hands, over every run: with expiry and cleanup as one
 step (MutexRuns) and as two (MutexTwoStep).
 */
module MutexHolds {
  import opened Wrappers
  import opened PriorityInheritance
  import opened MutexOperations
  import opened MutexRuns
  import Two = MutexTwoStep

  // ---------- the count, from calls and owners alone ----------

  /** What a step does to one mutex, as far as the caller knows. */
  datatype Call = Takes(t: ThreadId) | Gives(t: ThreadId) | Other

  /** Takes of the owner that succeeded and releases of the owner, since it became the owner. */
  datatype Tally = Tally(takes: nat, gives: nat)

  /** Becoming the owner is the first take; a nested one succeeds up to HOLD_MAX. */
  function Counted(n: Tally, call: Call, before: Option<ThreadId>, after: Option<ThreadId>): Tally {
    if after.None? then Tally(0, 0)
    else if after != before then Tally(1, 0)
    else if call == Takes(after.value) && n.takes - n.gives < HOLD_MAX then Tally(n.takes + 1, n.gives)
    else if call == Gives(after.value) then Tally(n.takes, n.gives + 1)
    else n
  }

  function CallOn(op: Op, m: MutexId): Call {
    match op
    case Take(t, k, _) => if k == m then Takes(t) else Other
    case Release(t, k) => if k == m then Gives(t) else Other
    case _ => Other
  }

  /** The tally after a run from s, starting from n. */
  ghost function Since(s: State, ops: seq<Op>, m: MutexId, n: Tally): Tally
    requires Inv(s) && m < |s.mutexes|
    decreases |ops|
  {
    if ops == [] then n
    else if !Enabled(s, ops[0]) then Since(s, ops[1..], m, n)
    else
      StepOwner(s, ops[0], m);
      var r := Step(s, ops[0]);
      Since(r, ops[1..], m, Counted(n, CallOn(ops[0], m), s.mutexes[m].owner, r.mutexes[m].owner))
  }

  // ---------- one step ----------

  /** Owner and hold are the same for every mutex. */
  ghost predicate SameHolds(a: State, b: State) {
    |b.mutexes| == |a.mutexes| && forall k: MutexId :: k < |a.mutexes| ==> SameHold(a.mutexes[k], b.mutexes[k])
  }

  predicate SameHold(a: Mutex, b: Mutex) { b.owner == a.owner && b.hold == a.hold }

  /**
   Who owns a mutex after a call: the taker of a free one; after the last release the first
   waiter, if there is one; else the same as before.
   */
  function OwnerAfter(mx: Mutex, call: Call): Option<ThreadId> {
    if call.Takes? && mx.owner.None? then Some(call.t)
    else if call.Gives? && mx.owner == Some(call.t) && mx.hold == 1 then
      (if mx.waiters == [] then None else Some(mx.waiters[0]))
    else mx.owner
  }

  /** How often it is held then. */
  function HoldAfter(mx: Mutex, call: Call): int {
    if OwnerAfter(mx, call).None? then 0
    else if OwnerAfter(mx, call) != mx.owner then 1
    else if call == Takes(mx.owner.value) && mx.hold < HOLD_MAX then mx.hold + 1
    else if call == Gives(mx.owner.value) then mx.hold - 1
    else mx.hold
  }

  lemma CleanUpHolds(s: State, t: ThreadId, m: MutexId)
    requires Leaving(s, t, m)
    ensures SameHolds(s, CleanUp(s, t, m))
  {
    RefreshLinked(s, t, m);
    if NeedsUpdate(s, t, m) {
      RefreshChanged(s, t, m);
      var o, p := s.mutexes[m].owner.value, OwnerBest(s, m);
      if p != s.threads[o].currentPriority {
        PropagateShape(SetPriority(Refresh(s, m), o, p), o, s.threads[o].currentPriority);
      }
    }
  }

  lemma TakeBlockedHolds(s: State, t: ThreadId, m: MutexId)
    requires Blocks(s, t, m)
    ensures SameHolds(s, TakeBlocked(s, t, m))
  {
    EnqueueLinked(s, t, m);
    assert MutexLinked(s, m);
    TakeBlockedShape(s, t, m);
    EnqueueHolds(s, t, m);
  }

  lemma EnqueueHolds(s: State, t: ThreadId, m: MutexId)
    requires t < |s.threads| && m < |s.mutexes| && Below(s.mutexes[m].waiters, |s.threads|)
    ensures SameHolds(s, Enqueue(s, t, m))
  {
  }

  lemma TimeoutHolds(s: State, t: ThreadId)
    requires Inv(s) && t < |s.threads| && Waiting(s.threads[t])
    ensures SameHolds(s, TimeoutStep(s, t))
  {
    assert ThreadLinked(s, t);
    var m := s.threads[t].pending.value;
    ExpireThenCleanUp(s, t, m);
    CleanUpHolds(Expire(s, t), t, m);
  }

  lemma StepOwner(s: State, op: Op, m: MutexId)
    requires Inv(s) && Enabled(s, op) && m < |s.mutexes|
    ensures |Step(s, op).mutexes| == |s.mutexes|
    ensures Step(s, op).mutexes[m].owner == OwnerAfter(s.mutexes[m], CallOn(op, m))
    ensures Step(s, op).mutexes[m].hold == HoldAfter(s.mutexes[m], CallOn(op, m))
  {
    assert MutexLinked(s, m);
    match op
    case Take(t, k, wait) => TakeOwner(s, t, k, wait, m);
    case Release(t, k) => ReleaseOwner(s, t, k, m);
    case Timeout(t) => TimeoutHolds(s, t); assert SameHold(s.mutexes[m], Step(s, op).mutexes[m]);
    case Sleep(t) =>
    case Wake(t) =>
  }

  lemma TakeOwner(s: State, t: ThreadId, k: MutexId, wait: bool, m: MutexId)
    requires Inv(s) && Running(s, t) && k < |s.mutexes| && m < |s.mutexes|
    ensures var r := TakeStep(s, t, k, wait);
      var call := CallOn(Take(t, k, wait), m);
      |r.mutexes| == |s.mutexes| && r.mutexes[m].owner == OwnerAfter(s.mutexes[m], call) && r.mutexes[m].hold == HoldAfter(s.mutexes[m], call)
  {
    assert MutexLinked(s, m);
    if Contends(s, t, k) && wait {
      TakeBlockedHolds(s, t, k);
      assert SameHold(s.mutexes[m], TakeStep(s, t, k, wait).mutexes[m]);
    }
  }

  lemma ReleaseOwner(s: State, t: ThreadId, k: MutexId, m: MutexId)
    requires Inv(s) && Running(s, t) && k < |s.mutexes| && m < |s.mutexes|
    ensures var r := ReleaseStep(s, t, k);
      var call := CallOn(Release(t, k), m);
      |r.mutexes| == |s.mutexes| && r.mutexes[m].owner == OwnerAfter(s.mutexes[m], call) && r.mutexes[m].hold == HoldAfter(s.mutexes[m], call)
  {
    assert MutexLinked(s, m) && ThreadLinked(s, t);
    if s.mutexes[m].waiters != [] { assert WaitsFor(s.threads[s.mutexes[m].waiters[0]], m); }
  }

  // ---------- every run ----------

  /** The tally agrees with hold. */
  predicate Agrees(mx: Mutex, n: Tally) { mx.hold == n.takes - n.gives }

  lemma {:induction false} SinceAgrees(s: State, ops: seq<Op>, m: MutexId, n: Tally)
    requires Inv(s) && m < |s.mutexes| && Agrees(s.mutexes[m], n)
    ensures m < |After(s, ops).mutexes| && Agrees(After(s, ops).mutexes[m], Since(s, ops, m, n))
    decreases |ops|
  {
    if ops != [] {
      if Enabled(s, ops[0]) {
        StepOwner(s, ops[0], m);
        var r := Step(s, ops[0]);
        CountedAgrees(s.mutexes[m], n, CallOn(ops[0], m));
        SinceAgrees(r, ops[1..], m, Counted(n, CallOn(ops[0], m), s.mutexes[m].owner, r.mutexes[m].owner));
      } else {
        SinceAgrees(s, ops[1..], m, n);
      }
    }
  }

  lemma CountedAgrees(mx: Mutex, n: Tally, call: Call)
    requires Agrees(mx, n)
    ensures HoldAfter(mx, call) == Counted(n, call, mx.owner, OwnerAfter(mx, call)).takes - Counted(n, call, mx.owner, OwnerAfter(mx, call)).gives
  {
  }

  /**
   In every run: hold is the number of takes of the owner that succeeded, since it became the
   owner, less the number of its releases since then.
   */
  lemma HoldCounts(s: State, ops: seq<Op>, m: MutexId)
    requires Initial(s) && m < |s.mutexes|
    ensures Inv(s) && m < |After(s, ops).mutexes|
    ensures var n := Since(s, ops, m, Tally(0, 0)); After(s, ops).mutexes[m].hold == n.takes - n.gives
  {
    InitialInv(s);
    SinceAgrees(s, ops, m, Tally(0, 0));
  }

  /**
   After every run a mutex leaves its owner at one step only: the owner's release when the tally
   stands at one.  It then goes to the first waiter, and is free if there is none.
   */
  lemma OwnerLeaves(s: State, ops: seq<Op>, op: Op, m: MutexId, t: ThreadId)
    requires Initial(s) && m < |s.mutexes|
    ensures Inv(s) && m < |After(s, ops).mutexes|
    ensures Enabled(After(s, ops), op) && After(s, ops).mutexes[m].owner == Some(t) ==>
      var r, n := After(s, ops), Since(s, ops, m, Tally(0, 0));
      && m < |Step(r, op).mutexes|
      && (Step(r, op).mutexes[m].owner != Some(t) <==> op == Release(t, m) && n.takes - n.gives == 1)
      && (Step(r, op).mutexes[m].owner != Some(t) ==>
            Step(r, op).mutexes[m].owner == if r.mutexes[m].waiters == [] then None else Some(r.mutexes[m].waiters[0]))
  {
    HoldCounts(s, ops, m);
    var r := After(s, ops);
    if Enabled(r, op) && r.mutexes[m].owner == Some(t) {
      StepOwner(r, op, m);
      assert MutexLinked(r, m) && ThreadLinked(r, t);
      if r.mutexes[m].waiters != [] { assert WaitsFor(r.threads[r.mutexes[m].waiters[0]], m); }
    }
  }

  // ---------- what the parties of a call find ----------

  /** A take that blocks leaves the caller among the waiters, asleep; one that does not wait changes nothing. */
  lemma TakeWaits(s: State, t: ThreadId, m: MutexId, wait: bool)
    requires Inv(s) && Running(s, t) && m < |s.mutexes| && Contends(s, t, m)
    ensures var r := Step(s, Take(t, m, wait));
      if wait then t < |r.threads| && WaitsFor(r.threads[t], m) && m < |r.mutexes| && t in r.mutexes[m].waiters else r == s
  {
    if wait {
      EnqueueLinked(s, t, m);
      InsertFacts(s.threads, s.mutexes[m].waiters, t) by { assert MutexLinked(s, m); }
      TakeBlockedShape(s, t, m);
    }
  }

  lemma TakeBlockedShape(s: State, t: ThreadId, m: MutexId)
    requires Blocks(s, t, m) && Below(s.mutexes[m].waiters, |s.threads|)
    ensures SameShape(Enqueue(s, t, m), TakeBlocked(s, t, m))
  {
    EnqueueLinked(s, t, m);
    assert MutexLinked(s, m);
    var r, o, p := Enqueue(s, t, m), s.mutexes[m].owner.value, s.threads[t].currentPriority;
    if p < s.threads[o].currentPriority {
      TakeBlockedChanged(s, t, m);
      PropagateShape(SetPriority(r, o, p), o, s.threads[o].currentPriority);
      SameShapeTransitive(r, SetPriority(r, o, p), TakeBlocked(s, t, m));
    }
  }

  /** The last release wakes the first waiter, who goes on with the mutex; the others wait as before. */
  lemma ReleaseWakes(s: State, t: ThreadId, m: MutexId)
    requires Inv(s) && LastHold(s, t, m) && s.mutexes[m].waiters != []
    ensures var r, n := Step(s, Release(t, m)), s.mutexes[m].waiters[0];
      && m < |r.mutexes| && r.mutexes[m].owner == Some(n) && r.mutexes[m].waiters == s.mutexes[m].waiters[1..]
      && Running(r, n) && m in r.threads[n].taken && t < |r.threads| && m !in r.threads[t].taken
  {
    assert MutexLinked(s, m) && ThreadLinked(s, t);
    var n := s.mutexes[m].waiters[0];
    assert WaitsFor(s.threads[n], m);
    DisownTaken(s, t, m);
  }

  /** A take that times out leaves the caller running and off the queue, on which everybody else waits on. */
  lemma TimeoutLeaves(s: State, t: ThreadId)
    requires Inv(s) && t < |s.threads| && Waiting(s.threads[t])
    ensures var r, m := Step(s, Timeout(t)), s.threads[t].pending.value;
      && Running(r, t) && m < |s.mutexes| && m < |r.mutexes|
      && forall x :: x in r.mutexes[m].waiters <==> x in s.mutexes[m].waiters && x != t
  {
    assert ThreadLinked(s, t);
    var m := s.threads[t].pending.value;
    assert MutexLinked(s, m);
    WithoutFacts(s.mutexes[m].waiters, t);
    ExpireThenCleanUp(s, t, m);
    CleanUpThread(Expire(s, t), t, m);
    CleanUpShape(Expire(s, t), t, m);
  }

  lemma CleanUpShape(s: State, t: ThreadId, m: MutexId)
    requires Leaving(s, t, m)
    ensures var c := CleanUp(s, t, m);
      |c.mutexes| == |s.mutexes| && forall x :: x in c.mutexes[m].waiters <==> x in s.mutexes[m].waiters
  {
    RefreshLinked(s, t, m);
    if NeedsUpdate(s, t, m) {
      RefreshChanged(s, t, m);
      var o, p := s.mutexes[m].owner.value, OwnerBest(s, m);
      if p != s.threads[o].currentPriority {
        PropagateShape(SetPriority(Refresh(s, m), o, p), o, s.threads[o].currentPriority);
      }
    }
  }

  // ---------- takes and releases in a row ----------

  function Times(op: Op, k: nat): seq<Op> { if k == 0 then [] else Times(op, k - 1) + [op] }

  ghost function Try(s: State, op: Op): (r: State)
    requires Inv(s)
    ensures Inv(r)
  {
    if Enabled(s, op) then Step(s, op) else s
  }

  lemma {:induction false} AfterSnoc(s: State, ops: seq<Op>, op: Op)
    requires Inv(s)
    ensures After(s, ops + [op]) == Try(After(s, ops), op)
    decreases |ops|
  {
    var all := ops + [op];
    if ops == [] {
      assert all[1..] == [] && all[0] == op;
    } else {
      assert all[1..] == ops[1..] + [op] && all[0] == ops[0];
      AfterSnoc(Try(s, ops[0]), ops[1..], op);
    }
  }

  /** t owns m and holds it h times. */
  ghost predicate Owns(s: State, t: ThreadId, m: MutexId, h: int) {
    Running(s, t) && m < |s.mutexes| && s.mutexes[m].owner == Some(t) && s.mutexes[m].hold == h
  }

  lemma TakeOnce(s: State, t: ThreadId, m: MutexId, wait: bool, h: nat)
    requires Inv(s) && Running(s, t) && m < |s.mutexes| && h < HOLD_MAX
    requires if h == 0 then s.mutexes[m].owner.None? else Owns(s, t, m, h)
    ensures Owns(Try(s, Take(t, m, wait)), t, m, h + 1)
  {
  }

  lemma ReleaseOnce(s: State, t: ThreadId, m: MutexId, h: nat)
    requires Inv(s) && Owns(s, t, m, h) && h > 1
    ensures Owns(Try(s, Release(t, m)), t, m, h - 1)
  {
  }

  lemma {:induction false} ManyTakes(s: State, t: ThreadId, m: MutexId, wait: bool, k: nat)
    requires Inv(s) && Running(s, t) && m < |s.mutexes| && s.mutexes[m].owner.None? && 1 <= k <= HOLD_MAX
    ensures Owns(After(s, Times(Take(t, m, wait), k)), t, m, k)
  {
    var op := Take(t, m, wait);
    AfterSnoc(s, Times(op, k - 1), op);
    if k > 1 { ManyTakes(s, t, m, wait, k - 1); }
    TakeOnce(After(s, Times(op, k - 1)), t, m, wait, k - 1);
  }

  lemma {:induction false} ManyReleases(s: State, t: ThreadId, m: MutexId, h: nat, j: nat)
    requires Inv(s) && Owns(s, t, m, h) && j < h
    ensures Owns(After(s, Times(Release(t, m), j)), t, m, h - j)
    decreases j
  {
    if j > 0 {
      var op := Release(t, m);
      AfterSnoc(s, Times(op, j - 1), op);
      ManyReleases(s, t, m, h, j - 1);
      ReleaseOnce(After(s, Times(op, j - 1)), t, m, h - (j - 1));
    }
  }

  lemma ReleasedOnce(q: State, t: ThreadId, m: MutexId)
    requires Inv(q) && Owns(q, t, m, 1)
    ensures Enabled(q, Release(t, m)) && m < |Step(q, Release(t, m)).mutexes|
    ensures Step(q, Release(t, m)).mutexes[m].owner == if q.mutexes[m].waiters == [] then None else Some(q.mutexes[m].waiters[0])
  {
    StepOwner(q, Release(t, m), m);
  }

  /**
   A free mutex taken k times in a row is still owned after j < k releases; the k-th release frees
   it, or hands it to the first waiter.
   */
  lemma TakesAndReleases(s: State, t: ThreadId, m: MutexId, wait: bool, k: nat, j: nat) returns (r: State, q: State)
    requires Inv(s) && Running(s, t) && m < |s.mutexes| && s.mutexes[m].owner.None?
    requires 1 <= k <= HOLD_MAX && j < k
    ensures Inv(r) && r == After(s, Times(Take(t, m, wait), k)) && Owns(r, t, m, k)
    ensures Inv(q) && q == After(r, Times(Release(t, m), j)) && Owns(q, t, m, k - j)
    ensures j == k - 1 ==>
      Enabled(q, Release(t, m)) && m < |Step(q, Release(t, m)).mutexes|
      && Step(q, Release(t, m)).mutexes[m].owner == if q.mutexes[m].waiters == [] then None else Some(q.mutexes[m].waiters[0])
  {
    r := After(s, Times(Take(t, m, wait), k));
    ManyTakes(s, t, m, wait, k);
    q := After(r, Times(Release(t, m), j));
    ManyReleases(r, t, m, k, j);
    if j == k - 1 { ReleasedOnce(q, t, m); }
  }

  // ---------- the same with expiry and cleanup apart ----------

  function TwoCallOn(op: Two.Op, m: MutexId): Call {
    match op
    case Take(t, k, _) => if k == m then Takes(t) else Other
    case Release(t, k) => if k == m then Gives(t) else Other
    case _ => Other
  }

  lemma TwoCleanUpHolds(s: State, t: ThreadId, m: MutexId)
    requires Two.WeakInv(s) && t < |s.threads| && m < |s.mutexes|
    ensures SameHolds(s, Two.CleanUp(s, t, m))
  {
    Two.RefreshWeak(s, m);
    if NeedsUpdate(s, t, m) {
      var o := s.mutexes[m].owner.value;
      Two.CleanUpShifted(s, m, o);
      var p := OwnerBest(s, m);
      if p != s.threads[o].currentPriority { Two.PropagateShape(SetPriority(Refresh(s, m), o, p), o, s.threads[o].currentPriority); }
    }
  }

  lemma TwoTakeBlockedHolds(s: State, t: ThreadId, m: MutexId)
    requires Two.WeakInv(s) && Contends(s, t, m)
    ensures SameHolds(s, Two.TakeBlocked(s, t, m))
  {
    EnqueueLinked(s, t, m);
    Two.EnqueueQueued(s, t, m);
    assert MutexLinked(s, m);
    var o, p := s.mutexes[m].owner.value, s.threads[t].currentPriority;
    if p < s.mutexes[m].priority && p < s.threads[o].currentPriority {
      Two.TakeShifted(s, t, m);
      Two.PropagateShape(SetPriority(Enqueue(s, t, m), o, p), o, s.threads[o].currentPriority);
    }
  }

  lemma TwoStepOwner(s: State, op: Two.Op, m: MutexId)
    requires Two.WeakInv(s) && Two.Enabled(s, op) && m < |s.mutexes|
    ensures |Two.Step(s, op).mutexes| == |s.mutexes|
    ensures Two.Step(s, op).mutexes[m].owner == OwnerAfter(s.mutexes[m], TwoCallOn(op, m))
    ensures Two.Step(s, op).mutexes[m].hold == HoldAfter(s.mutexes[m], TwoCallOn(op, m))
  {
    assert MutexLinked(s, m);
    match op
    case Take(t, k, wait) => TwoTakeOwner(s, t, k, wait, m);
    case Release(t, k) => TwoReleaseOwner(s, t, k, m);
    case TimeOut(t) => assert ThreadLinked(s, t);
    case Finish(t) =>
      TwoCleanUpHolds(s, t, s.threads[t].pending.value);
      assert SameHold(s.mutexes[m], Two.CleanUp(s, t, s.threads[t].pending.value).mutexes[m]);
    case Sleep(t) =>
    case Wake(t) =>
  }

  lemma TwoTakeOwner(s: State, t: ThreadId, k: MutexId, wait: bool, m: MutexId)
    requires Two.WeakInv(s) && Running(s, t) && k < |s.mutexes| && m < |s.mutexes|
    ensures var r := Two.TakeStep(s, t, k, wait);
      var call := TwoCallOn(Two.Take(t, k, wait), m);
      |r.mutexes| == |s.mutexes| && r.mutexes[m].owner == OwnerAfter(s.mutexes[m], call) && r.mutexes[m].hold == HoldAfter(s.mutexes[m], call)
  {
    assert MutexLinked(s, m);
    if Contends(s, t, k) && wait {
      TwoTakeBlockedHolds(s, t, k);
      assert SameHold(s.mutexes[m], Two.TakeStep(s, t, k, wait).mutexes[m]);
    }
  }

  lemma TwoReleaseOwner(s: State, t: ThreadId, k: MutexId, m: MutexId)
    requires Two.WeakInv(s) && Running(s, t) && k < |s.mutexes| && m < |s.mutexes|
    ensures var r := Two.ReleaseStep(s, t, k);
      var call := TwoCallOn(Two.Release(t, k), m);
      |r.mutexes| == |s.mutexes| && r.mutexes[m].owner == OwnerAfter(s.mutexes[m], call) && r.mutexes[m].hold == HoldAfter(s.mutexes[m], call)
  {
    assert MutexLinked(s, m) && ThreadLinked(s, t);
    if s.mutexes[m].waiters != [] { assert WaitsFor(s.threads[s.mutexes[m].waiters[0]], m); }
  }

  ghost function TwoSince(s: State, ops: seq<Two.Op>, m: MutexId, n: Tally): Tally
    requires Two.WeakInv(s) && m < |s.mutexes|
    decreases |ops|
  {
    if ops == [] then n
    else if !Two.Enabled(s, ops[0]) then TwoSince(s, ops[1..], m, n)
    else
      TwoStepOwner(s, ops[0], m);
      var r := Two.Step(s, ops[0]);
      TwoSince(r, ops[1..], m, Counted(n, TwoCallOn(ops[0], m), s.mutexes[m].owner, r.mutexes[m].owner))
  }

  lemma {:induction false} TwoSinceAgrees(s: State, ops: seq<Two.Op>, m: MutexId, n: Tally)
    requires Two.WeakInv(s) && m < |s.mutexes| && Agrees(s.mutexes[m], n)
    ensures m < |Two.After(s, ops).mutexes| && Agrees(Two.After(s, ops).mutexes[m], TwoSince(s, ops, m, n))
    decreases |ops|
  {
    if ops != [] {
      if Two.Enabled(s, ops[0]) {
        TwoStepOwner(s, ops[0], m);
        var r := Two.Step(s, ops[0]);
        CountedAgrees(s.mutexes[m], n, TwoCallOn(ops[0], m));
        TwoSinceAgrees(r, ops[1..], m, Counted(n, TwoCallOn(ops[0], m), s.mutexes[m].owner, r.mutexes[m].owner));
      } else {
        TwoSinceAgrees(s, ops[1..], m, n);
      }
    }
  }

  /** HoldCounts and OwnerLeaves hold just the same when other threads run between an expiry and its cleanup. */
  lemma TwoHoldCounts(s: State, ops: seq<Two.Op>, op: Two.Op, m: MutexId, t: ThreadId)
    requires Initial(s) && m < |s.mutexes|
    ensures Two.WeakInv(s) && m < |Two.After(s, ops).mutexes|
    ensures var n := TwoSince(s, ops, m, Tally(0, 0)); Two.After(s, ops).mutexes[m].hold == n.takes - n.gives
    ensures Two.Enabled(Two.After(s, ops), op) && Two.After(s, ops).mutexes[m].owner == Some(t) ==>
      var r, n := Two.After(s, ops), TwoSince(s, ops, m, Tally(0, 0));
      && m < |Two.Step(r, op).mutexes|
      && (Two.Step(r, op).mutexes[m].owner != Some(t) <==> op == Two.Release(t, m) && n.takes - n.gives == 1)
      && (Two.Step(r, op).mutexes[m].owner != Some(t) ==>
            Two.Step(r, op).mutexes[m].owner == if r.mutexes[m].waiters == [] then None else Some(r.mutexes[m].waiters[0]))
  {
    InitialInv(s);
    Two.InvWeak(s);
    TwoSinceAgrees(s, ops, m, Tally(0, 0));
    var r := Two.After(s, ops);
    if Two.Enabled(r, op) && r.mutexes[m].owner == Some(t) {
      TwoStepOwner(r, op, m);
      assert MutexLinked(r, m) && ThreadLinked(r, t);
      if r.mutexes[m].waiters != [] { assert WaitsFor(r.threads[r.mutexes[m].waiters[0]], m); }
    }
  }
}
