/** Every run of mutex operations, and what holds in every state a run reaches. */
module MutexRuns {
  import opened Wrappers
  import opened PriorityInheritance
  import opened MutexOperations

  /** One critical section.  Sleep and Wake stand for suspension on any object that is not a mutex. */
  datatype Op =
    | Take(t: ThreadId, m: MutexId, wait: bool)
    | Release(t: ThreadId, m: MutexId)
    | Timeout(t: ThreadId)
    | Sleep(t: ThreadId)
    | Wake(t: ThreadId)

  ghost predicate Enabled(s: State, op: Op) {
    match op
    case Take(t, m, _) => Running(s, t) && m < |s.mutexes|
    case Release(t, m) => Running(s, t) && m < |s.mutexes|
    case Timeout(t) => t < |s.threads| && Waiting(s.threads[t])
    case Sleep(t) => Running(s, t)
    case Wake(t) => t < |s.threads| && s.threads[t].suspended && s.threads[t].pending.None?
  }

  function SetHold(s: State, m: MutexId, hold: nat): State
    requires m < |s.mutexes|
  {
    s.(mutexes := s.mutexes[m := s.mutexes[m].(hold := hold)])
  }

  function SetSuspended(s: State, t: ThreadId, b: bool): State
    requires t < |s.threads|
  {
    s.(threads := s.threads[t := s.threads[t].(suspended := b)])
  }

  function ClearPending(s: State, t: ThreadId): State
    requires t < |s.threads|
  {
    s.(threads := s.threads[t := s.threads[t].(pending := None)])
  }

  lemma SetHoldInv(s: State, m: MutexId, hold: nat)
    requires Inv(s) && m < |s.mutexes| && s.mutexes[m].owner.Some? && 1 <= hold <= HOLD_MAX
    ensures Inv(SetHold(s, m, hold))
  {
    var r := SetHold(s, m, hold);
    forall u: ThreadId | u < |r.threads| ensures ThreadLinked(r, u) && IsBest(r.threads[u].currentPriority, r.threads[u], r.mutexes) {
      assert ThreadLinked(s, u);
      BestAgree(s.threads[u].currentPriority, s.threads[u], r.threads[u], s.mutexes, r.mutexes);
    }
    forall k: MutexId | k < |r.mutexes| ensures MutexLinked(r, k) { assert MutexLinked(s, k); }
  }

  /** Flags of a thread in no mutex queue do not matter. */
  lemma IdleThreadInv(s: State, r: State, t: ThreadId)
    requires Inv(s) && t < |s.threads| && !Waiting(s.threads[t])
    requires r.mutexes == s.mutexes && |r.threads| == |s.threads|
    requires forall u: ThreadId :: u < |s.threads| && u != t ==> r.threads[u] == s.threads[u]
    requires r.threads[t] == s.threads[t].(suspended := r.threads[t].suspended, pending := r.threads[t].pending)
    requires !Waiting(r.threads[t])
    ensures Inv(r)
  {
    forall u: ThreadId | u < |r.threads| ensures ThreadLinked(r, u) && IsBest(r.threads[u].currentPriority, r.threads[u], r.mutexes) {
      assert ThreadLinked(s, u);
      BestAgree(s.threads[u].currentPriority, s.threads[u], r.threads[u], s.mutexes, r.mutexes);
    }
    forall k: MutexId | k < |r.mutexes|
      ensures MutexLinked(r, k)
      ensures Sorted(r.threads, r.mutexes[k].waiters) && r.mutexes[k].priority == HeadPriority(r.threads, r.mutexes[k].waiters)
    {
      assert MutexLinked(s, k);
      SortedAgree(s.threads, r.threads, s.mutexes[k].waiters);
    }
  }

  ghost function TakeStep(s: State, t: ThreadId, m: MutexId, wait: bool): (r: State)
    requires Inv(s) && Running(s, t) && m < |s.mutexes|
    ensures Inv(r)
  {
    var mx := s.mutexes[m];
    if mx.owner == Some(t) then
      if mx.hold < HOLD_MAX then
        SetHoldInv(s, m, mx.hold + 1);
        SetHold(s, m, mx.hold + 1)
      else s
    else if mx.owner.None? then
      TakeFreeInv(s, t, m);
      TakeFree(s, t, m)
    else if !wait then s
    else TakeBlocked(s, t, m)
  }

  ghost function ReleaseStep(s: State, t: ThreadId, m: MutexId): (r: State)
    requires Inv(s) && Running(s, t) && m < |s.mutexes|
    ensures Inv(r)
  {
    var mx := s.mutexes[m];
    assert MutexLinked(s, m) && ThreadLinked(s, t);
    if mx.owner != Some(t) then s
    else if mx.hold > 1 then
      SetHoldInv(s, m, mx.hold - 1);
      SetHold(s, m, mx.hold - 1)
    else if mx.waiters == [] then
      ReleaseFreeInv(s, t, m);
      ReleaseFree(s, t, m)
    else
      HandOverInv(s, t, m);
      HandOver(s, t, m)
  }

  /** Expiry, cleanup and return of a waiting take, as one step. */
  ghost function TimeoutStep(s: State, t: ThreadId): (r: State)
    requires Inv(s) && t < |s.threads| && Waiting(s.threads[t])
    ensures Inv(r)
  {
    assert ThreadLinked(s, t);
    var m := s.threads[t].pending.value;
    ExpireThenCleanUp(s, t, m);
    CleanUpThread(Expire(s, t), t, m);
    var c := CleanUp(Expire(s, t), t, m);
    IdleThreadInv(c, ClearPending(c, t), t);
    ClearPending(c, t)
  }

  /** The cleanup leaves the threads' places alone. */
  lemma CleanUpThread(s: State, t: ThreadId, m: MutexId)
    requires Leaving(s, t, m)
    ensures var c := CleanUp(s, t, m);
      |c.threads| == |s.threads| && c.threads[t].pending == Some(m) && !c.threads[t].suspended
  {
    RefreshLinked(s, t, m);
    if NeedsUpdate(s, t, m) {
      RefreshChanged(s, t, m);
      var o := s.mutexes[m].owner.value;
      var p := OwnerBest(s, m);
      if p != s.threads[o].currentPriority {
        PropagateShape(SetPriority(Refresh(s, m), o, p), o, s.threads[o].currentPriority);
      }
    }
  }

  ghost function Step(s: State, op: Op): (r: State)
    requires Inv(s) && Enabled(s, op)
    ensures Inv(r)
  {
    match op
    case Take(t, m, wait) => TakeStep(s, t, m, wait)
    case Release(t, m) => ReleaseStep(s, t, m)
    case Timeout(t) => TimeoutStep(s, t)
    case Sleep(t) =>
      IdleThreadInv(s, SetSuspended(s, t, true), t);
      SetSuspended(s, t, true)
    case Wake(t) =>
      IdleThreadInv(s, SetSuspended(s, t, false), t);
      SetSuspended(s, t, false)
  }

  /** Freshly initialised threads and mutexes. */
  ghost predicate Initial(s: State) {
    && (forall t: ThreadId :: t < |s.threads| ==>
          && s.threads[t].initPriority < NO_PRIORITY
          && s.threads[t] == Thread(s.threads[t].initPriority, s.threads[t].initPriority, [], None, s.threads[t].suspended))
    && (forall m: MutexId :: m < |s.mutexes| ==> s.mutexes[m] == Mutex(None, NO_PRIORITY, 0, []))
  }

  lemma InitialInv(s: State)
    requires Initial(s)
    ensures Inv(s)
  {
    forall t: ThreadId | t < |s.threads| ensures ThreadLinked(s, t) && IsBest(s.threads[t].currentPriority, s.threads[t], s.mutexes) {}
    forall m: MutexId | m < |s.mutexes| ensures MutexLinked(s, m) {}
  }

  /** The state after a run; an operation that cannot be called in its state is skipped. */
  ghost function After(s: State, ops: seq<Op>): (r: State)
    requires Inv(s)
    ensures Inv(r)
    decreases |ops|
  {
    if ops == [] then s
    else After(if Enabled(s, ops[0]) then Step(s, ops[0]) else s, ops[1..])
  }

  // ---------- what the invariant means along chains of blocked threads ----------

  /** a waits for a mutex that b owns. */
  ghost predicate BlockedBy(s: State, a: ThreadId, b: ThreadId) {
    && a < |s.threads| && b < |s.threads| && Waiting(s.threads[a])
    && s.threads[a].pending.value < |s.mutexes|
    && s.mutexes[s.threads[a].pending.value].owner == Some(b)
  }

  /** Each thread of the chain is blocked by the next one. */
  ghost predicate Chain(s: State, c: seq<ThreadId>) {
    && c != []
    && Below(c, |s.threads|)
    && forall i :: 0 <= i < |c| - 1 ==> BlockedBy(s, c[i], c[i + 1])
  }

  lemma BlockerUrgent(s: State, a: ThreadId, b: ThreadId)
    requires Inv(s) && BlockedBy(s, a, b)
    ensures s.threads[b].currentPriority <= s.threads[a].currentPriority
  {
    var m := s.threads[a].pending.value;
    assert ThreadLinked(s, a) && MutexLinked(s, m);
    HeadIsMin(s.threads, s.mutexes[m].waiters, a);
    assert IsBest(s.threads[b].currentPriority, s.threads[b], s.mutexes);
    var j :| 0 <= j < |s.threads[b].taken| && s.threads[b].taken[j] == m;
  }

  lemma {:induction false} ChainUrgent(s: State, c: seq<ThreadId>)
    requires Inv(s) && Chain(s, c)
    ensures s.threads[c[|c| - 1]].currentPriority <= s.threads[c[0]].currentPriority <= s.threads[c[0]].initPriority
  {
    assert IsBest(s.threads[c[0]].currentPriority, s.threads[c[0]], s.mutexes);
    if |c| > 1 {
      assert BlockedBy(s, c[0], c[1]);
      var d := c[1..];
      forall i | 0 <= i < |d| - 1 ensures BlockedBy(s, d[i], d[i + 1]) {
        assert BlockedBy(s, c[i + 1], c[i + 2]);
      }
      ChainUrgent(s, d);
      BlockerUrgent(s, c[0], c[1]);
    }
  }

  /**
   In every state of every run: the inheritance equations hold, and the last thread of a
   chain of blocked threads is at least as urgent as everyone in it.
   */
  lemma EveryRunInherits(s: State, ops: seq<Op>, c: seq<ThreadId>)
    requires Initial(s)
    ensures Inv(s)
    ensures Inv(After(s, ops))
    ensures Chain(After(s, ops), c) ==>
      forall i :: 0 <= i < |c| ==> After(s, ops).threads[c[|c| - 1]].currentPriority <= After(s, ops).threads[c[i]].currentPriority
  {
    InitialInv(s);
    var r := After(s, ops);
    if Chain(r, c) {
      forall i | 0 <= i < |c| ensures r.threads[c[|c| - 1]].currentPriority <= r.threads[c[i]].currentPriority {
        var d := c[i..];
        forall j | 0 <= j < |d| - 1 ensures BlockedBy(r, d[j], d[j + 1]) {
          assert BlockedBy(r, c[i + j], c[i + j + 1]);
        }
        ChainUrgent(r, d);
      }
    }
  }

  // ---------- no priority without a reason ----------

  /** The chain runs into itself. */
  ghost predicate Loops(c: seq<ThreadId>) {
    exists i :: 0 < i < |c| && c[i] == c[0]
  }

  /** A boosted thread has a waiter with exactly its priority. */
  lemma Booster(s: State, t: ThreadId) returns (w: ThreadId)
    requires Inv(s) && t < |s.threads|
    requires s.threads[t].currentPriority != s.threads[t].initPriority
    ensures BlockedBy(s, w, t) && s.threads[w].currentPriority == s.threads[t].currentPriority
  {
    var th := s.threads[t];
    assert ThreadLinked(s, t) && IsBest(th.currentPriority, th, s.mutexes);
    var i :| 0 <= i < |th.taken| && th.currentPriority == s.mutexes[th.taken[i]].priority;
    var m := th.taken[i];
    assert MutexLinked(s, m);
    w := s.mutexes[m].waiters[0];
    assert WaitsFor(s.threads[w], m);
  }

  lemma {:induction false} PigeonHole(c: seq<ThreadId>, n: nat)
    requires Below(c, n) && NoDuplicates(c)
    ensures |c| <= n
    decreases n
  {
    if n > 0 {
      var d := Without(c, n - 1);
      WithoutFacts(c, n - 1);
      WithoutLength(c, n - 1);
      forall i | 0 <= i < |d| ensures d[i] < n - 1 { assert d[i] in d && d[i] in c; }
      PigeonHole(d, n - 1);
    }
  }

  lemma {:induction false} WithoutLength(c: seq<ThreadId>, t: ThreadId)
    ensures |Without(c, t)| >= |c| - 1
  {
    if c != [] { WithoutLength(c[1..], t); }
  }

  lemma ExtendChain(s: State, w: ThreadId, c: seq<ThreadId>)
    requires Chain(s, c) && BlockedBy(s, w, c[0])
    ensures Chain(s, [w] + c)
  {
    var d := [w] + c;
    forall i | 0 <= i < |d| - 1 ensures BlockedBy(s, d[i], d[i + 1]) {
      if i > 0 { assert BlockedBy(s, c[i - 1], c[i]); }
    }
  }

  lemma {:induction false} Explain(s: State, t: ThreadId, c: seq<ThreadId>) returns (d: seq<ThreadId>)
    requires Inv(s) && Chain(s, c) && c[|c| - 1] == t && NoDuplicates(c)
    requires s.threads[c[0]].currentPriority == s.threads[t].currentPriority
    ensures Chain(s, d) && d[|d| - 1] == t
    ensures s.threads[d[0]].initPriority == s.threads[t].currentPriority || Loops(d)
    decreases |s.threads| - |c|
  {
    if s.threads[c[0]].initPriority == s.threads[t].currentPriority {
      d := c;
    } else {
      var w := Booster(s, c[0]);
      ExtendChain(s, w, c);
      d := [w] + c;
      if w in c {
        var i :| 0 <= i < |c| && c[i] == w;
        assert d[i + 1] == d[0];
      } else {
        PigeonHole(d, |s.threads|);
        d := Explain(s, t, d);
      }
    }
  }

  /**
   The priority a thread runs at is the initial priority of some thread that is transitively
   blocked by it (or its own), unless a deadlock is blocked by it.
   */
  lemma PriorityHasReason(s: State, t: ThreadId)
    requires Inv(s) && t < |s.threads|
    ensures exists c :: Chain(s, c) && c[|c| - 1] == t && (s.threads[c[0]].initPriority == s.threads[t].currentPriority || Loops(c))
  {
    var c := Explain(s, t, [t]);
  }
}
