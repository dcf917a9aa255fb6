/**
 Mutexes with transitive priority inheritance (ipc.c), without priority ceilings.
 A lower number is a more urgent priority.

 The kernel's pointer graph is kept in two tables: threads and mutexes refer to
 each other by index.  This module holds the state, the critical sections of the
 mutex operations as functions on states, and the invariant they keep.
 */
module PriorityInheritance {
  import opened Wrappers

  const NO_PRIORITY := 0xff
  const HOLD_MAX := 255

  type ThreadId = nat
  type MutexId = nat

  datatype Thread = Thread(
    initPriority: nat,
    currentPriority: nat,
    taken: seq<MutexId>,
    pending: Option<MutexId>,
    suspended: bool)

  datatype Mutex = Mutex(
    owner: Option<ThreadId>,
    priority: nat,
    hold: nat,
    waiters: seq<ThreadId>)

  datatype State = State(threads: seq<Thread>, mutexes: seq<Mutex>)

  // ---------- structure ----------

  ghost predicate Below(ids: seq<nat>, n: nat) {
    forall i :: 0 <= i < |ids| ==> ids[i] < n
  }

  predicate WaitsFor(th: Thread, m: MutexId) {
    th.suspended && th.pending == Some(m)
  }

  /** Suspended on a mutex (not on some other object, and not on its way out after a timeout). */
  predicate Waiting(th: Thread) {
    th.suspended && th.pending.Some?
  }

  ghost predicate ThreadLinked(s: State, t: ThreadId)
    requires t < |s.threads|
  {
    var th := s.threads[t];
    && th.initPriority < NO_PRIORITY
    && NoDuplicates(th.taken)
    && Below(th.taken, |s.mutexes|)
    && (forall i :: 0 <= i < |th.taken| ==> s.mutexes[th.taken[i]].owner == Some(t))
    && (Waiting(th) ==>
          && th.pending.value < |s.mutexes|
          && t in s.mutexes[th.pending.value].waiters
          && s.mutexes[th.pending.value].owner != Some(t))
  }

  ghost predicate MutexLinked(s: State, m: MutexId)
    requires m < |s.mutexes|
  {
    var mx := s.mutexes[m];
    && NoDuplicates(mx.waiters)
    && Below(mx.waiters, |s.threads|)
    && (forall i :: 0 <= i < |mx.waiters| ==> WaitsFor(s.threads[mx.waiters[i]], m))
    && (mx.owner.Some? ==> mx.owner.value < |s.threads| && m in s.threads[mx.owner.value].taken && 1 <= mx.hold <= HOLD_MAX)
    && (mx.owner.None? ==> mx.waiters == [] && mx.hold == 0)
  }

  /** Ownership and waiting are recorded the same way on both sides. */
  ghost predicate Linked(s: State) {
    && (forall t: ThreadId :: t < |s.threads| ==> ThreadLinked(s, t))
    && (forall m: MutexId :: m < |s.mutexes| ==> MutexLinked(s, m))
  }

  // ---------- the inheritance equations ----------

  ghost predicate Sorted(ths: seq<Thread>, ws: seq<ThreadId>) {
    && Below(ws, |ths|)
    && forall i, j :: 0 <= i < j < |ws| ==> ths[ws[i]].currentPriority <= ths[ws[j]].currentPriority
  }

  function HeadPriority(ths: seq<Thread>, ws: seq<ThreadId>): nat
    requires ws != [] ==> ws[0] < |ths|
  {
    if ws == [] then NO_PRIORITY else ths[ws[0]].currentPriority
  }

  /** p is the minimum of the initial priority and the priorities cached in the taken mutexes. */
  ghost predicate IsBest(p: nat, th: Thread, ms: seq<Mutex>) {
    && Below(th.taken, |ms|)
    && p <= th.initPriority
    && (forall i :: 0 <= i < |th.taken| ==> p <= ms[th.taken[i]].priority)
    && (p == th.initPriority || exists i :: 0 <= i < |th.taken| && p == ms[th.taken[i]].priority)
  }

  /** Every mutex caches the priority of its first waiter, and its waiters are sorted. */
  ghost predicate Cached(s: State) {
    forall m: MutexId :: m < |s.mutexes| ==>
      && Sorted(s.threads, s.mutexes[m].waiters)
      && s.mutexes[m].priority == HeadPriority(s.threads, s.mutexes[m].waiters)
  }

  /** Every thread runs at the best of its own priority and what it inherits. */
  ghost predicate Inherited(s: State) {
    forall t: ThreadId :: t < |s.threads| ==> IsBest(s.threads[t].currentPriority, s.threads[t], s.mutexes)
  }

  ghost predicate Inv(s: State) {
    Linked(s) && Cached(s) && Inherited(s)
  }

  // ---------- list operations ----------

  /** The RT_IPC_FLAG_PRIO branch of _ipc_list_suspend: before the first less urgent waiter. */
  function InsertByPriority(ths: seq<Thread>, ws: seq<ThreadId>, t: ThreadId): seq<ThreadId>
    requires t < |ths| && Below(ws, |ths|)
  {
    if ws == [] then [t]
    else if ths[t].currentPriority < ths[ws[0]].currentPriority then [t] + ws
    else [ws[0]] + InsertByPriority(ths, ws[1..], t)
  }

  lemma {:induction false} WithoutBelow(ws: seq<ThreadId>, t: ThreadId, n: nat)
    requires Below(ws, n)
    ensures Below(Without(ws, t), n)
  {
    if ws != [] { WithoutBelow(ws[1..], t, n); }
  }

  lemma {:induction false} WithoutSorted(ths: seq<Thread>, ws: seq<ThreadId>, t: ThreadId)
    requires NoDuplicates(ws)
    requires Sorted(ths, ws)
    ensures Sorted(ths, Without(ws, t))
  {
    WithoutFacts(ws, t);
    if ws != [] && ws[0] != t {
      WithoutFacts(ws[1..], t);
      WithoutSorted(ths, ws[1..], t);
      var r := Without(ws[1..], t);
      forall j | 0 <= j < |r| ensures ths[ws[0]].currentPriority <= ths[r[j]].currentPriority {
        assert r[j] in ws[1..];
        var k :| 0 <= k < |ws[1..]| && ws[1..][k] == r[j];
        assert ws[k + 1] == r[j];
      }
    }
  }

  lemma {:induction false} InsertFacts(ths: seq<Thread>, ws: seq<ThreadId>, t: ThreadId)
    requires t < |ths| && Below(ws, |ths|)
    requires NoDuplicates(ws) && t !in ws
    ensures NoDuplicates(InsertByPriority(ths, ws, t))
    ensures forall x :: x in InsertByPriority(ths, ws, t) <==> x in ws || x == t
  {
    if ws != [] && ths[t].currentPriority >= ths[ws[0]].currentPriority {
      InsertFacts(ths, ws[1..], t);
      assert ws == [ws[0]] + ws[1..];
      assert ws[0] !in InsertByPriority(ths, ws[1..], t);
    }
  }

  lemma {:induction false} InsertSorted(ths: seq<Thread>, ws: seq<ThreadId>, t: ThreadId)
    requires t < |ths| && Sorted(ths, ws)
    requires NoDuplicates(ws) && t !in ws
    ensures Sorted(ths, InsertByPriority(ths, ws, t))
  {
    InsertFacts(ths, ws, t);
    if ws != [] && ths[t].currentPriority >= ths[ws[0]].currentPriority {
      InsertFacts(ths, ws[1..], t);
      InsertSorted(ths, ws[1..], t);
      var r := InsertByPriority(ths, ws[1..], t);
      forall j | 0 <= j < |r| ensures ths[ws[0]].currentPriority <= ths[r[j]].currentPriority {
        assert r[j] in ws[1..] || r[j] == t;
        if r[j] in ws[1..] {
          var k :| 0 <= k < |ws[1..]| && ws[1..][k] == r[j];
          assert ws[k + 1] == r[j];
        }
      }
    }
  }

  // ---------- _mutex_update_priority, _thread_get_mutex_priority ----------

  /** Folds the cached priorities of the taken mutexes into p. */
  function BestPriority(p: nat, taken: seq<MutexId>, ms: seq<Mutex>): nat
    requires Below(taken, |ms|)
  {
    if taken == [] then p
    else
      var q := ms[taken[0]].priority;
      BestPriority(if p > q then q else p, taken[1..], ms)
  }

  lemma {:induction false} BestPriorityBound(p: nat, taken: seq<MutexId>, ms: seq<Mutex>)
    requires Below(taken, |ms|)
    ensures BestPriority(p, taken, ms) <= p
    ensures forall i :: 0 <= i < |taken| ==> BestPriority(p, taken, ms) <= ms[taken[i]].priority
    ensures BestPriority(p, taken, ms) == p || exists i :: 0 <= i < |taken| && BestPriority(p, taken, ms) == ms[taken[i]].priority
  {
    if taken != [] {
      var q := ms[taken[0]].priority;
      var p' := if p > q then q else p;
      var rest := taken[1..];
      BestPriorityBound(p', rest, ms);
      var r := BestPriority(p', rest, ms);
      forall i | 0 <= i < |taken| ensures r <= ms[taken[i]].priority {
        if i > 0 { assert taken[i] == rest[i - 1]; }
      }
      if r != p' {
        var i :| 0 <= i < |rest| && r == ms[rest[i]].priority;
        assert taken[i + 1] == rest[i];
      }
    }
  }

  function Inherit(s: State, t: ThreadId): nat
    requires t < |s.threads| && Below(s.threads[t].taken, |s.mutexes|)
  {
    BestPriority(s.threads[t].initPriority, s.threads[t].taken, s.mutexes)
  }

  /** RT_THREAD_CTRL_CHANGE_PRIORITY. */
  function SetPriority(s: State, t: ThreadId, p: nat): State
    requires t < |s.threads|
  {
    s.(threads := s.threads[t := s.threads[t].(currentPriority := p)])
  }

  /** Put t where its current priority belongs among the waiters of m and refresh the cached priority. */
  function Requeue(s: State, m: MutexId, t: ThreadId): State
    requires t < |s.threads| && m < |s.mutexes|
    requires Below(Without(s.mutexes[m].waiters, t), |s.threads|)
  {
    var ws := InsertByPriority(s.threads, Without(s.mutexes[m].waiters, t), t);
    InsertBelow(s.threads, Without(s.mutexes[m].waiters, t), t);
    s.(mutexes := s.mutexes[m := s.mutexes[m].(waiters := ws, priority := HeadPriority(s.threads, ws))])
  }

  lemma {:induction false} InsertBelow(ths: seq<Thread>, ws: seq<ThreadId>, t: ThreadId)
    requires t < |ths| && Below(ws, |ths|)
    ensures Below(InsertByPriority(ths, ws, t), |ths|)
  {
    if ws != [] { InsertBelow(ths, ws[1..], t); }
  }

  // ---------- _thread_update_priority ----------

  /** t's priority has just changed from before; only the queue it waits in is out of date. */
  ghost predicate Changed(s: State, t: ThreadId, before: nat) {
    && t < |s.threads|
    && s.threads[t].currentPriority != before
    && Linked(s)
    && Inherited(s)
    && Cached(SetPriority(s, t, before))
  }

  function SumCurrent(ths: seq<Thread>): nat {
    if ths == [] then 0 else ths[0].currentPriority + SumCurrent(ths[1..])
  }

  function SumInit(ths: seq<Thread>): nat {
    if ths == [] then 0 else ths[0].initPriority + SumInit(ths[1..])
  }

  lemma {:induction false} SumUpdate(ths: seq<Thread>, t: ThreadId, p: nat)
    requires t < |ths|
    ensures SumCurrent(ths[t := ths[t].(currentPriority := p)]) == SumCurrent(ths) - ths[t].currentPriority + p
    ensures SumInit(ths[t := ths[t].(currentPriority := p)]) == SumInit(ths)
  {
    var u := ths[t := ths[t].(currentPriority := p)];
    if t == 0 {
      assert u[1..] == ths[1..];
    } else {
      SumUpdate(ths[1..], t - 1, p);
      assert u[1..] == ths[1..][t - 1 := ths[1..][t - 1].(currentPriority := p)];
    }
  }

  lemma {:induction false} SumBound(ths: seq<Thread>)
    requires forall i :: 0 <= i < |ths| ==> ths[i].currentPriority <= ths[i].initPriority
    ensures SumCurrent(ths) <= SumInit(ths)
  {
    if ths != [] { SumBound(ths[1..]); }
  }

  /** Same threads, mutexes, owners and wait-for edges; only priorities and queue order may differ. */
  ghost predicate SameShape(a: State, b: State) {
    && |a.threads| == |b.threads|
    && |a.mutexes| == |b.mutexes|
    && (forall t: ThreadId :: t < |a.threads| ==> b.threads[t] == a.threads[t].(currentPriority := b.threads[t].currentPriority))
    && (forall m: MutexId :: m < |a.mutexes| ==>
          && b.mutexes[m].owner == a.mutexes[m].owner
          && b.mutexes[m].hold == a.mutexes[m].hold
          && forall x :: x in b.mutexes[m].waiters <==> x in a.mutexes[m].waiters)
  }

  lemma RequeueLinked(s: State, m: MutexId, t: ThreadId)
    requires Linked(s) && t < |s.threads| && m < |s.mutexes|
    requires WaitsFor(s.threads[t], m)
    ensures NoDuplicates(s.mutexes[m].waiters) && t in s.mutexes[m].waiters
    ensures Below(Without(s.mutexes[m].waiters, t), |s.threads|)
    ensures Linked(Requeue(s, m, t)) && SameShape(s, Requeue(s, m, t))
  {
    assert MutexLinked(s, m) && ThreadLinked(s, t);
    var ws := s.mutexes[m].waiters;
    WithoutFacts(ws, t);
    WithoutBelow(ws, t, |s.threads|);
    InsertFacts(s.threads, Without(ws, t), t);
    InsertBelow(s.threads, Without(ws, t), t);
    var r := Requeue(s, m, t);
    assert forall x :: x in r.mutexes[m].waiters <==> x in ws;
    forall u: ThreadId | u < |r.threads| ensures ThreadLinked(r, u) {
      assert ThreadLinked(s, u);
    }
    forall k: MutexId | k < |r.mutexes| ensures MutexLinked(r, k) {
      assert MutexLinked(s, k);
      if k == m {
        forall i | 0 <= i < |r.mutexes[m].waiters| ensures WaitsFor(r.threads[r.mutexes[m].waiters[i]], m) {
          assert r.mutexes[m].waiters[i] in ws;
        }
      }
    }
  }

  /** Sortedness and the head only depend on the priorities of the waiters. */
  lemma SortedAgree(a: seq<Thread>, b: seq<Thread>, ws: seq<ThreadId>)
    requires |a| == |b| && Sorted(a, ws)
    requires forall i :: 0 <= i < |ws| ==> b[ws[i]].currentPriority == a[ws[i]].currentPriority
    ensures Sorted(b, ws) && HeadPriority(b, ws) == HeadPriority(a, ws)
  {
  }

  /** In a sorted queue the head is a lower bound that some waiter attains. */
  lemma HeadIsMin(ths: seq<Thread>, ws: seq<ThreadId>, w: ThreadId)
    requires Sorted(ths, ws) && w in ws
    ensures w < |ths| && HeadPriority(ths, ws) <= ths[w].currentPriority
  {
    var i :| 0 <= i < |ws| && ws[i] == w;
  }

  lemma RequeueQueue(s: State, m: MutexId, t: ThreadId, before: nat)
    requires Changed(s, t, before) && m < |s.mutexes|
    requires WaitsFor(s.threads[t], m)
    requires Below(Without(s.mutexes[m].waiters, t), |s.threads|)
    ensures Sorted(s.threads, Requeue(s, m, t).mutexes[m].waiters)
    ensures s.threads[t].currentPriority < before ==> Requeue(s, m, t).mutexes[m].priority <= s.mutexes[m].priority
    ensures s.threads[t].currentPriority > before ==> Requeue(s, m, t).mutexes[m].priority >= s.mutexes[m].priority
  {
    RequeueLinked(s, m, t);
    var o := SetPriority(s, t, before);
    var ws := s.mutexes[m].waiters;
    var rest := Without(ws, t);
    WithoutFacts(ws, t);
    WithoutSorted(o.threads, ws, t);
    SortedAgree(o.threads, s.threads, rest) by {
      forall i | 0 <= i < |rest| ensures o.threads[rest[i]].currentPriority == s.threads[rest[i]].currentPriority {
        assert rest[i] in rest;
      }
    }
    InsertSorted(s.threads, rest, t);
    InsertFacts(s.threads, rest, t);
    var ws' := InsertByPriority(s.threads, rest, t);
    assert t in ws' && ws[0] in ws' && ws'[0] in ws;
    HeadIsMin(s.threads, ws', ws[0]);
    HeadIsMin(o.threads, ws, ws'[0]);
  }

  lemma RequeueCached(s: State, m: MutexId, t: ThreadId, before: nat)
    requires Changed(s, t, before) && m < |s.mutexes|
    requires WaitsFor(s.threads[t], m)
    requires Below(Without(s.mutexes[m].waiters, t), |s.threads|)
    ensures Cached(Requeue(s, m, t))
  {
    RequeueLinked(s, m, t);
    RequeueQueue(s, m, t, before);
    var r := Requeue(s, m, t);
    var o := SetPriority(s, t, before);
    forall k: MutexId | k < |r.mutexes|
      ensures Sorted(r.threads, r.mutexes[k].waiters)
      ensures r.mutexes[k].priority == HeadPriority(r.threads, r.mutexes[k].waiters)
    {
      if k != m {
        assert MutexLinked(s, k);
        SortedAgree(o.threads, s.threads, s.mutexes[k].waiters);
      }
    }
  }

  /** Changing one cached priority only concerns the owner of that mutex. */
  lemma OthersInherited(s: State, r: State, m: MutexId, u: ThreadId)
    requires Linked(s) && Inherited(s) && m < |s.mutexes| && u < |s.threads|
    requires r.threads == s.threads && |r.mutexes| == |s.mutexes|
    requires forall k: MutexId :: k < |s.mutexes| && k != m ==> r.mutexes[k].priority == s.mutexes[k].priority
    requires s.mutexes[m].owner != Some(u)
    ensures IsBest(r.threads[u].currentPriority, r.threads[u], r.mutexes)
  {
    assert ThreadLinked(s, u);
    var th := s.threads[u];
    assert IsBest(th.currentPriority, th, s.mutexes);
    assert forall i :: 0 <= i < |th.taken| ==> r.mutexes[th.taken[i]].priority == s.mutexes[th.taken[i]].priority;
  }

  /** The owner's inherited priority moves the way the cached priority moved. */
  lemma OwnerMoves(s: State, r: State, m: MutexId, o: ThreadId)
    requires Linked(s) && Inherited(s) && m < |s.mutexes| && o < |s.threads|
    requires r.threads == s.threads && |r.mutexes| == |s.mutexes|
    requires forall k: MutexId :: k < |s.mutexes| && k != m ==> r.mutexes[k].priority == s.mutexes[k].priority
    ensures Below(r.threads[o].taken, |r.mutexes|)
    ensures IsBest(Inherit(r, o), r.threads[o], r.mutexes)
    ensures r.mutexes[m].priority <= s.mutexes[m].priority ==> Inherit(r, o) <= s.threads[o].currentPriority
    ensures r.mutexes[m].priority >= s.mutexes[m].priority ==> Inherit(r, o) >= s.threads[o].currentPriority
  {
    assert ThreadLinked(s, o);
    var th := s.threads[o];
    BestPriorityBound(th.initPriority, th.taken, r.mutexes);
    assert IsBest(th.currentPriority, th, s.mutexes);
  }

  ghost predicate RoundReady(s: State, t: ThreadId) {
    && t < |s.threads| && Waiting(s.threads[t])
    && var m := s.threads[t].pending.value;
    && m < |s.mutexes| && s.mutexes[m].owner.Some? && s.mutexes[m].owner.value < |s.threads|
    && Below(Without(s.mutexes[m].waiters, t), |s.threads|)
    && Below(s.threads[s.mutexes[m].owner.value].taken, |s.mutexes|)
  }

  /** The state after the re-insertion in one round of the propagation loop. */
  function Round(s: State, t: ThreadId): State
    requires RoundReady(s, t)
  {
    Requeue(s, s.threads[t].pending.value, t)
  }

  /** The owner of the mutex t waits for. */
  function Blocker(s: State, t: ThreadId): ThreadId
    requires RoundReady(s, t)
  {
    s.mutexes[s.threads[t].pending.value].owner.value
  }

  lemma RoundCached(s: State, t: ThreadId, before: nat)
    requires Changed(s, t, before) && Waiting(s.threads[t])
    ensures RoundReady(s, t)
    ensures Linked(Round(s, t)) && Cached(Round(s, t)) && SameShape(s, Round(s, t))
  {
    assert ThreadLinked(s, t);
    var m := s.threads[t].pending.value;
    assert MutexLinked(s, m);
    assert ThreadLinked(s, s.mutexes[m].owner.value);
    RequeueLinked(s, m, t);
    RequeueCached(s, m, t, before);
  }

  lemma RoundMoves(s: State, t: ThreadId, before: nat)
    requires Changed(s, t, before) && RoundReady(s, t)
    ensures var p := Inherit(Round(s, t), Blocker(s, t));
      && Inherited(SetPriority(Round(s, t), Blocker(s, t), p))
      && (s.threads[t].currentPriority < before ==> p <= s.threads[Blocker(s, t)].currentPriority)
      && (s.threads[t].currentPriority > before ==> p >= s.threads[Blocker(s, t)].currentPriority)
  {
    var m := s.threads[t].pending.value;
    RequeueQueue(s, m, t, before);
    var r := Round(s, t);
    var o := Blocker(s, t);
    OwnerMoves(s, r, m, o);
    var n := SetPriority(r, o, Inherit(r, o));
    forall u: ThreadId | u < |n.threads| ensures IsBest(n.threads[u].currentPriority, n.threads[u], n.mutexes) {
      if u != o { OthersInherited(s, r, m, u); }
    }
  }

  lemma SetPriorityBack(s: State, t: ThreadId, p: nat)
    requires t < |s.threads|
    ensures SetPriority(SetPriority(s, t, p), t, s.threads[t].currentPriority) == s
  {
    assert s.threads[t := s.threads[t].(currentPriority := p)][t := s.threads[t]] == s.threads;
  }

  /** One round either ends the loop in a consistent state or hands the same situation to the owner. */
  lemma PropagateRound(s: State, t: ThreadId, before: nat)
    requires Changed(s, t, before) && Waiting(s.threads[t])
    ensures RoundReady(s, t)
    ensures var r, o := Round(s, t), Blocker(s, t);
      var p := Inherit(r, o);
      if p == s.threads[o].currentPriority then Inv(r)
      else
        && Changed(SetPriority(r, o, p), o, s.threads[o].currentPriority)
        && (s.threads[t].currentPriority < before <==> p < s.threads[o].currentPriority)
  {
    RoundCached(s, t, before);
    RoundMoves(s, t, before);
    var r, o := Round(s, t), Blocker(s, t);
    var p := Inherit(r, o);
    SetPriorityLinked(r, o, p);
    SetPriorityBack(r, o, p);
    if p == s.threads[o].currentPriority { assert SetPriority(r, o, p).threads == r.threads; }
  }

  lemma SetPriorityLinked(s: State, t: ThreadId, p: nat)
    requires Linked(s) && t < |s.threads|
    ensures Linked(SetPriority(s, t, p))
  {
    var n := SetPriority(s, t, p);
    forall u: ThreadId | u < |n.threads| ensures ThreadLinked(n, u) { assert ThreadLinked(s, u); }
    forall m: MutexId | m < |n.mutexes| ensures MutexLinked(n, m) { assert MutexLinked(s, m); }
  }

  lemma NotWaitingCached(s: State, t: ThreadId, before: nat)
    requires Changed(s, t, before) && !Waiting(s.threads[t])
    ensures Cached(s)
  {
    var o := SetPriority(s, t, before);
    forall k: MutexId | k < |s.mutexes|
      ensures Sorted(s.threads, s.mutexes[k].waiters)
      ensures s.mutexes[k].priority == HeadPriority(s.threads, s.mutexes[k].waiters)
    {
      assert MutexLinked(s, k);
      SortedAgree(o.threads, s.threads, s.mutexes[k].waiters);
    }
  }

  lemma SameShapeTransitive(a: State, b: State, c: State)
    requires SameShape(a, b) && SameShape(b, c)
    ensures SameShape(a, c)
  {
  }

  /** Every priority moved towards (raising) or away from (lowering) urgency, or stayed. */
  ghost predicate Moved(a: State, b: State, raising: bool) {
    && |a.threads| == |b.threads|
    && forall t: ThreadId :: t < |a.threads| ==>
      if raising then b.threads[t].currentPriority <= a.threads[t].currentPriority
      else b.threads[t].currentPriority >= a.threads[t].currentPriority
  }

  lemma MeasureStep(s: State, r: State, o: ThreadId, p: nat)
    requires Inherited(s) && o < |s.threads| && r.threads == s.threads
    requires Inherited(SetPriority(r, o, p))
    ensures SumCurrent(s.threads) <= SumInit(s.threads)
    ensures var n := SetPriority(r, o, p).threads;
      SumInit(n) == SumInit(s.threads) && SumCurrent(n) <= SumInit(n)
      && SumCurrent(n) == SumCurrent(s.threads) - s.threads[o].currentPriority + p
  {
    SumUpdate(s.threads, o, p);
    SumBound(s.threads);
    SumBound(SetPriority(r, o, p).threads);
  }

  /**
   A round that goes on moves the sum of the current priorities strictly, in the direction of
   the change that started it, and never out of its bounds.
   */
  lemma RoundMovesSum(s: State, t: ThreadId, before: nat)
    requires Changed(s, t, before) && Waiting(s.threads[t])
    ensures RoundReady(s, t)
    ensures var r, o := Round(s, t), Blocker(s, t);
      var p := Inherit(r, o);
      p != s.threads[o].currentPriority ==>
        var n := SetPriority(r, o, p).threads;
        if s.threads[t].currentPriority < before then 0 <= SumCurrent(n) < SumCurrent(s.threads)
        else SumCurrent(s.threads) < SumCurrent(n) <= SumInit(s.threads)
  {
    PropagateRound(s, t, before);
    var r, o := Round(s, t), Blocker(s, t);
    var p := Inherit(r, o);
    if p != s.threads[o].currentPriority { MeasureStep(s, r, o, p); }
  }

  /**
   The loop of _thread_update_priority, entered after t's priority changed.  It ends even
   when the wait-for graph has a cycle: one call moves the sum of the current priorities
   strictly one way, between 0 and the sum of the initial priorities.
   */
  ghost function Propagate(s: State, t: ThreadId, before: nat): (r: State)
    requires Changed(s, t, before)
    ensures Inv(r)
    decreases if s.threads[t].currentPriority < before then SumCurrent(s.threads)
              else SumInit(s.threads) - SumCurrent(s.threads)
  {
    if !Waiting(s.threads[t]) then
      NotWaitingCached(s, t, before);
      s
    else
      PropagateRound(s, t, before);
      var r, o := Round(s, t), Blocker(s, t);
      var p := Inherit(r, o);
      if p == s.threads[o].currentPriority then r
      else
        MeasureStep(s, r, o, p);
        Propagate(SetPriority(r, o, p), o, s.threads[o].currentPriority)
  }

  lemma RoundShape(s: State, t: ThreadId, before: nat, p: nat)
    requires Changed(s, t, before) && RoundReady(s, t)
    ensures SameShape(s, SetPriority(Round(s, t), Blocker(s, t), p))
  {
    RoundCached(s, t, before);
    SameShapeTransitive(s, Round(s, t), SetPriority(Round(s, t), Blocker(s, t), p));
  }

  /** The loop changes nothing but priorities and queue order. */
  lemma {:induction false} PropagateShape(s: State, t: ThreadId, before: nat)
    requires Changed(s, t, before)
    ensures SameShape(s, Propagate(s, t, before))
    decreases if s.threads[t].currentPriority < before then SumCurrent(s.threads)
              else SumInit(s.threads) - SumCurrent(s.threads)
  {
    if Waiting(s.threads[t]) {
      PropagateRound(s, t, before);
      var r, o := Round(s, t), Blocker(s, t);
      var p := Inherit(r, o);
      if p == s.threads[o].currentPriority {
        RoundCached(s, t, before);
      } else {
        MeasureStep(s, r, o, p);
        PropagateShape(SetPriority(r, o, p), o, s.threads[o].currentPriority);
        RoundShape(s, t, before, p);
        SameShapeTransitive(s, SetPriority(r, o, p), Propagate(s, t, before));
      }
    }
  }

  /** One call moves every priority the same way. */
  lemma {:induction false} PropagateMoves(s: State, t: ThreadId, before: nat)
    requires Changed(s, t, before)
    ensures Moved(s, Propagate(s, t, before), s.threads[t].currentPriority < before)
    decreases if s.threads[t].currentPriority < before then SumCurrent(s.threads)
              else SumInit(s.threads) - SumCurrent(s.threads)
  {
    if Waiting(s.threads[t]) {
      PropagateRound(s, t, before);
      var r, o := Round(s, t), Blocker(s, t);
      var p := Inherit(r, o);
      if p != s.threads[o].currentPriority {
        MeasureStep(s, r, o, p);
        PropagateMoves(SetPriority(r, o, p), o, s.threads[o].currentPriority);
      }
    }
  }
}
