/**
 Mutex runs in which the expiry of a waiting take and its cleanup are two critical sections, as
 they are in the code, so that other threads may run between them.  The inheritance equations
 then hold in one direction only: cached priorities and boosts may be stale, but never less
 urgent than they have to be.
 */
module MutexTwoStep {
  import opened Wrappers
  import opened PriorityInheritance
  import opened MutexOperations
  import Runs = MutexRuns

  /** p is at least as urgent as th's own priority and the priorities cached in its mutexes. */
  ghost predicate Covers(p: nat, th: Thread, ms: seq<Mutex>) {
    && Below(th.taken, |ms|) && p <= th.initPriority
    && forall i :: 0 <= i < |th.taken| ==> p <= ms[th.taken[i]].priority
  }

  /** The queue is sorted, and the cached priority is at least as urgent as its head. */
  ghost predicate QueueOk(ths: seq<Thread>, mx: Mutex) {
    Sorted(ths, mx.waiters) && mx.priority <= HeadPriority(ths, mx.waiters)
  }

  ghost predicate Queued(s: State) {
    forall m: MutexId :: m < |s.mutexes| ==> QueueOk(s.threads, s.mutexes[m])
  }

  ghost predicate Urgent(s: State) {
    forall t: ThreadId :: t < |s.threads| ==> Covers(s.threads[t].currentPriority, s.threads[t], s.mutexes)
  }

  ghost predicate WeakInv(s: State) { Linked(s) && Queued(s) && Urgent(s) }

  lemma InvWeak(s: State)
    requires Inv(s)
    ensures WeakInv(s)
  {
    forall t: ThreadId | t < |s.threads| ensures Covers(s.threads[t].currentPriority, s.threads[t], s.mutexes) {
      assert IsBest(s.threads[t].currentPriority, s.threads[t], s.mutexes);
    }
  }

  // ---------- _thread_update_priority ----------

  /** t's priority was just changed from before; its queue has not followed yet. */
  ghost predicate Shifted(s: State, t: ThreadId, before: nat) {
    && t < |s.threads| && before != s.threads[t].currentPriority
    && Linked(s) && Urgent(s) && Queued(SetPriority(s, t, before))
  }

  lemma QueueAgree(a: seq<Thread>, b: seq<Thread>, mx: Mutex)
    requires |a| == |b| && QueueOk(a, mx)
    requires forall i :: 0 <= i < |mx.waiters| ==> b[mx.waiters[i]].currentPriority == a[mx.waiters[i]].currentPriority
    ensures QueueOk(b, mx)
  {
    SortedAgree(a, b, mx.waiters);
  }

  /** A thread in no queue of a mutex leaves the queues alone. */
  lemma ShiftedQueue(s: State, t: ThreadId, before: nat, k: MutexId)
    requires Shifted(s, t, before) && k < |s.mutexes| && !WaitsFor(s.threads[t], k)
    ensures QueueOk(s.threads, s.mutexes[k])
  {
    assert MutexLinked(s, k);
    QueueAgree(SetPriority(s, t, before).threads, s.threads, s.mutexes[k]);
  }

  lemma RequeueOk(s: State, m: MutexId, t: ThreadId, before: nat)
    requires Shifted(s, t, before) && m < |s.mutexes| && WaitsFor(s.threads[t], m)
    requires Below(Without(s.mutexes[m].waiters, t), |s.threads|)
    ensures QueueOk(s.threads, Requeue(s, m, t).mutexes[m])
    ensures s.threads[t].currentPriority > before ==> Requeue(s, m, t).mutexes[m].priority >= s.mutexes[m].priority
  {
    RequeueLinked(s, m, t);
    var o := SetPriority(s, t, before);
    var ws := s.mutexes[m].waiters;
    var rest := Without(ws, t);
    WithoutFacts(ws, t);
    WithoutSorted(o.threads, ws, t);
    SortedAgree(o.threads, s.threads, rest) by {
      forall i | 0 <= i < |rest| ensures o.threads[rest[i]].currentPriority == s.threads[rest[i]].currentPriority {
        assert rest[i] in rest;
      }
    }
    InsertSorted(s.threads, rest, t);
    InsertFacts(s.threads, rest, t);
    var ws' := InsertByPriority(s.threads, rest, t);
    assert t in ws' && ws'[0] in ws;
    HeadIsMin(o.threads, ws, ws'[0]);
  }

  lemma RoundQueued(s: State, t: ThreadId, before: nat)
    requires Shifted(s, t, before) && Waiting(s.threads[t])
    ensures RoundReady(s, t)
    ensures Linked(Round(s, t)) && Queued(Round(s, t)) && SameShape(s, Round(s, t))
    ensures s.threads[t].currentPriority > before ==>
      Round(s, t).mutexes[s.threads[t].pending.value].priority >= s.mutexes[s.threads[t].pending.value].priority
  {
    assert ThreadLinked(s, t);
    var m := s.threads[t].pending.value;
    assert MutexLinked(s, m);
    assert ThreadLinked(s, s.mutexes[m].owner.value);
    RequeueLinked(s, m, t);
    RequeueOk(s, m, t, before);
    forall k: MutexId | k < |s.mutexes| ensures QueueOk(Round(s, t).threads, Round(s, t).mutexes[k]) {
      if k != m { ShiftedQueue(s, t, before, k); }
    }
  }

  /** Changing one cached priority only concerns the owner of that mutex. */
  lemma OthersCovered(s: State, r: State, m: MutexId, u: ThreadId)
    requires Linked(s) && Urgent(s) && m < |s.mutexes| && u < |s.threads|
    requires r.threads == s.threads && |r.mutexes| == |s.mutexes|
    requires forall k: MutexId :: k < |s.mutexes| && k != m ==> r.mutexes[k].priority == s.mutexes[k].priority
    requires s.mutexes[m].owner != Some(u) || r.mutexes[m].priority >= s.mutexes[m].priority
    ensures Covers(r.threads[u].currentPriority, r.threads[u], r.mutexes)
  {
    assert ThreadLinked(s, u);
    var th := s.threads[u];
    assert Covers(th.currentPriority, th, s.mutexes);
  }

  /** The priority the owner inherits covers it; it is no more urgent than before if the cached priority became less urgent. */
  lemma InheritCovers(s: State, r: State, m: MutexId, o: ThreadId)
    requires Linked(s) && Urgent(s) && m < |s.mutexes| && o < |s.threads|
    requires r.threads == s.threads && |r.mutexes| == |s.mutexes|
    requires forall k: MutexId :: k < |s.mutexes| && k != m ==> r.mutexes[k].priority == s.mutexes[k].priority
    ensures Below(r.threads[o].taken, |r.mutexes|)
    ensures Covers(Inherit(r, o), r.threads[o], r.mutexes)
    ensures r.mutexes[m].priority >= s.mutexes[m].priority ==> Inherit(r, o) >= s.threads[o].currentPriority
  {
    assert ThreadLinked(s, o);
    var th := s.threads[o];
    BestPriorityBound(th.initPriority, th.taken, r.mutexes);
    assert Covers(th.currentPriority, th, s.mutexes);
  }

  /**
   One round ends the loop in a good state or hands the situation to the owner.  A raise may turn
   into a lowering, when it meets a stale boost; a lowering stays one.
   */
  lemma WeakRound(s: State, t: ThreadId, before: nat)
    requires Shifted(s, t, before) && Waiting(s.threads[t])
    ensures RoundReady(s, t)
    ensures var r, o := Round(s, t), Blocker(s, t);
      var p := Inherit(r, o);
      if p == s.threads[o].currentPriority then WeakInv(r)
      else
        && Shifted(SetPriority(r, o, p), o, s.threads[o].currentPriority)
        && (s.threads[t].currentPriority > before ==> p > s.threads[o].currentPriority)
  {
    RoundQueued(s, t, before);
    var r, o, m := Round(s, t), Blocker(s, t), s.threads[t].pending.value;
    InheritCovers(s, r, m, o);
    var p := Inherit(r, o);
    var n := SetPriority(r, o, p);
    SetPriorityLinked(r, o, p);
    SetPriorityBack(r, o, p);
    forall u: ThreadId | u < |n.threads| ensures Covers(n.threads[u].currentPriority, n.threads[u], n.mutexes) {
      if u != o { OthersCovered(s, r, m, u); }
    }
    if p == s.threads[o].currentPriority { assert n.threads == r.threads; }
  }

  lemma WeakMeasure(s: State, r: State, o: ThreadId, p: nat)
    requires Urgent(s) && o < |s.threads| && r.threads == s.threads && Urgent(SetPriority(r, o, p))
    ensures SumCurrent(s.threads) <= SumInit(s.threads)
    ensures var n := SetPriority(r, o, p).threads;
      SumInit(n) == SumInit(s.threads) && SumCurrent(n) <= SumInit(n)
      && SumCurrent(n) == SumCurrent(s.threads) - s.threads[o].currentPriority + p
  {
    var n := SetPriority(r, o, p);
    forall i | 0 <= i < |s.threads| ensures s.threads[i].currentPriority <= s.threads[i].initPriority {
      assert Covers(s.threads[i].currentPriority, s.threads[i], s.mutexes);
    }
    forall i | 0 <= i < |n.threads| ensures n.threads[i].currentPriority <= n.threads[i].initPriority {
      assert Covers(n.threads[i].currentPriority, n.threads[i], n.mutexes);
    }
    SumUpdate(s.threads, o, p);
    SumBound(s.threads);
    SumBound(n.threads);
  }

  lemma NotWaitingQueued(s: State, t: ThreadId, before: nat)
    requires Shifted(s, t, before) && !Waiting(s.threads[t])
    ensures Queued(s)
  {
    forall k: MutexId | k < |s.mutexes| ensures QueueOk(s.threads, s.mutexes[k]) { ShiftedQueue(s, t, before, k); }
  }

  /**
   The loop of _thread_update_priority with stale boosts about.  It still ends, in cycles too:
   first it may raise, with the sum of the current priorities falling, and from the first
   lowering on it only lowers, with the sum rising towards that of the initial priorities.
   */
  ghost function Propagate(s: State, t: ThreadId, before: nat): (r: State)
    requires Shifted(s, t, before)
    ensures WeakInv(r)
    decreases if s.threads[t].currentPriority < before then 1 else 0,
              if s.threads[t].currentPriority < before then SumCurrent(s.threads)
              else SumInit(s.threads) - SumCurrent(s.threads)
  {
    if !Waiting(s.threads[t]) then
      NotWaitingQueued(s, t, before);
      s
    else
      WeakRound(s, t, before);
      var r, o := Round(s, t), Blocker(s, t);
      var p := Inherit(r, o);
      if p == s.threads[o].currentPriority then r
      else
        WeakMeasure(s, r, o, p);
        Propagate(SetPriority(r, o, p), o, s.threads[o].currentPriority)
  }

  // ---------- the steps ----------

  lemma CoversAgree(a: Thread, b: Thread, ms: seq<Mutex>, ms': seq<Mutex>)
    requires Covers(a.currentPriority, a, ms) && |ms'| == |ms|
    requires b.currentPriority == a.currentPriority && b.initPriority == a.initPriority && b.taken == a.taken
    requires forall i :: 0 <= i < |a.taken| ==> ms'[a.taken[i]].priority >= ms[a.taken[i]].priority
    ensures Covers(b.currentPriority, b, ms')
  {
  }

  lemma TakeFreeWeak(s: State, t: ThreadId, m: MutexId)
    requires WeakInv(s) && t < |s.threads| && m < |s.mutexes| && s.mutexes[m].owner.None?
    ensures WeakInv(TakeFree(s, t, m))
  {
    TakeFreeLinked(s, t, m);
    var r := TakeFree(s, t, m);
    assert MutexLinked(s, m);
    forall k: MutexId | k < |r.mutexes| ensures QueueOk(r.threads, r.mutexes[k]) {
      QueueAgree(s.threads, r.threads, s.mutexes[k]);
    }
    forall u: ThreadId | u < |r.threads| ensures Covers(r.threads[u].currentPriority, r.threads[u], r.mutexes) {
      assert ThreadLinked(s, u) && Covers(s.threads[u].currentPriority, s.threads[u], s.mutexes);
      if u != t { CoversAgree(s.threads[u], r.threads[u], s.mutexes, r.mutexes); }
    }
  }

  lemma EnqueueQueued(s: State, t: ThreadId, m: MutexId)
    requires WeakInv(s) && Contends(s, t, m) && Below(s.mutexes[m].waiters, |s.threads|) && t !in s.mutexes[m].waiters
    ensures Queued(Enqueue(s, t, m))
  {
    var r := Enqueue(s, t, m);
    assert MutexLinked(s, m);
    var ws, ws' := s.mutexes[m].waiters, r.mutexes[m].waiters;
    InsertFacts(s.threads, ws, t);
    InsertSorted(s.threads, ws, t);
    assert ws'[0] == t || ws'[0] in ws;
    if ws'[0] in ws { HeadIsMin(s.threads, ws, ws'[0]); }
    forall k: MutexId | k < |r.mutexes| ensures QueueOk(r.threads, r.mutexes[k]) {
      if k == m { SortedAgree(s.threads, r.threads, ws'); } else { QueueAgree(s.threads, r.threads, s.mutexes[k]); }
    }
  }

  /** Only the owner of m may now run at too weak a priority. */
  lemma EnqueueCovers(s: State, t: ThreadId, m: MutexId, u: ThreadId)
    requires WeakInv(s) && Contends(s, t, m) && Below(s.mutexes[m].waiters, |s.threads|) && u < |s.threads|
    ensures var r, p := Enqueue(s, t, m), s.threads[t].currentPriority;
      var q := if s.mutexes[m].owner == Some(u) && p < s.threads[u].currentPriority then p else s.threads[u].currentPriority;
      Covers(q, r.threads[u], r.mutexes)
  {
    assert ThreadLinked(s, u);
    assert Covers(s.threads[u].currentPriority, s.threads[u], s.mutexes);
  }

  /** rt_mutex_take on a held mutex, up to the call of rt_schedule. */
  ghost function TakeBlocked(s: State, t: ThreadId, m: MutexId): (r: State)
    requires WeakInv(s) && Contends(s, t, m)
    ensures WeakInv(r)
  {
    EnqueueLinked(s, t, m);
    EnqueueQueued(s, t, m);
    assert MutexLinked(s, m);
    var r, o, p := Enqueue(s, t, m), s.mutexes[m].owner.value, s.threads[t].currentPriority;
    if p < s.mutexes[m].priority && p < s.threads[o].currentPriority then
      TakeShifted(s, t, m);
      Propagate(SetPriority(r, o, p), o, s.threads[o].currentPriority)
    else
      TakeUnshifted(s, t, m);
      r
  }

  lemma TakeShifted(s: State, t: ThreadId, m: MutexId)
    requires WeakInv(s) && Contends(s, t, m) && Below(s.mutexes[m].waiters, |s.threads|) && t !in s.mutexes[m].waiters
    requires s.mutexes[m].owner.value < |s.threads|
    requires s.threads[t].currentPriority < s.threads[s.mutexes[m].owner.value].currentPriority
    ensures var o := s.mutexes[m].owner.value;
      Shifted(SetPriority(Enqueue(s, t, m), o, s.threads[t].currentPriority), o, s.threads[o].currentPriority)
  {
    EnqueueLinked(s, t, m);
    EnqueueQueued(s, t, m);
    var r, o, p := Enqueue(s, t, m), s.mutexes[m].owner.value, s.threads[t].currentPriority;
    SetPriorityLinked(r, o, p);
    SetPriorityBack(r, o, p);
    var n := SetPriority(r, o, p);
    forall u: ThreadId | u < |n.threads| ensures Covers(n.threads[u].currentPriority, n.threads[u], n.mutexes) {
      EnqueueCovers(s, t, m, u);
    }
  }

  /** The owner is at least as urgent as the cached priority, so one test implies the other. */
  lemma TakeUnshifted(s: State, t: ThreadId, m: MutexId)
    requires WeakInv(s) && Contends(s, t, m) && Below(s.mutexes[m].waiters, |s.threads|)
    requires s.mutexes[m].owner.value < |s.threads|
    requires !(s.threads[t].currentPriority < s.mutexes[m].priority
               && s.threads[t].currentPriority < s.threads[s.mutexes[m].owner.value].currentPriority)
    ensures Urgent(Enqueue(s, t, m))
  {
    var r, o := Enqueue(s, t, m), s.mutexes[m].owner.value;
    assert MutexLinked(s, m) && Covers(s.threads[o].currentPriority, s.threads[o], s.mutexes);
    var j :| 0 <= j < |s.threads[o].taken| && s.threads[o].taken[j] == m;
    forall u: ThreadId | u < |r.threads| ensures Covers(r.threads[u].currentPriority, r.threads[u], r.mutexes) {
      EnqueueCovers(s, t, m, u);
    }
  }

  lemma DisownCovers(s: State, t: ThreadId, m: MutexId)
    requires WeakInv(s) && LastHold(s, t, m)
    ensures Below(s.threads[t].taken, |s.mutexes|)
    ensures Covers(Disown(s, t, m).currentPriority, Disown(s, t, m), s.mutexes)
  {
    DisownTaken(s, t, m);
    var th := s.threads[t];
    var rest := Without(th.taken, m);
    WithoutBelow(th.taken, m, |s.mutexes|);
    BestPriorityBound(th.initPriority, rest, s.mutexes);
    assert Covers(th.currentPriority, th, s.mutexes);
    forall i | 0 <= i < |rest| ensures th.currentPriority <= s.mutexes[rest[i]].priority {
      assert rest[i] in Disown(s, t, m).taken;
      var j :| 0 <= j < |th.taken| && th.taken[j] == rest[i];
    }
  }

  lemma ReleaseFreeWeak(s: State, t: ThreadId, m: MutexId)
    requires WeakInv(s) && LastHold(s, t, m) && s.mutexes[m].waiters == [] && Below(s.threads[t].taken, |s.mutexes|)
    ensures WeakInv(ReleaseFree(s, t, m))
  {
    var r := ReleaseFree(s, t, m);
    ReleaseFreeLinked(s, t, m);
    DisownCovers(s, t, m);
    forall k: MutexId | k < |r.mutexes| ensures QueueOk(r.threads, r.mutexes[k]) {
      assert MutexLinked(s, k);
      QueueAgree(s.threads, r.threads, s.mutexes[k]);
    }
    forall u: ThreadId | u < |r.threads| ensures Covers(r.threads[u].currentPriority, r.threads[u], r.mutexes) {
      assert ThreadLinked(s, u) && ThreadLinked(r, u) && Covers(s.threads[u].currentPriority, s.threads[u], s.mutexes);
      CoversAgree(if u == t then Disown(s, t, m) else s.threads[u], r.threads[u], s.mutexes, r.mutexes);
    }
  }

  /**
   Giving back its last mutex brings a thread down to its initial priority exactly when it ran on
   the priority cached there, or unboosted; a stale boost is kept.
   */
  lemma LastReleaseDrops(s: State, t: ThreadId, m: MutexId)
    requires WeakInv(s) && LastHold(s, t, m) && s.threads[t].taken == [m]
    ensures Below(s.threads[t].taken, |s.mutexes|)
    ensures Disown(s, t, m).taken == []
    ensures Disown(s, t, m).currentPriority == s.threads[t].initPriority <==>
      s.threads[t].currentPriority == s.mutexes[m].priority || s.threads[t].currentPriority == s.threads[t].initPriority
  {
    assert ThreadLinked(s, t);
    assert Without([m], m) == [];
  }

  lemma HandOverQueued(s: State, t: ThreadId, m: MutexId)
    requires WeakInv(s) && LastHold(s, t, m)
    requires s.mutexes[m].waiters != [] && Below(s.mutexes[m].waiters, |s.threads|) && Below(s.threads[t].taken, |s.mutexes|)
    ensures Queued(HandOver(s, t, m))
  {
    var r := HandOver(s, t, m);
    HandOverLinked(s, t, m);
    assert MutexLinked(s, m) && QueueOk(s.threads, s.mutexes[m]);
    forall k: MutexId | k < |r.mutexes| ensures QueueOk(r.threads, r.mutexes[k]) {
      assert MutexLinked(s, k) && QueueOk(s.threads, s.mutexes[k]);
      if k != m { QueueAgree(s.threads, r.threads, s.mutexes[k]); } else { SortedAgree(s.threads, r.threads, r.mutexes[m].waiters); }
    }
  }

  lemma HandOverCovers(s: State, t: ThreadId, m: MutexId, u: ThreadId)
    requires WeakInv(s) && LastHold(s, t, m) && u < |s.threads|
    requires s.mutexes[m].waiters != [] && Below(s.mutexes[m].waiters, |s.threads|) && Below(s.threads[t].taken, |s.mutexes|)
    ensures Covers(HandOver(s, t, m).threads[u].currentPriority, HandOver(s, t, m).threads[u], HandOver(s, t, m).mutexes)
  {
    var r, n := HandOver(s, t, m), s.mutexes[m].waiters[0];
    assert MutexLinked(s, m) && ThreadLinked(s, u) && QueueOk(s.threads, s.mutexes[m]);
    assert WaitsFor(s.threads[n], m) && n != t;
    assert Covers(s.threads[u].currentPriority, s.threads[u], s.mutexes);
    if u == n {
      assert s.threads[n].currentPriority <= r.mutexes[m].priority;
    } else {
      DisownTaken(s, t, m);
      DisownCovers(s, t, m);
      var th := if u == t then Disown(s, t, m) else s.threads[u];
      forall i | 0 <= i < |th.taken| ensures r.mutexes[th.taken[i]] == s.mutexes[th.taken[i]] { assert th.taken[i] in th.taken; }
      CoversAgree(th, r.threads[u], s.mutexes, r.mutexes);
    }
  }

  lemma HandOverWeak(s: State, t: ThreadId, m: MutexId)
    requires WeakInv(s) && LastHold(s, t, m)
    requires s.mutexes[m].waiters != [] && Below(s.mutexes[m].waiters, |s.threads|) && Below(s.threads[t].taken, |s.mutexes|)
    ensures WeakInv(HandOver(s, t, m))
  {
    HandOverLinked(s, t, m);
    HandOverQueued(s, t, m);
    forall u: ThreadId | u < |s.threads|
      ensures Covers(HandOver(s, t, m).threads[u].currentPriority, HandOver(s, t, m).threads[u], HandOver(s, t, m).mutexes)
    {
      HandOverCovers(s, t, m, u);
    }
  }

  /** Taking a waiter out leaves the head alone or uncovers a less urgent one. */
  lemma ExpireWeak(s: State, t: ThreadId, m: MutexId)
    requires WeakInv(s) && t < |s.threads| && m < |s.mutexes| && WaitsFor(s.threads[t], m)
    ensures WeakInv(Expire(s, t))
  {
    ExpireLinked(s, t, m);
    var r, ws := Expire(s, t), s.mutexes[m].waiters;
    assert MutexLinked(s, m) && QueueOk(s.threads, s.mutexes[m]);
    WithoutFacts(ws, t);
    WithoutBelow(ws, t, |s.threads|);
    WithoutSorted(s.threads, ws, t);
    var rest := Without(ws, t);
    assert ThreadLinked(s, t) && Covers(s.threads[t].currentPriority, s.threads[t], s.mutexes);
    HeadIsMin(s.threads, ws, if rest == [] then t else rest[0]);
    forall k: MutexId | k < |s.mutexes| ensures QueueOk(r.threads, r.mutexes[k]) {
      if k == m { SortedAgree(s.threads, r.threads, rest); } else { QueueAgree(s.threads, r.threads, s.mutexes[k]); }
    }
    forall u: ThreadId | u < |r.threads| ensures Covers(r.threads[u].currentPriority, r.threads[u], r.mutexes) {
      assert Covers(s.threads[u].currentPriority, s.threads[u], s.mutexes);
      CoversAgree(s.threads[u], r.threads[u], s.mutexes, r.mutexes);
    }
  }

  lemma RefreshWeak(s: State, m: MutexId)
    requires WeakInv(s) && m < |s.mutexes|
    ensures Below(s.mutexes[m].waiters, |s.threads|) && WeakInv(Refresh(s, m))
    ensures Refresh(s, m).mutexes[m].priority >= s.mutexes[m].priority
    ensures forall u: ThreadId :: u < |s.threads| ==> Below(s.threads[u].taken, |s.mutexes|)
  {
    RefreshKeepsLinks(s, m);
    var r := Refresh(s, m);
    forall k: MutexId | k < |r.mutexes| ensures QueueOk(r.threads, r.mutexes[k]) { assert QueueOk(s.threads, s.mutexes[k]); }
    assert QueueOk(s.threads, s.mutexes[m]);
    forall u: ThreadId | u < |r.threads| ensures Covers(r.threads[u].currentPriority, r.threads[u], r.mutexes) {
      OthersCovered(s, r, m, u);
    }
  }

  lemma CleanUpShifted(s: State, m: MutexId, o: ThreadId)
    requires WeakInv(s) && m < |s.mutexes| && o < |s.threads|
    ensures Below(s.mutexes[m].waiters, |s.threads|) && Below(s.threads[o].taken, |s.mutexes|)
    ensures var r := Refresh(s, m);
      var p := Inherit(r, o);
      p != s.threads[o].currentPriority ==> Shifted(SetPriority(r, o, p), o, s.threads[o].currentPriority)
  {
    RefreshWeak(s, m);
    var r := Refresh(s, m);
    InheritCovers(s, r, m, o);
    var p := Inherit(r, o);
    var n := SetPriority(r, o, p);
    SetPriorityLinked(r, o, p);
    SetPriorityBack(r, o, p);
    forall u: ThreadId | u < |n.threads| ensures Covers(n.threads[u].currentPriority, n.threads[u], n.mutexes) {
      if u != o { OthersCovered(s, r, m, u); }
    }
  }

  /** The second critical section of a take that was cut short. */
  ghost function CleanUp(s: State, t: ThreadId, m: MutexId): (r: State)
    requires WeakInv(s) && t < |s.threads| && m < |s.mutexes|
    ensures WeakInv(r)
  {
    RefreshWeak(s, m);
    var r := Refresh(s, m);
    if NeedsUpdate(s, t, m) then
      var o := s.mutexes[m].owner.value;
      CleanUpShifted(s, m, o);
      var p := OwnerBest(s, m);
      if p == s.threads[o].currentPriority then r
      else Propagate(SetPriority(r, o, p), o, s.threads[o].currentPriority)
    else r
  }

  lemma SetHoldWeak(s: State, m: MutexId, hold: nat)
    requires WeakInv(s) && m < |s.mutexes| && s.mutexes[m].owner.Some? && 1 <= hold <= HOLD_MAX
    ensures WeakInv(Runs.SetHold(s, m, hold))
  {
    var r := Runs.SetHold(s, m, hold);
    forall u: ThreadId | u < |r.threads| ensures ThreadLinked(r, u) && Covers(r.threads[u].currentPriority, r.threads[u], r.mutexes) {
      assert ThreadLinked(s, u) && Covers(s.threads[u].currentPriority, s.threads[u], s.mutexes);
    }
    forall k: MutexId | k < |r.mutexes| ensures MutexLinked(r, k) && QueueOk(r.threads, r.mutexes[k]) {
      assert MutexLinked(s, k) && QueueOk(s.threads, s.mutexes[k]);
    }
  }

  /** Flags of a thread in no mutex queue do not matter. */
  lemma IdleThreadWeak(s: State, r: State, t: ThreadId)
    requires WeakInv(s) && t < |s.threads| && !Waiting(s.threads[t])
    requires r.mutexes == s.mutexes && |r.threads| == |s.threads|
    requires forall u: ThreadId :: u < |s.threads| && u != t ==> r.threads[u] == s.threads[u]
    requires r.threads[t] == s.threads[t].(suspended := r.threads[t].suspended, pending := r.threads[t].pending)
    requires !Waiting(r.threads[t])
    ensures WeakInv(r)
  {
    forall u: ThreadId | u < |r.threads| ensures ThreadLinked(r, u) && Covers(r.threads[u].currentPriority, r.threads[u], r.mutexes) {
      assert ThreadLinked(s, u) && Covers(s.threads[u].currentPriority, s.threads[u], s.mutexes);
    }
    forall k: MutexId | k < |r.mutexes| ensures MutexLinked(r, k) && QueueOk(r.threads, r.mutexes[k]) {
      assert MutexLinked(s, k);
      QueueAgree(s.threads, r.threads, s.mutexes[k]);
    }
  }

  /** The loop changes nothing but priorities and queue order. */
  lemma {:induction false} PropagateShape(s: State, t: ThreadId, before: nat)
    requires Shifted(s, t, before)
    ensures SameShape(s, Propagate(s, t, before))
    decreases if s.threads[t].currentPriority < before then 1 else 0,
              if s.threads[t].currentPriority < before then SumCurrent(s.threads)
              else SumInit(s.threads) - SumCurrent(s.threads)
  {
    if Waiting(s.threads[t]) {
      WeakRound(s, t, before);
      RoundQueued(s, t, before);
      var r, o := Round(s, t), Blocker(s, t);
      var p := Inherit(r, o);
      if p != s.threads[o].currentPriority {
        WeakMeasure(s, r, o, p);
        PropagateShape(SetPriority(r, o, p), o, s.threads[o].currentPriority);
        SameShapeTransitive(s, r, SetPriority(r, o, p));
        SameShapeTransitive(s, SetPriority(r, o, p), Propagate(s, t, before));
      }
    }
  }

  lemma CleanUpThread(s: State, t: ThreadId, m: MutexId)
    requires WeakInv(s) && t < |s.threads| && m < |s.mutexes|
    ensures var c := CleanUp(s, t, m);
      |c.threads| == |s.threads| && c.threads[t].pending == s.threads[t].pending && c.threads[t].suspended == s.threads[t].suspended
  {
    RefreshWeak(s, m);
    if NeedsUpdate(s, t, m) {
      var o := s.mutexes[m].owner.value;
      CleanUpShifted(s, m, o);
      var p := OwnerBest(s, m);
      if p != s.threads[o].currentPriority { PropagateShape(SetPriority(Refresh(s, m), o, p), o, s.threads[o].currentPriority); }
    }
  }

  // ---------- runs ----------

  /** One critical section; the expiry of a take (TimeOut) and its cleanup (Finish) are separate steps. */
  datatype Op =
    | Take(t: ThreadId, m: MutexId, wait: bool)
    | Release(t: ThreadId, m: MutexId)
    | TimeOut(t: ThreadId)
    | Finish(t: ThreadId)
    | Sleep(t: ThreadId)
    | Wake(t: ThreadId)

  /** t has been taken out of a mutex queue and has yet to clean up. */
  predicate Expired(s: State, t: ThreadId) {
    t < |s.threads| && !s.threads[t].suspended && s.threads[t].pending.Some? && s.threads[t].pending.value < |s.mutexes|
  }

  ghost predicate Enabled(s: State, op: Op) {
    match op
    case Take(t, m, _) => Running(s, t) && m < |s.mutexes|
    case Release(t, m) => Running(s, t) && m < |s.mutexes|
    case TimeOut(t) => t < |s.threads| && Waiting(s.threads[t])
    case Finish(t) => Expired(s, t)
    case Sleep(t) => Running(s, t)
    case Wake(t) => t < |s.threads| && s.threads[t].suspended && s.threads[t].pending.None?
  }

  ghost function TakeStep(s: State, t: ThreadId, m: MutexId, wait: bool): (r: State)
    requires WeakInv(s) && Running(s, t) && m < |s.mutexes|
    ensures WeakInv(r)
  {
    var mx := s.mutexes[m];
    if mx.owner == Some(t) then
      if mx.hold < HOLD_MAX then
        SetHoldWeak(s, m, mx.hold + 1);
        Runs.SetHold(s, m, mx.hold + 1)
      else s
    else if mx.owner.None? then
      TakeFreeWeak(s, t, m);
      TakeFree(s, t, m)
    else if !wait then s
    else TakeBlocked(s, t, m)
  }

  ghost function ReleaseStep(s: State, t: ThreadId, m: MutexId): (r: State)
    requires WeakInv(s) && Running(s, t) && m < |s.mutexes|
    ensures WeakInv(r)
  {
    var mx := s.mutexes[m];
    assert MutexLinked(s, m) && ThreadLinked(s, t);
    if mx.owner != Some(t) then s
    else if mx.hold > 1 then
      SetHoldWeak(s, m, mx.hold - 1);
      Runs.SetHold(s, m, mx.hold - 1)
    else if mx.waiters == [] then
      ReleaseFreeWeak(s, t, m);
      ReleaseFree(s, t, m)
    else
      HandOverWeak(s, t, m);
      HandOver(s, t, m)
  }

  ghost function CleanUpStep(s: State, t: ThreadId): (r: State)
    requires WeakInv(s) && Expired(s, t)
    ensures WeakInv(r)
  {
    var m := s.threads[t].pending.value;
    CleanUpThread(s, t, m);
    var c := CleanUp(s, t, m);
    IdleThreadWeak(c, Runs.ClearPending(c, t), t);
    Runs.ClearPending(c, t)
  }

  ghost function Step(s: State, op: Op): (r: State)
    requires WeakInv(s) && Enabled(s, op)
    ensures WeakInv(r)
  {
    match op
    case Take(t, m, wait) => TakeStep(s, t, m, wait)
    case Release(t, m) => ReleaseStep(s, t, m)
    case TimeOut(t) =>
      assert ThreadLinked(s, t);
      ExpireWeak(s, t, s.threads[t].pending.value);
      Expire(s, t)
    case Finish(t) => CleanUpStep(s, t)
    case Sleep(t) =>
      IdleThreadWeak(s, Runs.SetSuspended(s, t, true), t);
      Runs.SetSuspended(s, t, true)
    case Wake(t) =>
      IdleThreadWeak(s, Runs.SetSuspended(s, t, false), t);
      Runs.SetSuspended(s, t, false)
  }

  /** The state after a run; an operation that cannot be called in its state is skipped. */
  ghost function After(s: State, ops: seq<Op>): (r: State)
    requires WeakInv(s)
    ensures WeakInv(r)
    decreases |ops|
  {
    if ops == [] then s
    else After(if Enabled(s, ops[0]) then Step(s, ops[0]) else s, ops[1..])
  }

  lemma BlockerUrgent(s: State, a: ThreadId, b: ThreadId)
    requires WeakInv(s) && Runs.BlockedBy(s, a, b)
    ensures s.threads[b].currentPriority <= s.threads[a].currentPriority
  {
    var m := s.threads[a].pending.value;
    assert ThreadLinked(s, a) && MutexLinked(s, m) && QueueOk(s.threads, s.mutexes[m]);
    HeadIsMin(s.threads, s.mutexes[m].waiters, a);
    assert Covers(s.threads[b].currentPriority, s.threads[b], s.mutexes);
    var j :| 0 <= j < |s.threads[b].taken| && s.threads[b].taken[j] == m;
  }

  lemma {:induction false} ChainUrgent(s: State, c: seq<ThreadId>)
    requires WeakInv(s) && Runs.Chain(s, c)
    ensures s.threads[c[|c| - 1]].currentPriority <= s.threads[c[0]].currentPriority <= s.threads[c[0]].initPriority
  {
    assert Covers(s.threads[c[0]].currentPriority, s.threads[c[0]], s.mutexes);
    if |c| > 1 {
      assert Runs.BlockedBy(s, c[0], c[1]);
      var d := c[1..];
      forall i | 0 <= i < |d| - 1 ensures Runs.BlockedBy(s, d[i], d[i + 1]) {
        assert Runs.BlockedBy(s, c[i + 1], c[i + 2]);
      }
      ChainUrgent(s, d);
      BlockerUrgent(s, c[0], c[1]);
    }
  }

  /**
   In every state of every run in which expiry and cleanup are separate steps, the last thread of
   a chain of blocked threads is at least as urgent as everyone in it, now and by initial priority.
   */
  lemma EveryRunUrgent(s: State, ops: seq<Op>, c: seq<ThreadId>)
    requires Runs.Initial(s)
    ensures WeakInv(s)
    ensures WeakInv(After(s, ops))
    ensures Runs.Chain(After(s, ops), c) ==>
      var r := After(s, ops);
      var p := r.threads[c[|c| - 1]].currentPriority;
      forall i :: 0 <= i < |c| ==> p <= r.threads[c[i]].currentPriority <= r.threads[c[i]].initPriority
  {
    Runs.InitialInv(s);
    InvWeak(s);
    var r := After(s, ops);
    if Runs.Chain(r, c) {
      forall i | 0 <= i < |c|
        ensures r.threads[c[|c| - 1]].currentPriority <= r.threads[c[i]].currentPriority <= r.threads[c[i]].initPriority
      {
        var d := c[i..];
        forall j | 0 <= j < |d| - 1 ensures Runs.BlockedBy(r, d[j], d[j + 1]) {
          assert Runs.BlockedBy(r, c[i + j], c[i + j + 1]);
        }
        ChainUrgent(r, d);
      }
    }
  }

  // ---------- without interleaving, the two steps are one ----------

  lemma ChangedShifted(s: State, t: ThreadId, before: nat)
    requires Changed(s, t, before)
    ensures Shifted(s, t, before)
  {
    forall u: ThreadId | u < |s.threads| ensures Covers(s.threads[u].currentPriority, s.threads[u], s.mutexes) {
      assert IsBest(s.threads[u].currentPriority, s.threads[u], s.mutexes);
    }
  }

  /** With the inheritance equations in force both loops do the same. */
  lemma {:induction false} PropagateAgrees(s: State, t: ThreadId, before: nat)
    requires Changed(s, t, before)
    ensures Shifted(s, t, before) && Propagate(s, t, before) == PriorityInheritance.Propagate(s, t, before)
    decreases if s.threads[t].currentPriority < before then SumCurrent(s.threads)
              else SumInit(s.threads) - SumCurrent(s.threads)
  {
    ChangedShifted(s, t, before);
    if Waiting(s.threads[t]) {
      PropagateRound(s, t, before);
      var r, o := Round(s, t), Blocker(s, t);
      var p := Inherit(r, o);
      if p != s.threads[o].currentPriority {
        MeasureStep(s, r, o, p);
        PropagateAgrees(SetPriority(r, o, p), o, s.threads[o].currentPriority);
      }
    }
  }

  lemma TakeAgrees(s: State, t: ThreadId, m: MutexId, wait: bool)
    requires Inv(s) && Running(s, t) && m < |s.mutexes|
    ensures WeakInv(s) && TakeStep(s, t, m, wait) == Runs.TakeStep(s, t, m, wait)
  {
    InvWeak(s);
    if Contends(s, t, m) {
      EnqueueLinked(s, t, m);
      assert MutexLinked(s, m);
      var o, p := s.mutexes[m].owner.value, s.threads[t].currentPriority;
      if p < s.threads[o].currentPriority {
        assert IsBest(s.threads[o].currentPriority, s.threads[o], s.mutexes);
        var j :| 0 <= j < |s.threads[o].taken| && s.threads[o].taken[j] == m;
        TakeBlockedChanged(s, t, m);
        PropagateAgrees(SetPriority(Enqueue(s, t, m), o, p), o, s.threads[o].currentPriority);
      }
    }
  }

  lemma ReleaseAgrees(s: State, t: ThreadId, m: MutexId)
    requires Inv(s) && Running(s, t) && m < |s.mutexes|
    ensures WeakInv(s) && ReleaseStep(s, t, m) == Runs.ReleaseStep(s, t, m)
  {
    InvWeak(s);
  }

  lemma CleanUpAgrees(s: State, t: ThreadId, m: MutexId)
    requires Leaving(s, t, m) && WeakInv(s)
    ensures CleanUp(s, t, m) == MutexOperations.CleanUp(s, t, m)
  {
    RefreshLinked(s, t, m);
    if NeedsUpdate(s, t, m) {
      RefreshChanged(s, t, m);
      var o, p := s.mutexes[m].owner.value, OwnerBest(s, m);
      if p != s.threads[o].currentPriority { PropagateAgrees(SetPriority(Refresh(s, m), o, p), o, s.threads[o].currentPriority); }
    }
  }

  /** A cleanup right after its expiry is the one step of MutexRuns, and restores the equations. */
  lemma TimeoutAgrees(s: State, t: ThreadId)
    requires Inv(s) && t < |s.threads| && Waiting(s.threads[t])
    ensures WeakInv(s) && Expired(Step(s, TimeOut(t)), t)
    ensures Step(Step(s, TimeOut(t)), Finish(t)) == Runs.TimeoutStep(s, t)
  {
    InvWeak(s);
    assert ThreadLinked(s, t);
    var m := s.threads[t].pending.value;
    ExpireWeak(s, t, m);
    ExpireThenCleanUp(s, t, m);
    CleanUpAgrees(Expire(s, t), t, m);
  }
}
