/**
 The critical sections of rt_mutex_take and rt_mutex_release (ipc.c) as functions
 on mutex states, the invariant each of them keeps, and every run built from them.
 */
module MutexOperations {
  import opened Wrappers
  import opened PriorityInheritance

  /** t may call into the kernel: it neither sleeps nor is inside a take. */
  predicate Running(s: State, t: ThreadId) {
    t < |s.threads| && !s.threads[t].suspended && s.threads[t].pending.None?
  }

  lemma BestAgree(p: nat, a: Thread, b: Thread, ms: seq<Mutex>, ms': seq<Mutex>)
    requires IsBest(p, a, ms)
    requires a.initPriority == b.initPriority && a.taken == b.taken && |ms'| == |ms|
    requires forall i :: 0 <= i < |a.taken| ==> ms'[a.taken[i]].priority == ms[a.taken[i]].priority
    ensures IsBest(p, b, ms')
  {
  }

  lemma BestUnique(p: nat, q: nat, th: Thread, ms: seq<Mutex>)
    ensures IsBest(p, th, ms) && IsBest(q, th, ms) ==> p == q
  {
  }

  /** One more mutex, with a cached priority no more urgent than p, leaves the best priority at p. */
  lemma BestWithOne(p: nat, a: Thread, b: Thread, m: MutexId, ms: seq<Mutex>, ms': seq<Mutex>)
    requires IsBest(p, a, ms) && a.initPriority == b.initPriority && b.taken == [m] + a.taken
    requires |ms'| == |ms| && m < |ms| && p <= ms'[m].priority
    requires forall i :: 0 <= i < |a.taken| ==> ms'[a.taken[i]].priority == ms[a.taken[i]].priority
    ensures IsBest(p, b, ms')
  {
    if p != a.initPriority {
      var i :| 0 <= i < |a.taken| && p == ms[a.taken[i]].priority;
      assert b.taken[i + 1] == a.taken[i];
    }
  }

  // ---------- rt_mutex_take ----------

  /** The mutex is free: t becomes its owner. */
  function TakeFree(s: State, t: ThreadId, m: MutexId): State
    requires t < |s.threads| && m < |s.mutexes|
  {
    State(
      s.threads[t := s.threads[t].(taken := [m] + s.threads[t].taken)],
      s.mutexes[m := s.mutexes[m].(owner := Some(t), priority := NO_PRIORITY, hold := 1)])
  }

  lemma TakeFreeLinked(s: State, t: ThreadId, m: MutexId)
    requires Linked(s) && t < |s.threads| && m < |s.mutexes| && s.mutexes[m].owner.None?
    ensures Linked(TakeFree(s, t, m))
  {
    var r := TakeFree(s, t, m);
    assert MutexLinked(s, m);
    forall u: ThreadId | u < |r.threads| ensures ThreadLinked(r, u) {
      assert ThreadLinked(s, u);
      if u == t {
        assert m !in s.threads[t].taken;
      }
    }
    forall k: MutexId | k < |r.mutexes| ensures MutexLinked(r, k) {
      assert MutexLinked(s, k);
      if k == m {
        assert r.threads[t].taken[0] == m;
      } else if s.mutexes[k].owner == Some(t) {
        assert k in [m] + s.threads[t].taken;
      }
    }
  }

  lemma TakeFreeBest(s: State, t: ThreadId, m: MutexId)
    requires Inv(s) && t < |s.threads| && m < |s.mutexes| && s.mutexes[m].owner.None?
    ensures IsBest(s.threads[t].currentPriority, TakeFree(s, t, m).threads[t], TakeFree(s, t, m).mutexes)
  {
    var r := TakeFree(s, t, m);
    assert ThreadLinked(s, t);
    var th := s.threads[t];
    assert IsBest(th.currentPriority, th, s.mutexes);
    BestWithOne(th.currentPriority, th, r.threads[t], m, s.mutexes, r.mutexes);
  }

  lemma TakeFreeInv(s: State, t: ThreadId, m: MutexId)
    requires Inv(s) && t < |s.threads| && m < |s.mutexes| && s.mutexes[m].owner.None?
    ensures Inv(TakeFree(s, t, m))
  {
    TakeFreeLinked(s, t, m);
    var r := TakeFree(s, t, m);
    assert MutexLinked(s, m);
    forall k: MutexId | k < |r.mutexes|
      ensures Sorted(r.threads, r.mutexes[k].waiters) && r.mutexes[k].priority == HeadPriority(r.threads, r.mutexes[k].waiters)
    {
      SortedAgree(s.threads, r.threads, s.mutexes[k].waiters);
    }
    forall u: ThreadId | u < |r.threads| ensures IsBest(r.threads[u].currentPriority, r.threads[u], r.mutexes) {
      if u == t {
        TakeFreeBest(s, t, m);
      } else {
        assert ThreadLinked(s, u);
        BestAgree(s.threads[u].currentPriority, s.threads[u], r.threads[u], s.mutexes, r.mutexes);
      }
    }
  }

  /** t joins the waiters of m; the cached priority follows. */
  function Enqueue(s: State, t: ThreadId, m: MutexId): State
    requires t < |s.threads| && m < |s.mutexes| && Below(s.mutexes[m].waiters, |s.threads|)
  {
    var p := s.threads[t].currentPriority;
    var mx := s.mutexes[m];
    State(
      s.threads[t := s.threads[t].(suspended := true, pending := Some(m))],
      s.mutexes[m := mx.(
        waiters := InsertByPriority(s.threads, mx.waiters, t),
        priority := if p < mx.priority then p else mx.priority)])
  }

  /** A take that finds the mutex held by someone else. */
  predicate Contends(s: State, t: ThreadId, m: MutexId) {
    Running(s, t) && m < |s.mutexes| && s.mutexes[m].owner.Some? && s.mutexes[m].owner != Some(t)
  }

  ghost predicate Blocks(s: State, t: ThreadId, m: MutexId) { Inv(s) && Contends(s, t, m) }

  lemma EnqueueLinked(s: State, t: ThreadId, m: MutexId)
    requires Linked(s) && Contends(s, t, m)
    ensures Below(s.mutexes[m].waiters, |s.threads|) && t !in s.mutexes[m].waiters
    ensures Linked(Enqueue(s, t, m))
  {
    assert MutexLinked(s, m);
    var ws := s.mutexes[m].waiters;
    InsertFacts(s.threads, ws, t);
    InsertBelow(s.threads, ws, t);
    var r := Enqueue(s, t, m);
    forall u: ThreadId | u < |r.threads| ensures ThreadLinked(r, u) { assert ThreadLinked(s, u); }
    forall k: MutexId | k < |r.mutexes| ensures MutexLinked(r, k) {
      assert MutexLinked(s, k);
      if k == m {
        var ws' := r.mutexes[m].waiters;
        forall i | 0 <= i < |ws'| ensures WaitsFor(r.threads[ws'[i]], m) {
          assert ws'[i] in ws || ws'[i] == t;
        }
      }
    }
  }

  lemma EnqueueCached(s: State, t: ThreadId, m: MutexId)
    requires Blocks(s, t, m) && Below(s.mutexes[m].waiters, |s.threads|) && t !in s.mutexes[m].waiters
    ensures Cached(Enqueue(s, t, m))
  {
    var r := Enqueue(s, t, m);
    assert MutexLinked(s, m) && ThreadLinked(s, t);
    assert IsBest(s.threads[t].currentPriority, s.threads[t], s.mutexes);
    forall k: MutexId | k < |r.mutexes|
      ensures Sorted(r.threads, r.mutexes[k].waiters) && r.mutexes[k].priority == HeadPriority(r.threads, r.mutexes[k].waiters)
    {
      if k == m { InsertSorted(s.threads, s.mutexes[m].waiters, t); }
      SortedAgree(s.threads, r.threads, r.mutexes[k].waiters);
    }
  }

  /** After the enqueue only the owner may be running at a stale priority. */
  lemma EnqueueInherited(s: State, t: ThreadId, m: MutexId, u: ThreadId)
    requires Blocks(s, t, m) && Below(s.mutexes[m].waiters, |s.threads|) && u < |s.threads|
    ensures var r := Enqueue(s, t, m);
      var p := s.threads[t].currentPriority;
      var best := if s.mutexes[m].owner == Some(u) && p < s.threads[u].currentPriority then p else s.threads[u].currentPriority;
      IsBest(best, r.threads[u], r.mutexes)
  {
    assert ThreadLinked(s, u) && MutexLinked(s, m);
    var r := Enqueue(s, t, m);
    var th := s.threads[u];
    assert IsBest(th.currentPriority, th, s.mutexes);
    if s.mutexes[m].owner != Some(u) {
      BestAgree(th.currentPriority, th, r.threads[u], s.mutexes, r.mutexes);
    } else {
      var j :| 0 <= j < |th.taken| && th.taken[j] == m;
      assert r.mutexes[th.taken[j]].priority <= s.threads[t].currentPriority;
    }
  }

  /** rt_mutex_take on a held mutex, up to the call of rt_schedule. */
  ghost function TakeBlocked(s: State, t: ThreadId, m: MutexId): (r: State)
    requires Blocks(s, t, m)
    ensures Inv(r)
  {
    EnqueueLinked(s, t, m);
    EnqueueCached(s, t, m);
    var r := Enqueue(s, t, m);
    var o := s.mutexes[m].owner.value;
    var p := s.threads[t].currentPriority;
    assert MutexLinked(s, m);
    if p < s.threads[o].currentPriority then
      TakeBlockedChanged(s, t, m);
      Propagate(SetPriority(r, o, p), o, s.threads[o].currentPriority)
    else
      assert Inherited(r) by {
        forall u: ThreadId | u < |r.threads| ensures IsBest(r.threads[u].currentPriority, r.threads[u], r.mutexes) {
          EnqueueInherited(s, t, m, u);
        }
      }
      r
  }

  lemma TakeBlockedChanged(s: State, t: ThreadId, m: MutexId)
    requires Blocks(s, t, m) && Below(s.mutexes[m].waiters, |s.threads|)
    requires s.mutexes[m].owner.value < |s.threads|
    requires s.threads[t].currentPriority < s.threads[s.mutexes[m].owner.value].currentPriority
    ensures var o := s.mutexes[m].owner.value;
      Changed(SetPriority(Enqueue(s, t, m), o, s.threads[t].currentPriority), o, s.threads[o].currentPriority)
  {
    EnqueueLinked(s, t, m);
    EnqueueCached(s, t, m);
    var r := Enqueue(s, t, m);
    var o := s.mutexes[m].owner.value;
    var p := s.threads[t].currentPriority;
    SetPriorityLinked(r, o, p);
    SetPriorityBack(r, o, p);
    var n := SetPriority(r, o, p);
    forall u: ThreadId | u < |n.threads| ensures IsBest(n.threads[u].currentPriority, n.threads[u], n.mutexes) {
      EnqueueInherited(s, t, m, u);
    }
  }

  // ---------- rt_mutex_release ----------

  /** The last hold is given up: t forgets m and drops to the best priority it still inherits. */
  function Disown(s: State, t: ThreadId, m: MutexId): Thread
    requires t < |s.threads| && m < |s.mutexes| && Below(s.threads[t].taken, |s.mutexes|)
  {
    var th := s.threads[t];
    var rest := Without(th.taken, m);
    WithoutBelow(th.taken, m, |s.mutexes|);
    th.(taken := rest,
        currentPriority := if th.currentPriority == s.mutexes[m].priority
                           then BestPriority(th.initPriority, rest, s.mutexes) else th.currentPriority)
  }

  /** Nobody waits: the mutex becomes free. */
  function ReleaseFree(s: State, t: ThreadId, m: MutexId): State
    requires t < |s.threads| && m < |s.mutexes| && Below(s.threads[t].taken, |s.mutexes|)
  {
    State(s.threads[t := Disown(s, t, m)], s.mutexes[m := Mutex(None, NO_PRIORITY, 0, [])])
  }

  /** The first waiter becomes the owner. */
  function HandOver(s: State, t: ThreadId, m: MutexId): State
    requires t < |s.threads| && m < |s.mutexes| && Below(s.threads[t].taken, |s.mutexes|)
    requires s.mutexes[m].waiters != [] && Below(s.mutexes[m].waiters, |s.threads|)
  {
    var n := s.mutexes[m].waiters[0];
    var rest := s.mutexes[m].waiters[1..];
    var ths := s.threads[t := Disown(s, t, m)];
    State(
      ths[n := ths[n].(taken := [m] + ths[n].taken, pending := None, suspended := false)],
      s.mutexes[m := Mutex(Some(n), HeadPriority(ths, rest), 1, rest)])
  }

  /** The caller holds m exactly once. */
  predicate LastHold(s: State, t: ThreadId, m: MutexId) {
    Running(s, t) && m < |s.mutexes| && s.mutexes[m].owner == Some(t) && s.mutexes[m].hold == 1
  }

  ghost predicate Releases(s: State, t: ThreadId, m: MutexId) { Inv(s) && LastHold(s, t, m) }

  lemma DisownTaken(s: State, t: ThreadId, m: MutexId)
    requires Linked(s) && LastHold(s, t, m)
    ensures Below(s.threads[t].taken, |s.mutexes|)
    ensures NoDuplicates(Disown(s, t, m).taken)
    ensures forall x :: x in Disown(s, t, m).taken <==> x in s.threads[t].taken && x != m
  {
    assert ThreadLinked(s, t);
    WithoutFacts(s.threads[t].taken, m);
  }

  lemma DisownBest(s: State, t: ThreadId, m: MutexId)
    requires Releases(s, t, m)
    ensures Below(s.threads[t].taken, |s.mutexes|)
    ensures NoDuplicates(Disown(s, t, m).taken)
    ensures forall x :: x in Disown(s, t, m).taken <==> x in s.threads[t].taken && x != m
    ensures IsBest(Disown(s, t, m).currentPriority, Disown(s, t, m), s.mutexes)
  {
    assert ThreadLinked(s, t) && MutexLinked(s, m);
    var th := s.threads[t];
    var rest := Without(th.taken, m);
    WithoutFacts(th.taken, m);
    WithoutBelow(th.taken, m, |s.mutexes|);
    BestPriorityBound(th.initPriority, rest, s.mutexes);
    assert IsBest(th.currentPriority, th, s.mutexes);
    if th.currentPriority != s.mutexes[m].priority {
      forall i | 0 <= i < |rest| ensures th.currentPriority <= s.mutexes[rest[i]].priority {
        assert rest[i] in th.taken;
      }
      if th.currentPriority != th.initPriority {
        var i :| 0 <= i < |th.taken| && th.currentPriority == s.mutexes[th.taken[i]].priority;
        assert th.taken[i] in rest;
        var j :| 0 <= j < |rest| && rest[j] == th.taken[i];
      }
    }
  }

  lemma ReleaseFreeLinked(s: State, t: ThreadId, m: MutexId)
    requires Linked(s) && LastHold(s, t, m) && s.mutexes[m].waiters == [] && Below(s.threads[t].taken, |s.mutexes|)
    ensures Linked(ReleaseFree(s, t, m))
  {
    var r := ReleaseFree(s, t, m);
    DisownTaken(s, t, m);
    forall u: ThreadId | u < |r.threads| ensures ThreadLinked(r, u) {
      assert ThreadLinked(s, u);
      forall i | 0 <= i < |r.threads[u].taken| ensures r.threads[u].taken[i] != m && r.threads[u].taken[i] in s.threads[u].taken {
        assert r.threads[u].taken[i] in r.threads[u].taken;
      }
    }
    forall k: MutexId | k < |r.mutexes| ensures MutexLinked(r, k) { assert MutexLinked(s, k); }
  }

  lemma ReleaseFreeInv(s: State, t: ThreadId, m: MutexId)
    requires Releases(s, t, m) && s.mutexes[m].waiters == [] && Below(s.threads[t].taken, |s.mutexes|)
    ensures Inv(ReleaseFree(s, t, m))
  {
    var r := ReleaseFree(s, t, m);
    ReleaseFreeLinked(s, t, m);
    DisownBest(s, t, m);
    forall k: MutexId | k < |r.mutexes|
      ensures Sorted(r.threads, r.mutexes[k].waiters) && r.mutexes[k].priority == HeadPriority(r.threads, r.mutexes[k].waiters)
    {
      assert MutexLinked(s, k);
      SortedAgree(s.threads, r.threads, s.mutexes[k].waiters);
    }
    forall u: ThreadId | u < |r.threads| ensures IsBest(r.threads[u].currentPriority, r.threads[u], r.mutexes) {
      assert ThreadLinked(s, u) && ThreadLinked(r, u);
      if u == t {
        BestAgree(r.threads[t].currentPriority, Disown(s, t, m), r.threads[t], s.mutexes, r.mutexes);
      } else {
        BestAgree(s.threads[u].currentPriority, s.threads[u], r.threads[u], s.mutexes, r.mutexes);
      }
    }
  }

  lemma ReleaserLinked(s: State, t: ThreadId, m: MutexId)
    requires Linked(s) && LastHold(s, t, m)
    requires s.mutexes[m].waiters != [] && Below(s.mutexes[m].waiters, |s.threads|) && Below(s.threads[t].taken, |s.mutexes|)
    ensures s.mutexes[m].waiters[0] != t && ThreadLinked(HandOver(s, t, m), t)
  {
    var r := HandOver(s, t, m);
    assert MutexLinked(s, m) && ThreadLinked(s, t);
    assert WaitsFor(s.threads[s.mutexes[m].waiters[0]], m);
    DisownTaken(s, t, m);
    forall i | 0 <= i < |r.threads[t].taken|
      ensures r.threads[t].taken[i] < |s.mutexes| && r.threads[t].taken[i] != m && s.mutexes[r.threads[t].taken[i]].owner == Some(t)
    {
      assert r.threads[t].taken[i] in r.threads[t].taken;
      assert r.threads[t].taken[i] in s.threads[t].taken;
    }
  }

  lemma NewOwnerLinked(s: State, t: ThreadId, m: MutexId)
    requires Linked(s) && LastHold(s, t, m)
    requires s.mutexes[m].waiters != [] && Below(s.mutexes[m].waiters, |s.threads|) && Below(s.threads[t].taken, |s.mutexes|)
    ensures ThreadLinked(HandOver(s, t, m), s.mutexes[m].waiters[0])
  {
    var n := s.mutexes[m].waiters[0];
    assert MutexLinked(s, m) && ThreadLinked(s, n);
    assert WaitsFor(s.threads[n], m) && n != t;
    assert m !in s.threads[n].taken;
  }

  lemma HandOverThreads(s: State, t: ThreadId, m: MutexId, u: ThreadId)
    requires Linked(s) && LastHold(s, t, m) && u < |s.threads|
    requires s.mutexes[m].waiters != [] && Below(s.mutexes[m].waiters, |s.threads|) && Below(s.threads[t].taken, |s.mutexes|)
    ensures ThreadLinked(HandOver(s, t, m), u)
  {
    var n := s.mutexes[m].waiters[0];
    if u == t {
      ReleaserLinked(s, t, m);
    } else if u == n {
      NewOwnerLinked(s, t, m);
    } else {
      assert MutexLinked(s, m) && ThreadLinked(s, u);
      assert forall x :: x in s.mutexes[m].waiters[1..] <==> x in s.mutexes[m].waiters && x != n;
    }
  }

  lemma HandOverMutexes(s: State, t: ThreadId, m: MutexId, k: MutexId)
    requires Linked(s) && LastHold(s, t, m) && k < |s.mutexes|
    requires s.mutexes[m].waiters != [] && Below(s.mutexes[m].waiters, |s.threads|) && Below(s.threads[t].taken, |s.mutexes|)
    ensures MutexLinked(HandOver(s, t, m), k)
  {
    var r := HandOver(s, t, m);
    var n := s.mutexes[m].waiters[0];
    DisownTaken(s, t, m);
    assert MutexLinked(s, m) && MutexLinked(s, k) && ThreadLinked(s, n);
    assert WaitsFor(s.threads[n], m) && n != t;
    if k == m {
      assert r.threads[n].taken[0] == m;
    } else if s.mutexes[k].owner == Some(n) {
      assert k in [m] + s.threads[n].taken;
    }
  }

  lemma HandOverLinked(s: State, t: ThreadId, m: MutexId)
    requires Linked(s) && LastHold(s, t, m)
    requires s.mutexes[m].waiters != [] && Below(s.mutexes[m].waiters, |s.threads|) && Below(s.threads[t].taken, |s.mutexes|)
    ensures Linked(HandOver(s, t, m))
  {
    forall u: ThreadId | u < |s.threads| ensures ThreadLinked(HandOver(s, t, m), u) { HandOverThreads(s, t, m, u); }
    forall k: MutexId | k < |s.mutexes| ensures MutexLinked(HandOver(s, t, m), k) { HandOverMutexes(s, t, m, k); }
  }

  /** The new owner was the most urgent waiter, so what it now inherits from m changes nothing. */
  lemma NewOwnerBest(s: State, t: ThreadId, m: MutexId)
    requires Releases(s, t, m)
    requires s.mutexes[m].waiters != [] && Below(s.mutexes[m].waiters, |s.threads|) && Below(s.threads[t].taken, |s.mutexes|)
    ensures var r, n := HandOver(s, t, m), s.mutexes[m].waiters[0];
      IsBest(r.threads[n].currentPriority, r.threads[n], r.mutexes)
  {
    var r, n := HandOver(s, t, m), s.mutexes[m].waiters[0];
    assert MutexLinked(s, m) && ThreadLinked(s, n);
    assert WaitsFor(s.threads[n], m) && n != t;
    var th := s.threads[n];
    assert IsBest(th.currentPriority, th, s.mutexes);
    assert th.currentPriority <= r.mutexes[m].priority;
    forall i | 0 <= i < |th.taken| ensures r.mutexes[th.taken[i]] == s.mutexes[th.taken[i]] {}
    BestWithOne(th.currentPriority, th, r.threads[n], m, s.mutexes, r.mutexes);
  }

  lemma HandOverBest(s: State, t: ThreadId, m: MutexId, u: ThreadId)
    requires Releases(s, t, m) && u < |s.threads|
    requires s.mutexes[m].waiters != [] && Below(s.mutexes[m].waiters, |s.threads|) && Below(s.threads[t].taken, |s.mutexes|)
    ensures IsBest(HandOver(s, t, m).threads[u].currentPriority, HandOver(s, t, m).threads[u], HandOver(s, t, m).mutexes)
  {
    var r, n := HandOver(s, t, m), s.mutexes[m].waiters[0];
    assert MutexLinked(s, m) && ThreadLinked(s, u);
    assert WaitsFor(s.threads[n], m) && n != t;
    if u == n {
      NewOwnerBest(s, t, m);
    } else {
      DisownBest(s, t, m);
      var th := if u == t then Disown(s, t, m) else s.threads[u];
      forall i | 0 <= i < |th.taken| ensures r.mutexes[th.taken[i]] == s.mutexes[th.taken[i]] {
        assert th.taken[i] in th.taken;
      }
      BestAgree(th.currentPriority, th, r.threads[u], s.mutexes, r.mutexes);
    }
  }

  lemma HandOverInv(s: State, t: ThreadId, m: MutexId)
    requires Releases(s, t, m)
    requires s.mutexes[m].waiters != [] && Below(s.mutexes[m].waiters, |s.threads|) && Below(s.threads[t].taken, |s.mutexes|)
    ensures Inv(HandOver(s, t, m))
  {
    var r := HandOver(s, t, m);
    HandOverLinked(s, t, m);
    forall k: MutexId | k < |r.mutexes|
      ensures Sorted(r.threads, r.mutexes[k].waiters) && r.mutexes[k].priority == HeadPriority(r.threads, r.mutexes[k].waiters)
    {
      assert MutexLinked(s, k) && MutexLinked(r, k);
      SortedAgree(s.threads, r.threads, r.mutexes[k].waiters);
    }
    forall u: ThreadId | u < |r.threads| ensures IsBest(r.threads[u].currentPriority, r.threads[u], r.mutexes) {
      HandOverBest(s, t, m, u);
    }
  }

  // ---------- timeout of a waiting take ----------

  /** _thread_timeout: t leaves the queue and becomes ready, with its take not yet finished. */
  function Expire(s: State, t: ThreadId): State
    requires t < |s.threads| && s.threads[t].pending.Some? && s.threads[t].pending.value < |s.mutexes|
  {
    var m := s.threads[t].pending.value;
    State(
      s.threads[t := s.threads[t].(suspended := false)],
      s.mutexes[m := s.mutexes[m].(waiters := Without(s.mutexes[m].waiters, t))])
  }

  /** The cached priority of m is read again from its queue. */
  function Refresh(s: State, m: MutexId): State
    requires m < |s.mutexes| && Below(s.mutexes[m].waiters, |s.threads|)
  {
    s.(mutexes := s.mutexes[m := s.mutexes[m].(priority := HeadPriority(s.threads, s.mutexes[m].waiters))])
  }

  /** All queues are in order; only the priority cached in m may be stale. */
  ghost predicate CachedBut(s: State, m: MutexId) {
    && (forall k: MutexId :: k < |s.mutexes| ==> Sorted(s.threads, s.mutexes[k].waiters))
    && (forall k: MutexId :: k < |s.mutexes| && k != m ==> s.mutexes[k].priority == HeadPriority(s.threads, s.mutexes[k].waiters))
  }

  /** t's take on m was cut short and its cleanup is still to run. */
  ghost predicate Leaving(s: State, t: ThreadId, m: MutexId) {
    && t < |s.threads| && m < |s.mutexes|
    && s.threads[t].pending == Some(m) && !s.threads[t].suspended
    && Linked(s) && Inherited(s) && CachedBut(s, m)
  }

  /** The need_update test of the cleanup. */
  predicate NeedsUpdate(s: State, t: ThreadId, m: MutexId)
    requires t < |s.threads| && m < |s.mutexes|
  {
    && s.mutexes[m].owner.Some? && s.mutexes[m].owner.value < |s.threads|
    && s.threads[s.mutexes[m].owner.value].currentPriority == s.threads[t].currentPriority
  }

  lemma RefreshKeepsLinks(s: State, m: MutexId)
    requires Linked(s) && m < |s.mutexes|
    ensures Below(s.mutexes[m].waiters, |s.threads|) && Linked(Refresh(s, m))
    ensures forall u: ThreadId :: u < |s.threads| ==> Below(s.threads[u].taken, |s.mutexes|)
  {
    assert MutexLinked(s, m);
    var r := Refresh(s, m);
    forall u: ThreadId | u < |r.threads| ensures ThreadLinked(r, u) && Below(s.threads[u].taken, |s.mutexes|) { assert ThreadLinked(s, u); }
    forall k: MutexId | k < |r.mutexes| ensures MutexLinked(r, k) { assert MutexLinked(s, k); }
  }

  lemma RefreshLinked(s: State, t: ThreadId, m: MutexId)
    requires Leaving(s, t, m)
    ensures Below(s.mutexes[m].waiters, |s.threads|)
    ensures Linked(Refresh(s, m)) && Cached(Refresh(s, m))
    ensures forall u: ThreadId :: u < |s.threads| ==> Below(s.threads[u].taken, |s.mutexes|)
  {
    RefreshKeepsLinks(s, m);
  }

  /** The owner's priority after the cached priority has been refreshed. */
  function OwnerBest(s: State, m: MutexId): nat
    requires m < |s.mutexes| && Below(s.mutexes[m].waiters, |s.threads|)
    requires s.mutexes[m].owner.Some? && s.mutexes[m].owner.value < |s.threads|
    requires Below(s.threads[s.mutexes[m].owner.value].taken, |s.mutexes|)
  {
    Inherit(Refresh(s, m), s.mutexes[m].owner.value)
  }

  lemma RefreshChanged(s: State, t: ThreadId, m: MutexId)
    requires Leaving(s, t, m) && s.mutexes[m].owner.Some?
    ensures s.mutexes[m].owner.value < |s.threads|
    ensures Below(s.mutexes[m].waiters, |s.threads|) && Below(s.threads[s.mutexes[m].owner.value].taken, |s.mutexes|)
    ensures var r, o, p := Refresh(s, m), s.mutexes[m].owner.value, OwnerBest(s, m);
      if p == s.threads[o].currentPriority then Inv(r)
      else Changed(SetPriority(r, o, p), o, s.threads[o].currentPriority) && !Inherited(r)
  {
    RefreshLinked(s, t, m);
    assert MutexLinked(s, m);
    var r, o := Refresh(s, m), s.mutexes[m].owner.value;
    var p := OwnerBest(s, m);
    OwnerMoves(s, r, m, o);
    var n := SetPriority(r, o, p);
    forall u: ThreadId | u < |n.threads| ensures IsBest(n.threads[u].currentPriority, n.threads[u], n.mutexes) {
      if u != o { OthersInherited(s, r, m, u); }
    }
    SetPriorityLinked(r, o, p);
    SetPriorityBack(r, o, p);
    if p == s.threads[o].currentPriority {
      assert n.threads == r.threads;
    } else {
      BestUnique(p, r.threads[o].currentPriority, r.threads[o], r.mutexes);
    }
  }

  /** The second critical section of a take that was cut short, up to the clearing of pending_object. */
  ghost function CleanUp(s: State, t: ThreadId, m: MutexId): (r: State)
    requires Leaving(s, t, m)
  {
    RefreshLinked(s, t, m);
    var r := Refresh(s, m);
    if NeedsUpdate(s, t, m) then
      RefreshChanged(s, t, m);
      var o := s.mutexes[m].owner.value;
      var p := OwnerBest(s, m);
      if p == s.threads[o].currentPriority then r
      else Propagate(SetPriority(r, o, p), o, s.threads[o].currentPriority)
    else r
  }

  /**
   The owner o of m already runs at the right priority although m's cached priority is stale:
   no waiter left is more urgent, and the owner does not run on the stale priority alone.
   */
  predicate OwnerRight(s: State, m: MutexId, o: ThreadId)
    requires m < |s.mutexes| && o < |s.threads|
    requires Below(s.mutexes[m].waiters, |s.threads|) && Below(s.threads[o].taken, |s.mutexes|)
  {
    var p, head := s.threads[o].currentPriority, HeadPriority(s.threads, s.mutexes[m].waiters);
    && p <= head
    && (s.mutexes[m].priority != p || head == p || s.threads[o].initPriority == p || CachedElsewhere(s, m, o, p))
  }

  /** A mutex of o other than m caches the priority p. */
  predicate CachedElsewhere(s: State, m: MutexId, o: ThreadId, p: nat)
    requires o < |s.threads| && Below(s.threads[o].taken, |s.mutexes|)
  {
    var taken := s.threads[o].taken;
    exists i :: 0 <= i < |taken| && taken[i] != m && s.mutexes[taken[i]].priority == p
  }

  lemma OwnerRightIff(s: State, t: ThreadId, m: MutexId)
    requires Leaving(s, t, m) && s.mutexes[m].owner.Some?
    ensures s.mutexes[m].owner.value < |s.threads|
    ensures Below(s.mutexes[m].waiters, |s.threads|) && Below(s.threads[s.mutexes[m].owner.value].taken, |s.mutexes|)
    ensures OwnerBest(s, m) == s.threads[s.mutexes[m].owner.value].currentPriority <==> OwnerRight(s, m, s.mutexes[m].owner.value)
  {
    RefreshLinked(s, t, m);
    assert MutexLinked(s, m);
    var r, o := Refresh(s, m), s.mutexes[m].owner.value;
    var th := s.threads[o];
    BestPriorityBound(th.initPriority, th.taken, r.mutexes);
    assert IsBest(th.currentPriority, th, s.mutexes);
    var j :| 0 <= j < |th.taken| && th.taken[j] == m;
    assert r.mutexes[th.taken[j]].priority == HeadPriority(s.threads, s.mutexes[m].waiters);
    if OwnerRight(s, m, o) {
      OwnerRightBest(s, m, o, j);
      BestUnique(OwnerBest(s, m), th.currentPriority, th, r.mutexes);
    }
  }

  lemma OwnerRightBest(s: State, m: MutexId, o: ThreadId, j: nat)
    requires m < |s.mutexes| && o < |s.threads|
    requires Below(s.mutexes[m].waiters, |s.threads|) && Below(s.threads[o].taken, |s.mutexes|)
    requires j < |s.threads[o].taken| && s.threads[o].taken[j] == m
    requires IsBest(s.threads[o].currentPriority, s.threads[o], s.mutexes) && OwnerRight(s, m, o)
    ensures IsBest(s.threads[o].currentPriority, s.threads[o], Refresh(s, m).mutexes)
  {
    var r, th := Refresh(s, m), s.threads[o];
    var p := th.currentPriority;
    if p != th.initPriority {
      if HeadPriority(s.threads, s.mutexes[m].waiters) == p {
        assert r.mutexes[th.taken[j]].priority == p;
      } else if CachedElsewhere(s, m, o, p) {
        var i :| 0 <= i < |th.taken| && th.taken[i] != m && s.mutexes[th.taken[i]].priority == p;
        assert r.mutexes[th.taken[i]].priority == p;
      }
    }
  }

  /**
   The cleanup restores the inheritance equations exactly when it looks at the owner, or no
   waiter left is more urgent than the owner and the owner does not run on the stale cached
   priority alone.
   */
  lemma CleanUpExact(s: State, t: ThreadId, m: MutexId)
    requires Leaving(s, t, m)
    ensures s.mutexes[m].owner.Some? ==>
      && s.mutexes[m].owner.value < |s.threads|
      && Below(s.mutexes[m].waiters, |s.threads|) && Below(s.threads[s.mutexes[m].owner.value].taken, |s.mutexes|)
    ensures Inv(CleanUp(s, t, m)) <==>
      || s.mutexes[m].owner.None?
      || s.threads[s.mutexes[m].owner.value].currentPriority == s.threads[t].currentPriority
      || OwnerRight(s, m, s.mutexes[m].owner.value)
  {
    RefreshLinked(s, t, m);
    assert MutexLinked(s, m);
    if s.mutexes[m].owner.Some? {
      RefreshChanged(s, t, m);
      OwnerRightIff(s, t, m);
    } else {
      var r := Refresh(s, m);
      forall u: ThreadId | u < |r.threads| ensures IsBest(r.threads[u].currentPriority, r.threads[u], r.mutexes) {
        OthersInherited(s, r, m, u);
      }
    }
  }

  lemma ExpireLinked(s: State, t: ThreadId, m: MutexId)
    requires Linked(s) && t < |s.threads| && m < |s.mutexes| && WaitsFor(s.threads[t], m)
    ensures Linked(Expire(s, t))
  {
    var r := Expire(s, t);
    assert MutexLinked(s, m) && ThreadLinked(s, t);
    WithoutFacts(s.mutexes[m].waiters, t);
    WithoutBelow(s.mutexes[m].waiters, t, |s.threads|);
    forall u: ThreadId | u < |r.threads| ensures ThreadLinked(r, u) { assert ThreadLinked(s, u); }
    forall k: MutexId | k < |r.mutexes| ensures MutexLinked(r, k) {
      assert MutexLinked(s, k);
      forall i | 0 <= i < |r.mutexes[k].waiters| ensures WaitsFor(r.threads[r.mutexes[k].waiters[i]], k) {
        assert r.mutexes[k].waiters[i] in r.mutexes[k].waiters;
        assert r.mutexes[k].waiters[i] in s.mutexes[k].waiters;
      }
    }
  }

  lemma ExpireLeaving(s: State, t: ThreadId, m: MutexId)
    requires Inv(s) && t < |s.threads| && m < |s.mutexes| && WaitsFor(s.threads[t], m)
    ensures Leaving(Expire(s, t), t, m)
  {
    ExpireLinked(s, t, m);
    var r := Expire(s, t);
    assert MutexLinked(s, m);
    forall k: MutexId | k < |s.mutexes|
      ensures Sorted(r.threads, r.mutexes[k].waiters)
      ensures k != m ==> r.mutexes[k].priority == HeadPriority(r.threads, r.mutexes[k].waiters)
    {
      if k == m { WithoutSorted(s.threads, s.mutexes[m].waiters, t); }
      SortedAgree(s.threads, r.threads, r.mutexes[k].waiters);
    }
    forall u: ThreadId | u < |r.threads| ensures IsBest(r.threads[u].currentPriority, r.threads[u], r.mutexes) {
      BestAgree(s.threads[u].currentPriority, s.threads[u], r.threads[u], s.mutexes, r.mutexes);
    }
  }

  /** Nothing happens between expiry and cleanup: the need_update test is then sound. */
  lemma ExpireThenCleanUp(s: State, t: ThreadId, m: MutexId)
    requires Inv(s) && t < |s.threads| && m < |s.mutexes| && WaitsFor(s.threads[t], m)
    ensures Leaving(Expire(s, t), t, m)
    ensures Inv(CleanUp(Expire(s, t), t, m))
  {
    ExpireLeaving(s, t, m);
    var e := Expire(s, t);
    CleanUpExact(e, t, m);
    assert MutexLinked(s, m) && ThreadLinked(s, t);
    if e.mutexes[m].owner.Some? {
      var o := e.mutexes[m].owner.value;
      assert MutexLinked(e, m) && ThreadLinked(s, o);
      var po, pt := s.threads[o].currentPriority, s.threads[t].currentPriority;
      HeadIsMin(s.threads, s.mutexes[m].waiters, t);
      var j :| 0 <= j < |s.threads[o].taken| && s.threads[o].taken[j] == m;
      assert IsBest(po, s.threads[o], s.mutexes);
      OwnerRightIff(e, t, m);
      if po != pt {
        OwnerUnmoved(s, t, m, o);
      }
    }
  }

  /** Taking t out leaves the head alone, or uncovers one no more urgent than t. */
  lemma HeadAfterExpire(s: State, t: ThreadId, m: MutexId)
    requires Inv(s) && t < |s.threads| && m < |s.mutexes| && WaitsFor(s.threads[t], m)
    requires Below(Without(s.mutexes[m].waiters, t), |s.threads|)
    requires s.threads[t].currentPriority < NO_PRIORITY
    ensures var p := HeadPriority(s.threads, Without(s.mutexes[m].waiters, t));
      p == s.mutexes[m].priority || (s.mutexes[m].priority == s.threads[t].currentPriority <= p)
  {
    assert MutexLinked(s, m) && ThreadLinked(s, t);
    var ws := s.mutexes[m].waiters;
    WithoutFacts(ws, t);
    if ws[0] == t && ws[1..] != [] {
      assert ws[1] in ws;
      HeadIsMin(s.threads, ws, ws[1]);
    }
  }

  /** An owner more urgent than the leaving waiter does not depend on it. */
  lemma OwnerUnmoved(s: State, t: ThreadId, m: MutexId, o: ThreadId)
    requires Inv(s) && t < |s.threads| && m < |s.mutexes| && WaitsFor(s.threads[t], m)
    requires s.mutexes[m].owner == Some(o) && o < |s.threads|
    requires s.threads[o].currentPriority < s.threads[t].currentPriority
    requires Below(Expire(s, t).mutexes[m].waiters, |s.threads|) && Below(s.threads[o].taken, |s.mutexes|)
    ensures OwnerBest(Expire(s, t), m) == s.threads[o].currentPriority
  {
    assert ThreadLinked(s, t) && IsBest(s.threads[t].currentPriority, s.threads[t], s.mutexes);
    HeadAfterExpire(s, t, m);
    var r := Refresh(Expire(s, t), m);
    var th := s.threads[o];
    assert r.mutexes[m].priority == HeadPriority(s.threads, Without(s.mutexes[m].waiters, t));
    BestPriorityBound(th.initPriority, th.taken, r.mutexes);
    assert IsBest(th.currentPriority, th, s.mutexes);
    if th.currentPriority != th.initPriority {
      var i :| 0 <= i < |th.taken| && th.currentPriority == s.mutexes[th.taken[i]].priority;
      assert r.mutexes[th.taken[i]].priority == th.currentPriority;
    }
  }
}
