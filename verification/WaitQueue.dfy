/**
 Threads blocked on a countable resource (messages, free nodes, free blocks) of an IPC object.
 A thread resumed by the object is woken until it has run and looked at the resource again.
 */
module WaitQueue {
  import opened Wrappers
  import opened RtList

  type Tid = int

  datatype Waiters = Waiters(suspended: seq<Tid>, woken: set<Tid>)

  const NoWaiters := Waiters([], {})

  ghost predicate Wf(w: Waiters) {
    NoDuplicates(w.suspended) && forall i :: 0 <= i < |w.suspended| ==> w.suspended[i] !in w.woken
  }

  /** While anyone sleeps, every available unit is covered by a woken thread that has yet to look. */
  ghost predicate NoLostWakeup(w: Waiters, avail: nat) {
    w.suspended != [] ==> avail <= |w.woken|
  }

  ghost predicate Covered(w: Waiters, avail: nat) {
    Wf(w) && NoLostWakeup(w, avail)
  }

  /** t looks at the resource, for the first time or after having been woken. */
  function Look(w: Waiters, t: Tid): Waiters {
    w.(woken := w.woken - {t})
  }

  /** _ipc_list_suspend: t joins the list at position i (the end for FIFO, by priority for PRIO). */
  ghost function Suspend(w: Waiters, t: Tid, i: nat): Waiters
    requires i <= |w.suspended|
  {
    w.(suspended := Inserted(w.suspended, i, t))
  }

  /** The place _ipc_list_suspend gives to t: last, or before the first less urgent thread. */
  ghost predicate Place(s: seq<Tid>, t: Tid, fifo: bool, priority: Tid -> nat, i: nat) {
    && i <= |s|
    && (fifo ==> i == |s|)
    && (fifo || forall k :: 0 <= k < i ==> priority(s[k]) <= priority(t))
    && (fifo || i == |s| || priority(t) < priority(s[i]))
  }

  /** _ipc_list_suspend */
  method ListSuspend(w: Waiters, t: Tid, fifo: bool, priority: Tid -> nat) returns (r: Waiters, ghost i: nat)
    ensures Place(w.suspended, t, fifo, priority, i) && r == Suspend(w, t, i)
  {
    var n := if fifo then |w.suspended| else 0;
    while n < |w.suspended| && priority(t) >= priority(w.suspended[n])
      invariant 0 <= n <= |w.suspended| && (fifo ==> n == |w.suspended|)
      invariant !fifo ==> forall k :: 0 <= k < n ==> priority(w.suspended[k]) <= priority(t)
    {
      n := n + 1;
    }
    i := n;
    r := w.(suspended := w.suspended[..n] + [t] + w.suspended[n..]);
    assert r.suspended == Inserted(w.suspended, i, t);
  }

  /** _ipc_list_resume on a non-empty list */
  function WakeFirst(w: Waiters): Waiters {
    if w.suspended == [] then w
    else Waiters(w.suspended[1..], w.woken + {w.suspended[0]})
  }

  /** k wake-ups in a row. */
  function WakeTimes(w: Waiters, k: nat): Waiters {
    if k == 0 then w else WakeFirst(WakeTimes(w, k - 1))
  }

  /** Wake-ups go by the order of the list: the first k sleepers are woken, the others sleep on in their order. */
  lemma {:induction false} WakesInOrder(w: Waiters, k: nat)
    requires k <= |w.suspended|
    ensures WakeTimes(w, k).suspended == w.suspended[k..]
    ensures forall t :: t in WakeTimes(w, k).woken <==> t in w.woken || t in w.suspended[..k]
  {
    if k > 0 {
      WakesInOrder(w, k - 1);
      assert w.suspended[..k] == w.suspended[..k - 1] + [w.suspended[k - 1]];
    }
  }

  /** The timer of the i-th sleeper expires: it leaves with an error, without looking. */
  ghost function Expire(w: Waiters, i: nat): Waiters
    requires i < |w.suspended|
  {
    w.(suspended := Removed(w.suspended, i))
  }

  /** t sleeps among the others, and nobody else's place has changed. */
  ghost predicate Joins(w: Waiters, r: Waiters, t: Tid) {
    t in r.suspended && |r.suspended| == |w.suspended| + 1 && forall x :: x != t ==> (x in r.suspended <==> x in w.suspended)
  }

  lemma JoinsAt(w: Waiters, t: Tid, i: nat)
    requires i <= |w.suspended|
    ensures Joins(w, Suspend(Look(w, t), t, i), t)
  {
    var r := Suspend(Look(w, t), t, i);
    assert r.suspended[i] == t;
    forall x | x != t && x in w.suspended ensures x in r.suspended {
      var k :| 0 <= k < |w.suspended| && w.suspended[k] == x;
      assert r.suspended[if k < i then k else k + 1] == x;
    }
    forall x | x != t && x in r.suspended ensures x in w.suspended {
      var k :| 0 <= k < |r.suspended| && r.suspended[k] == x;
      assert w.suspended[if k < i then k else k - 1] == x;
    }
  }

  /** t no longer sleeps, and nobody else's place has changed. */
  ghost predicate Leaves(w: Waiters, r: Waiters, t: Tid) {
    r.woken == w.woken && |r.suspended| == |w.suspended| - 1 && forall x :: x in r.suspended <==> x in w.suspended && x != t
  }

  lemma ExpireLeaves(w: Waiters, i: nat)
    requires Wf(w) && i < |w.suspended|
    ensures Leaves(w, Expire(w, i), w.suspended[i])
  {
    var r, t := Expire(w, i).suspended, w.suspended[i];
    forall x | x in w.suspended && x != t ensures x in r {
      var k :| 0 <= k < |w.suspended| && w.suspended[k] == x;
      assert r[if k < i then k else k - 1] == x;
    }
    forall x | x in r ensures x in w.suspended && x != t {
      var k :| 0 <= k < |r| && r[k] == x;
      assert w.suspended[if k < i then k else k + 1] == x;
    }
  }

  /** _ipc_list_resume_all: everybody leaves with an error. */
  function ResumeAll(w: Waiters): Waiters {
    w.(suspended := [])
  }

  /** _ipc_list_resume_all */
  method ResumeEveryone(w: Waiters) returns (r: Waiters)
    ensures r == ResumeAll(w)
  {
    r := w;
    while r.suspended != []
      invariant r.woken == w.woken
      decreases |r.suspended|
    {
      r := r.(suspended := r.suspended[1..]);
    }
  }

  lemma LookWf(w: Waiters, t: Tid)
    requires Wf(w)
    ensures Wf(Look(w, t)) && |w.woken| - 1 <= |Look(w, t).woken|
  {
    if t in w.woken {
      assert w.woken == Look(w, t).woken + {t};
    } else {
      assert Look(w, t).woken == w.woken;
    }
  }

  /** Looking and taking one unit. */
  lemma TakeCovered(w: Waiters, t: Tid, avail: nat)
    requires Covered(w, avail) && avail > 0
    ensures Covered(Look(w, t), avail - 1)
  {
    LookWf(w, t);
  }

  /** Looking in vain and giving up. */
  lemma LeaveCovered(w: Waiters, t: Tid)
    requires Covered(w, 0)
    ensures Covered(Look(w, t), 0)
  {
    LookWf(w, t);
  }

  /** Looking in vain and going to sleep. */
  lemma SuspendCovered(w: Waiters, t: Tid, i: nat)
    requires Covered(w, 0) && t !in w.suspended && i <= |w.suspended|
    ensures Covered(Suspend(Look(w, t), t, i), 0)
  {
    LookWf(w, t);
    var r := Suspend(Look(w, t), t, i);
    forall k | 0 <= k < |r.suspended| ensures r.suspended[k] !in r.woken {
      if k < i { assert r.suspended[k] == w.suspended[k]; } else if k > i { assert r.suspended[k] == w.suspended[k - 1]; }
    }
    forall j, k | 0 <= j < k < |r.suspended| ensures r.suspended[j] != r.suspended[k] {
      var x, y := if j < i then j else j - 1, if k < i then k else k - 1;
      if j != i && k != i {
        assert r.suspended[j] == w.suspended[x] && r.suspended[k] == w.suspended[y];
      } else if j == i {
        assert r.suspended[k] == w.suspended[y];
      } else {
        assert r.suspended[j] == w.suspended[x];
      }
    }
  }

  /** One more unit and one wake-up. */
  lemma WakeCovered(w: Waiters, avail: nat)
    requires Covered(w, avail)
    ensures Covered(WakeFirst(w), avail + 1)
  {
    if w.suspended != [] {
      assert w.suspended[0] !in w.woken;
      assert |w.woken + {w.suspended[0]}| == |w.woken| + 1;
      var r := WakeFirst(w);
      forall k | 0 <= k < |r.suspended| ensures r.suspended[k] !in r.woken {
        assert r.suspended[k] == w.suspended[k + 1];
      }
    }
  }

  lemma ExpireCovered(w: Waiters, i: nat, avail: nat)
    requires Covered(w, avail) && i < |w.suspended|
    ensures Covered(Expire(w, i), avail)
  {
    var r := Expire(w, i);
    forall j, k | 0 <= j < k < |r.suspended| ensures r.suspended[j] != r.suspended[k] {
      assert r.suspended[j] == w.suspended[if j < i then j else j + 1];
      assert r.suspended[k] == w.suspended[if k < i then k else k + 1];
    }
    forall k | 0 <= k < |r.suspended| ensures r.suspended[k] !in r.woken {
      assert r.suspended[k] == w.suspended[if k < i then k else k + 1];
    }
  }

  /** Units taken by callers that never wait. */
  lemma FewerCovered(w: Waiters, avail: nat, less: nat)
    requires Covered(w, avail) && less <= avail
    ensures Covered(w, less)
  {
  }
}
