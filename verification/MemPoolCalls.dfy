/** What calls on a memory pool come to: every block can be had once, and the last sleeper is woken first. */
module MemPoolCalls {
  import RtList
  import opened SinglyLinked
  import opened WaitQueue
  import opened MemPool

  type Node = RtList.Node

  /** With a free block an allocation hands out exactly one, which nobody had; without one it hands out none. */
  lemma AllocGives(p: Pool, t: Tid, waits: bool)
    requires Inv(p) && Enabled(p, Alloc(t, waits))
    ensures var r := Step(p, Alloc(t, waits));
      if p.freeCount > 0 then
        && p.free != [] && p.free[0] !in p.live && r.live == p.live + {p.free[0]} && r.freeCount == p.freeCount - 1
      else r.live == p.live && r.freeCount == 0 && (waits ==> t in r.waiters.suspended)
  {
    if p.freeCount > 0 { RtList.InElems(p.free, p.free[0]); }
    if p.freeCount == 0 && waits { assert Step(p, Alloc(t, waits)).waiters.suspended[0] == t; }
  }

  /** A block given back is free again and is the next one handed out. */
  lemma FreedIsNext(p: Pool, b: Node, t: Tid, waits: bool)
    requires Inv(p) && b in p.live && t !in p.waiters.suspended
    ensures Inv(Step(p, Free(b))) && Enabled(Step(p, Free(b)), Alloc(t, waits))
    ensures Step(p, Free(b)).live == p.live - {b} && Step(Step(p, Free(b)), Alloc(t, waits)).live == p.live
  {
    FreeInv(p, b);
    assert p.live - {b} + {b} == p.live;
  }

  /** k allocations that do not wait. */
  ghost function Allocs(p: Pool, t: Tid, k: nat): (r: Pool)
    requires Inv(p) && t !in p.waiters.suspended
    ensures Inv(r) && t !in r.waiters.suspended
  {
    if k == 0 then p
    else
      var q := Allocs(p, t, k - 1);
      AllocInv(q, t, false);
      Step(q, Alloc(t, false))
  }

  /** A fresh pool gives out every block exactly once, however often it is asked. */
  lemma {:induction false} GivesAll(total: nat, t: Tid, k: nat)
    ensures Inv(Fresh(total))
    ensures var r := Allocs(Fresh(total), t, k);
      r.freeCount == (if k < total then total - k else 0) && |r.live| == (if k < total then k else total)
  {
    FreshInv(total);
    if k > 0 {
      GivesAll(total, t, k - 1);
      AllocGives(Allocs(Fresh(total), t, k - 1), t, false);
    }
  }

  /** Two threads sleep; the block given back next wakes the second one. */
  lemma LastSleeperFirst(p: Pool, t: Tid, u: Tid, b: Node)
    requires Inv(p) && p.freeCount == 0 && b in p.live
    requires t !in p.waiters.suspended && u !in p.waiters.suspended && t != u
    ensures Inv(Step(p, Alloc(t, true))) && Enabled(Step(p, Alloc(t, true)), Alloc(u, true))
    ensures var q := Step(Step(p, Alloc(t, true)), Alloc(u, true));
      && Inv(q) && Enabled(q, Free(b))
      && u in Step(q, Free(b)).waiters.woken && u !in Step(q, Free(b)).waiters.suspended
      && t in Step(q, Free(b)).waiters.suspended
  {
    AllocInv(p, t, true);
    var a := Step(p, Alloc(t, true));
    assert a.waiters.suspended == [t] + p.waiters.suspended;
    AllocInv(a, u, true);
    var q := Step(a, Alloc(u, true));
    assert q.waiters.suspended == [u] + ([t] + p.waiters.suspended);
    var r := Step(q, Free(b)).waiters;
    assert r.suspended == [t] + p.waiters.suspended;
  }

  /** A time-out takes its thread off the list and nothing else away. */
  lemma TimeoutLeaves(p: Pool, i: nat)
    requires Inv(p) && Enabled(p, Event.Expire(i))
    ensures var r := Step(p, Event.Expire(i));
      i < |p.waiters.suspended| && Leaves(p.waiters, r.waiters, p.waiters.suspended[i]) && r == p.(waiters := r.waiters)
  {
    ExpireLeaves(p.waiters, i);
  }
}
