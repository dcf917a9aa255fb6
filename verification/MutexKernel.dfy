/** The mutex code of ipc.c as it runs: critical sections that update the tables in place. */
module MutexKernel {
  import opened Wrappers
  import opened PriorityInheritance
  import opened MutexOperations
  import opened MutexRuns

  /** Pending means the call has not returned: its thread sleeps inside rt_schedule. */
  datatype Status = EOk | EFull | ETimeout | EError | Pending

  /** The new thread goes behind the n-th waiter. */
  lemma InsertSkip(ths: seq<Thread>, ws: seq<ThreadId>, t: ThreadId, n: nat)
    requires t < |ths| && Below(ws, |ths|) && n < |ws| && ths[t].currentPriority >= ths[ws[n]].currentPriority
    ensures ws[..n] + InsertByPriority(ths, ws[n..], t) == ws[..n + 1] + InsertByPriority(ths, ws[n + 1..], t)
  {
    assert ws[n..][1..] == ws[n + 1..] && ws[n..][0] == ws[n];
    assert ws[..n + 1] == ws[..n] + [ws[n]];
  }

  /** The new thread goes before the n-th waiter. */
  lemma InsertHere(ths: seq<Thread>, ws: seq<ThreadId>, t: ThreadId, n: nat)
    requires t < |ths| && Below(ws, |ths|) && n <= |ws|
    requires n == |ws| || ths[t].currentPriority < ths[ws[n]].currentPriority
    ensures ws[..n] + InsertByPriority(ths, ws[n..], t) == ws[..n] + [t] + ws[n..]
  {
    assert InsertByPriority(ths, ws[n..], t) == [t] + ws[n..];
  }

  class Kernel {
    var threads: seq<Thread>
    var mutexes: seq<Mutex>

    ghost function Snapshot(): State
      reads this
    {
      State(threads, mutexes)
    }

    constructor (priorities: seq<nat>, mutexCount: nat)
      requires forall i :: 0 <= i < |priorities| ==> priorities[i] < NO_PRIORITY
      ensures Initial(Snapshot()) && Inv(Snapshot())
      ensures |threads| == |priorities| && |mutexes| == mutexCount
    {
      threads := seq(|priorities|, i requires 0 <= i < |priorities| => Thread(priorities[i], priorities[i], [], None, false));
      mutexes := seq(mutexCount, _ => Mutex(None, NO_PRIORITY, 0, []));
      new;
      InitialInv(Snapshot());
    }

    /** _ipc_list_suspend with RT_IPC_FLAG_PRIO: the node of t goes before the first less urgent waiter. */
    method ListInsert(m: MutexId, t: ThreadId)
      requires t < |threads| && m < |mutexes| && Below(mutexes[m].waiters, |threads|)
      modifies this`mutexes
      ensures mutexes == old(mutexes)[m := old(mutexes)[m].(waiters := InsertByPriority(threads, old(mutexes)[m].waiters, t))]
    {
      var ws := mutexes[m].waiters;
      var n := 0;
      while n < |ws| && threads[t].currentPriority >= threads[ws[n]].currentPriority
        invariant 0 <= n <= |ws| && mutexes == old(mutexes)
        invariant InsertByPriority(threads, ws, t) == ws[..n] + InsertByPriority(threads, ws[n..], t)
      {
        InsertSkip(threads, ws, t, n);
        n := n + 1;
      }
      InsertHere(threads, ws, t, n);
      mutexes := mutexes[m := mutexes[m].(waiters := ws[..n] + [t] + ws[n..])];
    }

    /** _mutex_update_priority */
    method MutexUpdatePriority(m: MutexId)
      requires m < |mutexes| && Below(mutexes[m].waiters, |threads|)
      modifies this`mutexes
      ensures mutexes == old(mutexes)[m := old(mutexes)[m].(priority := HeadPriority(threads, old(mutexes)[m].waiters))]
    {
      if mutexes[m].waiters != [] {
        mutexes := mutexes[m := mutexes[m].(priority := threads[mutexes[m].waiters[0]].currentPriority)];
      } else {
        mutexes := mutexes[m := mutexes[m].(priority := NO_PRIORITY)];
      }
    }

    /** _thread_get_mutex_priority */
    method GetMutexPriority(t: ThreadId) returns (priority: nat)
      requires t < |threads| && Below(threads[t].taken, |mutexes|)
      ensures priority == Inherit(Snapshot(), t)
      ensures IsBest(priority, threads[t], mutexes)
    {
      priority := threads[t].initPriority;
      var taken := threads[t].taken;
      var n := 0;
      while n < |taken|
        invariant 0 <= n <= |taken|
        invariant BestPriority(threads[t].initPriority, taken, mutexes) == BestPriority(priority, taken[n..], mutexes)
      {
        assert taken[n..][1..] == taken[n + 1..];
        var mutexPrio := mutexes[taken[n]].priority;
        if priority > mutexPrio { priority := mutexPrio; }
        n := n + 1;
      }
      BestPriorityBound(threads[t].initPriority, taken, mutexes);
    }

    /** rt_thread_control with RT_THREAD_CTRL_CHANGE_PRIORITY */
    method ChangePriority(t: ThreadId, priority: nat)
      requires t < |threads|
      modifies this`threads
      ensures Snapshot() == SetPriority(old(Snapshot()), t, priority)
    {
      threads := threads[t := threads[t].(currentPriority := priority)];
    }

    /** _thread_update_priority */
    method UpdatePriority(t: ThreadId, priority: nat)
      requires t < |threads| && Changed(SetPriority(Snapshot(), t, priority), t, threads[t].currentPriority)
      modifies this
      ensures Snapshot() == Propagate(SetPriority(old(Snapshot()), t, priority), t, old(threads)[t].currentPriority)
      ensures Inv(Snapshot())
    {
      ghost var target := Propagate(SetPriority(Snapshot(), t, priority), t, threads[t].currentPriority);
      ghost var before: nat := threads[t].currentPriority;
      var thread: ThreadId := t;
      ChangePriority(thread, priority);
      var more := true;
      while more && threads[thread].suspended && threads[thread].pending.Some?
        invariant thread < |threads|
        invariant if more then Changed(Snapshot(), thread, before) && Propagate(Snapshot(), thread, before) == target
                  else Snapshot() == target
        decreases more,
          if !more then 0 else if threads[thread].currentPriority < before then SumCurrent(threads) else SumInit(threads) - SumCurrent(threads)
      {
        thread, more, before := PropagateOnce(thread, before);
      }
    }

    /** The body of the loop in _thread_update_priority. */
    method PropagateOnce(t: ThreadId, ghost before: nat) returns (o: ThreadId, more: bool, ghost before': nat)
      requires Changed(Snapshot(), t, before) && Waiting(threads[t])
      modifies this
      ensures o < |threads|
      ensures !more ==> Snapshot() == Propagate(old(Snapshot()), t, before)
      ensures more ==>
        && Changed(Snapshot(), o, before')
        && Propagate(Snapshot(), o, before') == Propagate(old(Snapshot()), t, before)
        && (old(threads)[t].currentPriority < before <==> threads[o].currentPriority < before')
        && (if old(threads)[t].currentPriority < before then SumCurrent(threads) < SumCurrent(old(threads))
            else SumInit(threads) == SumInit(old(threads)) && SumCurrent(old(threads)) < SumCurrent(threads) <= SumInit(threads))
    {
      ghost var s := Snapshot();
      PropagateRound(s, t, before);
      assert ThreadLinked(s, t);
      var m := threads[t].pending.value;
      mutexes := mutexes[m := mutexes[m].(waiters := Without(mutexes[m].waiters, t))];
      ListInsert(m, t);
      InsertBelow(threads, Without(s.mutexes[m].waiters, t), t);
      MutexUpdatePriority(m);
      assert mutexes == Round(s, t).mutexes;
      o := mutexes[m].owner.value;
      var mutexPriority := GetMutexPriority(o);
      before' := threads[o].currentPriority;
      more := mutexPriority != threads[o].currentPriority;
      if more {
        MeasureStep(s, Round(s, t), o, mutexPriority);
        ChangePriority(o, mutexPriority);
      }
    }

    /** rt_mutex_take, up to the first rt_schedule */
    method Take(t: ThreadId, m: MutexId, timeout: int) returns (status: Status)
      requires Inv(Snapshot()) && Running(Snapshot(), t) && m < |mutexes|
      modifies this
      ensures Snapshot() == TakeStep(old(Snapshot()), t, m, timeout != 0)
      ensures status == (
        var mx := old(mutexes)[m];
        if mx.owner == Some(t) then if mx.hold < HOLD_MAX then EOk else EFull
        else if mx.owner.None? then EOk
        else if timeout == 0 then ETimeout else Pending)
    {
      ghost var s := Snapshot();
      if mutexes[m].owner == Some(t) {
        if mutexes[m].hold < HOLD_MAX {
          mutexes := mutexes[m := mutexes[m].(hold := mutexes[m].hold + 1)];
          status := EOk;
        } else {
          status := EFull;
        }
      } else if mutexes[m].owner.None? {
        mutexes := mutexes[m := mutexes[m].(owner := Some(t), priority := NO_PRIORITY, hold := 1)];
        threads := threads[t := threads[t].(taken := [m] + threads[t].taken)];
        assert Snapshot() == TakeFree(s, t, m);
        status := EOk;
      } else if timeout == 0 {
        status := ETimeout;
      } else {
        TakeWait(t, m);
        status := Pending;
      }
    }

    method TakeWait(t: ThreadId, m: MutexId)
      requires Blocks(Snapshot(), t, m)
      modifies this
      ensures Snapshot() == TakeBlocked(old(Snapshot()), t, m)
    {
      ghost var s := Snapshot();
      EnqueueLinked(s, t, m);
      assert MutexLinked(s, m);
      var priority := threads[t].currentPriority;
      ListInsert(m, t);
      threads := threads[t := threads[t].(suspended := true)];
      threads := threads[t := threads[t].(pending := Some(m))];
      var o := mutexes[m].owner.value;
      if priority < mutexes[m].priority {
        mutexes := mutexes[m := mutexes[m].(priority := priority)];
        assert Snapshot() == Enqueue(s, t, m);
        if mutexes[m].priority < threads[o].currentPriority {
          TakeBlockedChanged(s, t, m);
          UpdatePriority(o, priority);
        }
      } else {
        assert mutexes == Enqueue(s, t, m).mutexes;
        assert threads == Enqueue(s, t, m).threads;
        OwnerAtMost(s, m);
      }
    }

    /** rt_mutex_release */
    method Release(t: ThreadId, m: MutexId) returns (status: Status)
      requires Inv(Snapshot()) && Running(Snapshot(), t) && m < |mutexes|
      modifies this
      ensures Snapshot() == ReleaseStep(old(Snapshot()), t, m)
      ensures status == if old(mutexes)[m].owner == Some(t) then EOk else EError
    {
      ghost var s := Snapshot();
      assert MutexLinked(s, m);
      if mutexes[m].owner != Some(t) { return EError; }
      if mutexes[m].hold > 1 {
        mutexes := mutexes[m := mutexes[m].(hold := mutexes[m].hold - 1)];
      } else {
        ReleaseLast(t, m);
      }
      status := EOk;
    }

    /** rt_mutex_release once hold has reached zero */
    method ReleaseLast(t: ThreadId, m: MutexId)
      requires Releases(Snapshot(), t, m)
      modifies this
      ensures Snapshot() == ReleaseStep(old(Snapshot()), t, m)
    {
      ghost var s := Snapshot();
      assert MutexLinked(s, m) && ThreadLinked(s, t);
      DisownBest(s, t, m);
      threads := threads[t := threads[t].(taken := Without(threads[t].taken, m))];
      if threads[t].currentPriority == mutexes[m].priority {
        assert Below(threads[t].taken, |mutexes|) by { WithoutBelow(s.threads[t].taken, m, |mutexes|); }
        var priority := GetMutexPriority(t);
        ChangePriority(t, priority);
      }
      assert threads == s.threads[t := Disown(s, t, m)];
      WakeFirst(t, m, s);
    }

    /** The hand-over in rt_mutex_release */
    method WakeFirst(t: ThreadId, m: MutexId, ghost s: State)
      requires Releases(s, t, m) && mutexes == s.mutexes && Below(s.threads[t].taken, |s.mutexes|)
      requires threads == s.threads[t := Disown(s, t, m)]
      modifies this
      ensures Snapshot() == ReleaseStep(s, t, m)
    {
      assert MutexLinked(s, m);
      if mutexes[m].waiters != [] {
        var n := mutexes[m].waiters[0];
        mutexes := mutexes[m := mutexes[m].(waiters := mutexes[m].waiters[1..], owner := Some(n), hold := 1)];
        threads := threads[n := threads[n].(taken := [m] + threads[n].taken)];
        threads := threads[n := threads[n].(pending := None, suspended := false)];
        MutexUpdatePriority(m);
        assert threads == HandOver(s, t, m).threads;
        assert HeadPriority(threads, s.mutexes[m].waiters[1..]) == HandOver(s, t, m).mutexes[m].priority by {
          if s.mutexes[m].waiters[1..] != [] {
            assert s.mutexes[m].waiters[1..][0] == s.mutexes[m].waiters[1];
          }
        }
        assert mutexes == HandOver(s, t, m).mutexes;
      } else {
        mutexes := mutexes[m := mutexes[m].(owner := None, hold := 0)];
        mutexes := mutexes[m := mutexes[m].(priority := NO_PRIORITY)];
        assert Snapshot() == ReleaseFree(s, t, m);
      }
    }

    /** _thread_timeout followed by the rest of the take that was waiting */
    method TakeTimeout(t: ThreadId) returns (status: Status)
      requires Inv(Snapshot()) && t < |threads| && Waiting(threads[t])
      modifies this
      ensures Snapshot() == TimeoutStep(old(Snapshot()), t)
      ensures status == ETimeout
    {
      ghost var s := Snapshot();
      assert ThreadLinked(s, t);
      var m := threads[t].pending.value;
      mutexes := mutexes[m := mutexes[m].(waiters := Without(mutexes[m].waiters, t))];
      threads := threads[t := threads[t].(suspended := false)];
      ghost var e := Expire(s, t);
      assert Snapshot() == e;
      ExpireThenCleanUp(s, t, m);
      RefreshLinked(e, t, m);
      assert MutexLinked(e, m);
      var needUpdate := mutexes[m].owner.Some? && threads[mutexes[m].owner.value].currentPriority == threads[t].currentPriority;
      MutexUpdatePriority(m);
      assert Snapshot() == Refresh(e, m);
      if needUpdate {
        RefreshChanged(e, t, m);
        var o := mutexes[m].owner.value;
        var priority := GetMutexPriority(o);
        if priority != threads[o].currentPriority {
          UpdatePriority(o, priority);
        }
      }
      assert Snapshot() == CleanUp(e, t, m);
      CleanUpThread(e, t, m);
      threads := threads[t := threads[t].(pending := None)];
      status := ETimeout;
    }
  }

  lemma OwnerAtMost(s: State, m: MutexId)
    requires Inv(s) && m < |s.mutexes| && s.mutexes[m].owner.Some?
    ensures s.mutexes[m].owner.value < |s.threads|
    ensures s.threads[s.mutexes[m].owner.value].currentPriority <= s.mutexes[m].priority
  {
    assert MutexLinked(s, m);
    var th := s.threads[s.mutexes[m].owner.value];
    assert IsBest(th.currentPriority, th, s.mutexes);
    var j :| 0 <= j < |th.taken| && th.taken[j] == m;
  }
}
