/** The variables of scheduler_mp.c and cpu.c and the functions that update them. */
module SmpKernel {
  import opened Wrappers
  import opened Bits
  import opened ReadyTable
  import opened Smp = SmpScheduler
  import opened SmpRuns

  class Kernel {
    const cpus: nat
    var threads: seq<Smp.Thread>
    var current: seq<Option<Tid>>
    var tables: seq<Table>
    var holder: Option<nat>
    var irqNest: seq<nat>
    var irqSwitch: seq<bool>

    ghost function Snapshot(): Smp.State
      reads this
    {
      Smp.State(cpus, threads, current, tables, holder, irqNest, irqSwitch)
    }

    /** rt_system_scheduler_init, with n CPUs and threads that are still to be started up */
    constructor (n: nat, ths: seq<Smp.Thread>)
      requires forall t :: 0 <= t < |ths| ==> FreshThread(n, ths[t]) && ths[t].stat == Suspended
      ensures Initial(Snapshot()) && cpus == n && threads == ths
    {
      cpus := n;
      threads := ths;
      holder := None;
      irqNest := seq(n, _ => 0);
      irqSwitch := seq(n, _ => false);
      current := seq(n, _ => None);
      tables := [];
      new;
      var cpu := 0;
      while cpu < n + 1
        invariant 0 <= cpu <= n + 1 && |tables| == cpu
        invariant forall k :: 0 <= k < cpu ==> Ok(tables[k])
        invariant forall k: nat, p: nat, t: Tid :: k < cpu ==> !Has(tables[k], p, t)
        invariant threads == ths && holder == None && |irqNest| == n && |irqSwitch| == n && |current| == n
        invariant forall c :: 0 <= c < n ==> current[c] == None
      {
        var lists := EmptyLists();
        tables := tables + [Table(0, lists)];
        cpu := cpu + 1;
      }
    }

    /** The ready list headers, all empty. */
    method EmptyLists() returns (lists: seq<seq<Tid>>)
      ensures Ok(Table(0, lists)) && forall p: nat, t: Tid :: !Has(Table(0, lists), p, t)
    {
      lists := [];
      var offset := 0;
      while offset < PRIORITIES
        invariant 0 <= offset <= PRIORITIES && |lists| == offset
        invariant forall p :: 0 <= p < offset ==> lists[p] == []
      {
        lists := lists + [[]];
        offset := offset + 1;
      }
      forall p: nat ensures !Bit(0, p) { ZeroBit(p); }
    }

    /** rt_cpus_lock by thread t of CPU c */
    method CpusLock(c: nat, t: Tid)
      requires Inv(Snapshot()) && MayLock(Snapshot(), c, t)
      modifies this`threads, this`holder
      ensures Inv(Snapshot()) && Snapshot() == Smp.CpusLock(old(Snapshot()), c, t) && holder == Some(c)
    {
      LockInv(Snapshot(), c, t);
      var th := threads[t];
      var nest := th.cpusLockNest;
      th := th.(cpusLockNest := nest + 1, locks := th.locks + 1);
      if nest == 0 {
        th := th.(schedulerLockNest := th.schedulerLockNest + 1);
        holder := Some(c);
      }
      threads := threads[t := th];
      assert Snapshot() == Smp.CpusLock(old(Snapshot()), c, t);
    }

    /** rt_cpus_unlock */
    method CpusUnlock(c: nat, t: Tid)
      requires Inv(Snapshot()) && Runs(Snapshot(), c, t) && threads[t].locks > 0
      modifies this`threads, this`holder
      ensures old(Snapshot()).threads[t].cpusLockNest > 0
      ensures Inv(Snapshot()) && Snapshot() == Smp.CpusUnlock(old(Snapshot()), t)
    {
      UnlockInv(Snapshot(), c, t);
      var th := threads[t];
      th := th.(cpusLockNest := th.cpusLockNest - 1, locks := th.locks - 1);
      if th.cpusLockNest == 0 {
        th := th.(schedulerLockNest := th.schedulerLockNest - 1);
        holder := None;
      }
      threads := threads[t := th];
      assert Snapshot() == Smp.CpusUnlock(old(Snapshot()), t);
    }

    /** rt_cpus_lock_status_restore */
    method LockStatusRestore(c: nat, t: Tid)
      requires c < |current| && t < |threads| && holder == Some(c)
      modifies this`current, this`holder
      ensures Snapshot() == Smp.LockStatusRestore(old(Snapshot()), c, t)
    {
      current := current[c := Some(t)];
      if threads[t].cpusLockNest == 0 { holder := None; }
    }

    method EnterCritical(c: nat, t: Tid)
      requires Inv(Snapshot()) && MayLock(Snapshot(), c, t)
      modifies this`threads, this`holder
      ensures Inv(Snapshot()) && Snapshot() == Smp.EnterCritical(old(Snapshot()), c, t)
    {
      EnterInv(Snapshot(), c, t);
      var th := threads[t];
      var nest := th.cpusLockNest;
      th := th.(cpusLockNest := nest + 1);
      if nest == 0 {
        th := th.(schedulerLockNest := th.schedulerLockNest + 1);
        holder := Some(c);
      }
      th := th.(criticalLockNest := th.criticalLockNest + 1);
      th := th.(schedulerLockNest := th.schedulerLockNest + 1);
      threads := threads[t := th];
    }

    method ExitCritical(c: nat, t: Tid)
      requires Inv(Snapshot()) && Runs(Snapshot(), c, t) && threads[t].criticalLockNest > 0
      modifies this`threads, this`holder
      ensures old(Snapshot()).threads[t].cpusLockNest > 0
      ensures Inv(Snapshot()) && Snapshot() == Smp.ExitCritical(old(Snapshot()), t)
    {
      ExitInv(Snapshot(), c, t);
      var th := threads[t];
      th := th.(schedulerLockNest := th.schedulerLockNest - 1);
      th := th.(criticalLockNest := th.criticalLockNest - 1);
      th := th.(cpusLockNest := th.cpusLockNest - 1);
      if th.cpusLockNest == 0 {
        th := th.(schedulerLockNest := th.schedulerLockNest - 1);
        holder := None;
      }
      if th.schedulerLockNest <= 0 { th := th.(schedulerLockNest := 0); }
      threads := threads[t := th];
    }

    /** rt_schedule_insert_thread */
    method InsertThread(t: Tid)
      requires t < |threads| && threads[t].bind < |tables| && threads[t].priority < |tables[threads[t].bind].lists|
      modifies this`threads, this`tables
      ensures Snapshot() == Smp.InsertThread(old(Snapshot()), t)
    {
      var th := threads[t];
      if th.oncpu.Some? {
        threads := threads[t := th.(stat := Smp.Running)];
      } else {
        threads := threads[t := th.(stat := Smp.Ready)];
        var table := tables[th.bind];
        var list := table.lists[th.priority];
        var longer := if th.yielded then list + [t] else [t] + list;
        tables := tables[th.bind := Table(Or(table.group, Pow2(th.priority)), table.lists[th.priority := longer])];
      }
    }

    /** rt_schedule_remove_thread */
    method RemoveThread(t: Tid)
      requires t < |threads| && threads[t].bind < |tables| && threads[t].priority < |tables[threads[t].bind].lists|
      modifies this`tables
      ensures tables == old(tables)[threads[t].bind := Remove(old(tables)[threads[t].bind], t, threads[t].priority)]
    {
      var b, p := threads[t].bind, threads[t].priority;
      var lists := tables[b].lists[p := Without(tables[b].lists[p], t)];
      if lists[p] == [] {
        tables := tables[b := Table(AndNot(tables[b].group, Pow2(p)), lists)];
      } else {
        tables := tables[b := Table(tables[b].group, lists)];
      }
    }

    /** _scheduler_get_highest_priority_thread on CPU c */
    method GetHighest(c: nat) returns (to: Tid, h: nat)
      requires Inv(Snapshot()) && c < cpus && AnyReady(Snapshot(), c)
      ensures (to, h) == Highest(Snapshot(), c) && IsHighest(Snapshot(), c, to, h)
    {
      HighestFound(Snapshot(), c);
      var global, local := Urgency(tables[cpus]), Urgency(tables[c]);
      if global < local {
        h := global;
        to := tables[cpus].lists[h][0];
      } else {
        h := local;
        to := tables[c].lists[h][0];
      }
    }

    /** Whether the current thread t of CPU c is to go on, with priority h ready. */
    method StaysOn(c: nat, t: Tid, h: nat) returns (stays: bool)
      requires t < |threads|
      ensures stays == Keeps(threads[t], cpus, c, h)
    {
      stays := false;
      if threads[t].stat == Smp.Running {
        if threads[t].bind == cpus || threads[t].bind == c {
          if threads[t].priority < h {
            stays := true;
          } else if threads[t].priority == h && !threads[t].yielded {
            stays := true;
          }
        }
      }
    }

    /** The part shared by rt_schedule and the switch in interrupts: exchange t for `to` on CPU c, up to the switch. */
    method Exchange(c: nat, t: Tid, to: Tid, h: nat)
      requires Inv(Snapshot()) && Runs(Snapshot(), c, t) && IsHighest(Snapshot(), c, to, h) && to != t
      modifies this`threads, this`tables
      ensures t < |threads| && threads[t] == Away(old(threads)[t])
      ensures old(threads)[t].bind < |old(tables)| && old(threads)[t].priority < |old(tables)[old(threads)[t].bind].lists|
      ensures to < |PutAway(old(Snapshot()), t).threads|
      ensures var m := PutAway(old(Snapshot()), t);
        && m.threads[to].bind < |m.tables| && m.threads[to].priority < |m.tables[m.threads[to].bind].lists|
        && Snapshot() == TakeOut(m, to, Smp.Running, Some(c))
    {
      PutAwayFiled(Snapshot(), c, t);
      threads := threads[t := threads[t].(oncpu := None)];
      if threads[t].stat == Smp.Running {
        InsertThread(t);
        threads := threads[t := threads[t].(yielded := false)];
      }
      assert Snapshot() == PutAway(old(Snapshot()), t);
      assert threads[to] == old(threads)[to] && Ok(tables[threads[to].bind]) by {
        assert ThreadPlaced(cpus, old(current), old(threads)[to], to);
      }
      RemoveThread(to);
      threads := threads[to := threads[to].(oncpu := Some(c), stat := Smp.Running)];
    }

    /** rt_schedule on CPU c, between taking the global lock and giving it back */
    method Schedule(c: nat, t: Tid)
      requires Inv(Snapshot()) && Runs(Snapshot(), c, t) && holder == Some(c)
      modifies this
      ensures Inv(Snapshot()) && Snapshot() == Smp.Schedule(old(Snapshot()), c, t)
    {
      ScheduleInv(Snapshot(), c, t);
      if irqNest[c] > 0 {
        irqSwitch := irqSwitch[c := true];
        return;
      }
      if threads[t].schedulerLockNest == 1 {
        if tables[cpus].group != 0 || tables[c].group != 0 {
          var to, h := GetHighest(c);
          var stays := StaysOn(c, t, h);
          if stays {
            threads := threads[t := threads[t].(yielded := false)];
          } else {
            NotHighest(Snapshot(), c, t, to, h);
            Exchange(c, t, to, h);
            LockStatusRestore(c, to);
          }
        }
      }
    }

    /** rt_scheduler_do_irq_switch on CPU c, between taking the global lock and giving it back */
    method DoIrqSwitch(c: nat, t: Tid)
      requires Inv(Snapshot()) && Runs(Snapshot(), c, t) && holder == Some(c)
      modifies this
      ensures Snapshot() == Smp.IrqSwitch(old(Snapshot()), c, t)
      ensures Inv(Snapshot()) <==> old(threads)[t].locks == 1 || !LeavesInIrq(old(Snapshot()), c, t)
    {
      IrqSwitchInv(Snapshot(), c, t);
      if !irqSwitch[c] { return; }
      if threads[t].schedulerLockNest == 1 && irqNest[c] == 0 {
        ghost var before := Snapshot();
        irqSwitch := irqSwitch[c := false];
        if tables[cpus].group != 0 || tables[c].group != 0 {
          assert Inv(Snapshot());
          var to, h := GetHighest(c);
          assert (to, h) == Highest(before, c);
          var stays := StaysOn(c, t, h);
          if stays {
            threads := threads[t := threads[t].(yielded := false)];
          } else {
            SwitchOut(c, t, to, h);
          }
        }
      }
    }

    method SwitchOut(c: nat, t: Tid, to: Tid, h: nat)
      requires Inv(Snapshot()) && Runs(Snapshot(), c, t) && holder == Some(c) && IsHighest(Snapshot(), c, to, h)
      requires threads[t].schedulerLockNest == 1
      modifies this
      ensures old(threads)[t].bind < |old(tables)| && old(threads)[t].priority < |old(tables)[old(threads)[t].bind].lists|
      ensures to < |PutAway(old(Snapshot()), t).threads|
      ensures var m := PutAway(old(Snapshot()), t);
        && m.threads[to].bind < |m.tables| && m.threads[to].priority < |m.tables[m.threads[to].bind].lists|
        && Snapshot() == Smp.LockStatusRestore(DropLock(TakeOut(m, to, Smp.Running, Some(c)), t), c, to)
    {
      NotHighest(Snapshot(), c, t, to, h);
      HolderOf(Snapshot(), c, t);
      Exchange(c, t, to, h);
      Drop(t);
      LockStatusRestore(c, to);
    }

    /** The decrements for the outgoing thread */
    method Drop(t: Tid)
      requires t < |threads| && threads[t].cpusLockNest > 0 && threads[t].locks > 0
      modifies this`threads
      ensures Snapshot() == DropLock(old(Snapshot()), t)
    {
      threads := threads[t := threads[t].(cpusLockNest := threads[t].cpusLockNest - 1, locks := threads[t].locks - 1)];
      threads := threads[t := threads[t].(schedulerLockNest := threads[t].schedulerLockNest - 1)];
    }

    /** rt_system_scheduler_start on CPU c, which has the spinlock from its start-up code */
    method SchedulerStart(c: nat)
      requires Inv(Snapshot()) && c < cpus && current[c].None? && holder.None? && AnyReady(Snapshot(), c)
      modifies this
      ensures Inv(Snapshot()) && Snapshot() == Start(old(Snapshot()), c)
    {
      StartInv(Snapshot(), c);
      var to, h := GetHighest(c);
      assert ThreadPlaced(cpus, current, threads[to], to) && Ok(tables[threads[to].bind]);
      holder := Some(c);
      threads := threads[to := threads[to].(oncpu := Some(c))];
      RemoveThread(to);
      threads := threads[to := threads[to].(stat := Smp.Running, yielded := false)];
      LockStatusRestore(c, to);
      assert Snapshot() == Start(old(Snapshot()), c);
    }
  }

  lemma NotHighest(s: Smp.State, c: nat, t: Tid, to: Tid, h: nat)
    requires Inv(s) && Runs(s, c, t) && IsHighest(s, c, to, h)
    ensures to != t
  {
    assert s.threads[t].oncpu == Some(c);
  }
}
