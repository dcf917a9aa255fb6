/** What every step of every CPU keeps: placement of threads, lock counters, and the holder of the spinlock. */
module SmpRuns {
  import opened Wrappers
  import opened ReadyTable
  import opened SmpScheduler

  // ---------- one thread changes ----------

  /** The same place in the ready lists. */
  predicate SameSpot(a: Thread, b: Thread) {
    if a.stat == Ready then b.stat == Ready && a.bind == b.bind && a.priority == b.priority else b.stat != Ready
  }

  lemma FiledSame(threads: seq<Thread>, tables: seq<Table>, t: Tid, th: Thread)
    requires Filed(threads, tables) && t < |threads| && SameSpot(threads[t], th)
    ensures Filed(threads[t := th], tables)
  {
    forall k: nat, p: nat, x: Tid | 0 <= k < |tables|
      ensures Has(tables[k], p, x) <==> x < |threads| && QueuedAt(threads[t := th][x], k, p)
    {
      assert Has(tables[k], p, x) <==> x < |threads| && QueuedAt(threads[x], k, p);
    }
  }

  lemma FiledInsert(threads: seq<Thread>, tables: seq<Table>, t: Tid, th: Thread, yielded: bool)
    requires Filed(threads, tables) && t < |threads| && threads[t].stat != Ready
    requires th.stat == Ready && th.bind < |tables| && th.priority < PRIORITIES
    ensures Filed(threads[t := th], tables[th.bind := Insert(tables[th.bind], t, th.priority, yielded)])
  {
    var b, p := th.bind, th.priority;
    assert Ok(tables[b]);
    assert Has(tables[b], p, t) <==> QueuedAt(threads[t], b, p);
    InsertOk(tables[b], t, p, yielded);
    var ts := tables[b := Insert(tables[b], t, p, yielded)];
    forall k: nat, q: nat, x: Tid | 0 <= k < |ts|
      ensures Has(ts[k], q, x) <==> x < |threads| && QueuedAt(threads[t := th][x], k, q)
    {
      assert Has(tables[k], q, x) <==> x < |threads| && QueuedAt(threads[x], k, q);
    }
  }

  lemma FiledRemove(threads: seq<Thread>, tables: seq<Table>, t: Tid, th: Thread)
    requires Filed(threads, tables) && t < |threads| && th.stat != Ready
    requires threads[t].bind < |tables| && threads[t].priority < PRIORITIES
    ensures var b := threads[t].bind;
      Filed(threads[t := th], tables[b := Remove(tables[b], t, threads[t].priority)])
  {
    var b, p := threads[t].bind, threads[t].priority;
    assert Ok(tables[b]);
    RemoveOk(tables[b], t, p);
    var ts := tables[b := Remove(tables[b], t, p)];
    forall k: nat, q: nat, x: Tid | 0 <= k < |ts|
      ensures Has(ts[k], q, x) <==> x < |threads| && QueuedAt(threads[t := th][x], k, q)
    {
      assert Has(tables[k], q, x) <==> x < |threads| && QueuedAt(threads[x], k, q);
    }
  }

  /** Only the counters or the slice flag differ. */
  predicate SamePlace(a: Thread, b: Thread) {
    a.priority == b.priority && a.bind == b.bind && a.oncpu == b.oncpu && a.stat == b.stat
  }

  lemma PlacedSame(cpus: nat, threads: seq<Thread>, current: seq<Option<Tid>>, t: Tid, th: Thread)
    requires Placed(cpus, threads, current) && t < |threads|
    requires th.oncpu == threads[t].oncpu && ThreadPlaced(cpus, current, th, t)
    ensures Placed(cpus, threads[t := th], current)
  {
  }

  /** Thread t, on no CPU or on CPU c alone, changes without going in or out of the lock. */
  lemma HeldSame(threads: seq<Thread>, current: seq<Option<Tid>>, holder: Option<nat>, t: Tid, th: Thread)
    requires Held(threads, current, holder) && t < |threads|
    requires th.cpusLockNest > 0 <==> threads[t].cpusLockNest > 0
    ensures Held(threads[t := th], current, holder)
  {
    forall c | 0 <= c < |current| ensures holder == Some(c) <==> Inside(threads[t := th], current[c]) {
      assert holder == Some(c) <==> Inside(threads, current[c]);
    }
  }

  /** The current thread t of CPU c goes into the lock or leaves it. */
  lemma HeldChange(cpus: nat, threads: seq<Thread>, current: seq<Option<Tid>>, holder: Option<nat>, c: nat, t: Tid, th: Thread)
    requires Held(threads, current, holder) && Placed(cpus, threads, current)
    requires c < |current| && current[c] == Some(t) && t < |threads|
    requires threads[t].cpusLockNest > 0 || holder.None?
    ensures Held(threads[t := th], current, if th.cpusLockNest > 0 then Some(c) else None)
  {
    forall d | 0 <= d < |current|
      ensures (if th.cpusLockNest > 0 then Some(c) else None) == Some(d) <==> Inside(threads[t := th], current[d])
    {
      assert holder == Some(d) <==> Inside(threads, current[d]);
      assert holder == Some(c) <==> Inside(threads, current[c]);
      if d != c { assert current[d] != Some(t); }
    }
  }

  /** Any change of the counters of the current thread that keeps the account. */
  lemma CountersInv(s: State, c: nat, t: Tid, th: Thread)
    requires Inv(s) && Runs(s, c, t) && SamePlace(s.threads[t], th) && Accounted(th)
    requires s.threads[t].cpusLockNest > 0 || s.holder.None?
    ensures Inv(s.(threads := s.threads[t := th], holder := if th.cpusLockNest > 0 then Some(c) else None))
  {
    FiledSame(s.threads, s.tables, t, th);
    assert ThreadPlaced(s.cpus, s.current, s.threads[t], t);
    PlacedSame(s.cpus, s.threads, s.current, t, th);
    HeldChange(s.cpus, s.threads, s.current, s.holder, c, t, th);
  }

  /** A change that has nothing to do with the lock. */
  lemma QuietInv(s: State, t: Tid, th: Thread)
    requires Inv(s) && t < |s.threads| && SameSpot(s.threads[t], th) && Accounted(th)
    requires th.oncpu == s.threads[t].oncpu && ThreadPlaced(s.cpus, s.current, th, t)
    requires th.cpusLockNest > 0 <==> s.threads[t].cpusLockNest > 0
    ensures Inv(s.(threads := s.threads[t := th]))
  {
    FiledSame(s.threads, s.tables, t, th);
    PlacedSame(s.cpus, s.threads, s.current, t, th);
    HeldSame(s.threads, s.current, s.holder, t, th);
  }

  // ---------- the locks ----------

  /** The spinlock can be had by CPU c: free, or taken by its own thread before. */
  ghost predicate MayLock(s: State, c: nat, t: Tid) {
    Runs(s, c, t) && (s.threads[t].cpusLockNest > 0 || s.holder.None?)
  }

  lemma HolderOf(s: State, c: nat, t: Tid)
    requires Inv(s) && Runs(s, c, t)
    ensures s.holder == Some(c) <==> s.threads[t].cpusLockNest > 0
    ensures Accounted(s.threads[t]) && ThreadPlaced(s.cpus, s.current, s.threads[t], t)
  {
    assert s.holder == Some(c) <==> Inside(s.threads, s.current[c]);
  }

  lemma LockInv(s: State, c: nat, t: Tid)
    requires Inv(s) && MayLock(s, c, t)
    ensures Inv(CpusLock(s, c, t)) && CpusLock(s, c, t).holder == Some(c)
  {
    HolderOf(s, c, t);
    CountersInv(s, c, t, CpusLock(s, c, t).threads[t]);
  }

  lemma UnlockInv(s: State, c: nat, t: Tid)
    requires Inv(s) && Runs(s, c, t) && s.threads[t].locks > 0
    ensures s.threads[t].cpusLockNest > 0 && Inv(CpusUnlock(s, t))
  {
    HolderOf(s, c, t);
    CountersInv(s, c, t, CpusUnlock(s, t).threads[t]);
  }

  lemma EnterInv(s: State, c: nat, t: Tid)
    requires Inv(s) && MayLock(s, c, t)
    ensures Inv(EnterCritical(s, c, t))
  {
    HolderOf(s, c, t);
    CountersInv(s, c, t, EnterCritical(s, c, t).threads[t]);
  }

  /** The correction "if (scheduler_lock_nest <= 0) scheduler_lock_nest = 0" never changes anything. */
  lemma ExitInv(s: State, c: nat, t: Tid)
    requires Inv(s) && Runs(s, c, t) && s.threads[t].criticalLockNest > 0
    ensures s.threads[t].cpusLockNest > 0 && Inv(ExitCritical(s, t))
    ensures ExitCritical(s, t).threads[t].schedulerLockNest
         == s.threads[t].schedulerLockNest - (if s.threads[t].cpusLockNest == 1 then 2 else 1)
  {
    HolderOf(s, c, t);
    CountersInv(s, c, t, ExitCritical(s, t).threads[t]);
  }

  lemma PreemptInv(s: State, c: nat, t: Tid)
    requires Inv(s) && Runs(s, c, t)
    ensures Inv(PreemptDisable(s, t))
    ensures s.threads[t].preempts > 0 ==> Inv(PreemptEnable(s, t))
  {
    HolderOf(s, c, t);
    QuietInv(s, t, PreemptDisable(s, t).threads[t]);
    if s.threads[t].preempts > 0 { QuietInv(s, t, PreemptEnable(s, t).threads[t]); }
  }

  // ---------- the ready lists ----------

  lemma ResumeInv(s: State, t: Tid)
    requires Inv(s) && t < |s.threads| && s.threads[t].stat == Suspended
    ensures s.threads[t].bind < |s.tables| && s.threads[t].priority < |s.tables[s.threads[t].bind].lists|
    ensures Inv(InsertThread(s, t))
  {
    var th := s.threads[t];
    assert ThreadPlaced(s.cpus, s.current, th, t) && Ok(s.tables[th.bind]);
    if th.oncpu.Some? {
      QuietInv(s, t, th.(stat := Running));
    } else {
      FiledInsert(s.threads, s.tables, t, th.(stat := Ready), th.yielded);
      PlacedSame(s.cpus, s.threads, s.current, t, th.(stat := Ready));
      HeldSame(s.threads, s.current, s.holder, t, th.(stat := Ready));
    }
  }

  lemma SuspendInv(s: State, c: nat, t: Tid)
    requires Inv(s) && Runs(s, c, t)
    ensures s.threads[t].bind < |s.tables| && s.threads[t].priority < |s.tables[s.threads[t].bind].lists|
    ensures Inv(TakeOut(s, t, Suspended, Some(c)))
  {
    var th := s.threads[t];
    assert ThreadPlaced(s.cpus, s.current, th, t) && Ok(s.tables[th.bind]);
    FiledRemove(s.threads, s.tables, t, th.(stat := Suspended));
    PlacedSame(s.cpus, s.threads, s.current, t, th.(stat := Suspended));
    HeldSame(s.threads, s.current, s.holder, t, th.(stat := Suspended));
  }

  lemma PriorityInv(s: State, t: Tid, p: nat)
    requires Inv(s) && t < |s.threads| && p < PRIORITIES
    ensures Inv(ChangePriority(s, t, p))
  {
    var th := s.threads[t];
    assert ThreadPlaced(s.cpus, s.current, th, t) && Ok(s.tables[th.bind]);
    if th.stat == Ready {
      var mid := th.(stat := Suspended, priority := p);
      FiledRemove(s.threads, s.tables, t, mid);
      PlacedSame(s.cpus, s.threads, s.current, t, mid);
      HeldSame(s.threads, s.current, s.holder, t, mid);
      var r := s.(threads := s.threads[t := mid], tables := s.tables[th.bind := Remove(s.tables[th.bind], t, th.priority)]);
      assert Inv(r);
      ResumeInv(r, t);
      var out := TakeOut(s, t, Suspended, th.oncpu);
      assert r == out.(threads := out.threads[t := out.threads[t].(priority := p)]);
    } else {
      QuietInv(s, t, th.(priority := p));
    }
  }

  // ---------- the switch ----------

  /** CPU c exchanges its thread t for the detached thread `to`. */
  lemma PlacedSwitch(cpus: nat, threads: seq<Thread>, current: seq<Option<Tid>>, c: nat, t: Tid, to: Tid, a: Thread, b: Thread)
    requires Placed(cpus, threads, current) && c < cpus && current[c] == Some(t)
    requires t < |threads| && to < |threads| && to != t && threads[to].oncpu.None?
    requires a.oncpu.None? && a.stat != Running && a.bind <= cpus && a.priority < PRIORITIES
    requires b.oncpu == Some(c) && b.stat == Running && b.priority < PRIORITIES && (b.bind == cpus || b.bind == c)
    ensures Placed(cpus, threads[t := a][to := b], current[c := Some(to)])
  {
    var ths, cur := threads[t := a][to := b], current[c := Some(to)];
    forall d | 0 <= d < cpus && cur[d].Some? ensures cur[d].value < |ths| && ths[cur[d].value].oncpu == Some(d) {
      if d != c { assert threads[current[d].value].oncpu == Some(d); }
    }
    forall x | 0 <= x < |ths| ensures ThreadPlaced(cpus, cur, ths[x], x) {
      assert ThreadPlaced(cpus, current, threads[x], x);
    }
  }

  /** The lock goes to whatever `to` was doing when it last ran. */
  lemma HeldSwitch(cpus: nat, threads: seq<Thread>, current: seq<Option<Tid>>, c: nat, t: Tid, to: Tid, a: Thread, b: Thread)
    requires Placed(cpus, threads, current) && Held(threads, current, Some(c)) && c < cpus && current[c] == Some(t)
    requires t < |threads| && to < |threads| && to != t && threads[to].oncpu.None?
    ensures Held(threads[t := a][to := b], current[c := Some(to)], if b.cpusLockNest == 0 then None else Some(c))
  {
    var ths, cur := threads[t := a][to := b], current[c := Some(to)];
    forall d | 0 <= d < |cur|
      ensures (if b.cpusLockNest == 0 then None else Some(c)) == Some(d) <==> Inside(ths, cur[d])
    {
      if d != c {
        assert Some(c) == Some(d) <==> Inside(threads, current[d]);
        if current[d].Some? { assert threads[current[d].value].oncpu == Some(d); }
      }
    }
  }

  /** The outgoing thread, detached. */
  function Away(th: Thread): Thread {
    if th.stat == Running then th.(oncpu := None, stat := Ready, yielded := false) else th.(oncpu := None)
  }

  lemma PutAwayFiled(s: State, c: nat, t: Tid)
    requires Inv(s) && Runs(s, c, t)
    ensures s.threads[t].bind < |s.tables| && s.threads[t].priority < |s.tables[s.threads[t].bind].lists|
    ensures var r := PutAway(s, t);
      && r.threads == s.threads[t := Away(s.threads[t])] && |r.tables| == |s.tables|
      && r == s.(threads := r.threads, tables := r.tables) && Filed(r.threads, r.tables)
  {
    var th := s.threads[t];
    assert ThreadPlaced(s.cpus, s.current, th, t) && Ok(s.tables[th.bind]);
    var off := s.(threads := s.threads[t := th.(oncpu := None)]);
    FiledSame(s.threads, s.tables, t, th.(oncpu := None));
    if th.stat == Running {
      var r := InsertThread(off, t);
      FiledInsert(off.threads, s.tables, t, th.(oncpu := None, stat := Ready), th.yielded);
      FiledSame(r.threads, r.tables, t, r.threads[t].(yielded := false));
      assert r.threads[t := r.threads[t].(yielded := false)] == s.threads[t := Away(th)];
    }
  }

  /** What a switch in rt_schedule or in an interrupt leaves, given the outgoing thread's final counters a. */
  lemma SwitchInv(s: State, c: nat, t: Tid, to: Tid, h: nat, a: Thread)
    requires Inv(s) && Runs(s, c, t) && s.holder == Some(c) && IsHighest(s, c, to, h)
    requires Accounted(a) && SamePlace(a, Away(s.threads[t]))
    ensures to != t && s.threads[t].bind < |s.tables| && s.threads[t].priority < |s.tables[s.threads[t].bind].lists|
    ensures to < |PutAway(s, t).threads|
    ensures var m := PutAway(s, t);
      && m.threads[to].bind < |m.tables| && m.threads[to].priority < |m.tables[m.threads[to].bind].lists|
      && var out := TakeOut(m, to, Running, Some(c));
         Inv(LockStatusRestore(out.(threads := out.threads[t := a]), c, to))
  {
    var th := s.threads[t];
    assert ThreadPlaced(s.cpus, s.current, th, t);
    assert ThreadPlaced(s.cpus, s.current, s.threads[to], to);
    assert th.oncpu == Some(c);
    PutAwayFiled(s, c, t);
    var m := PutAway(s, t);
    var b := s.threads[to].(stat := Running, oncpu := Some(c));
    assert m.threads[to] == s.threads[to] && Ok(m.tables[s.threads[to].bind]);
    FiledRemove(m.threads, m.tables, to, b);
    var out := TakeOut(m, to, Running, Some(c));
    assert out.threads[t] == Away(th);
    FiledSame(out.threads, out.tables, t, a);
    var ths := out.threads[t := a];
    assert ths == s.threads[t := a][to := b];
    PlacedSwitch(s.cpus, s.threads, s.current, c, t, to, a, b);
    HeldSwitch(s.cpus, s.threads, s.current, c, t, to, a, b);
  }

  lemma ScheduleInv(s: State, c: nat, t: Tid)
    requires Inv(s) && Runs(s, c, t) && s.holder == Some(c)
    ensures Inv(Schedule(s, c, t))
  {
    HolderOf(s, c, t);
    if s.irqNest[c] == 0 && s.threads[t].schedulerLockNest == 1 && AnyReady(s, c) {
      var (to, h) := Highest(s, c);
      if Keeps(s.threads[t], s.cpus, c, h) {
        QuietInv(s, t, s.threads[t].(yielded := false));
      } else {
        var a := Away(s.threads[t]);
        SwitchInv(s, c, t, to, h, a);
        var out := TakeOut(PutAway(s, t), to, Running, Some(c));
        PutAwayFiled(s, c, t);
        assert out.threads[t := a] == out.threads;
      }
    }
  }

  /** The switch at the end of an interrupt; the handler's own lock is the only one of the outgoing thread. */
  lemma IrqSwitchOut(s: State, c: nat, t: Tid, to: Tid, h: nat)
    requires Inv(s) && Runs(s, c, t) && s.holder == Some(c) && IsHighest(s, c, to, h)
    requires s.threads[t].locks == 1 && s.threads[t].schedulerLockNest == 1
    ensures s.threads[t].bind < |s.tables| && s.threads[t].priority < |s.tables[s.threads[t].bind].lists|
    ensures to < |PutAway(s, t).threads|
    ensures var m := PutAway(s, t);
      && m.threads[to].bind < |m.tables| && m.threads[to].priority < |m.tables[m.threads[to].bind].lists|
      && Inv(LockStatusRestore(DropLock(TakeOut(m, to, Running, Some(c)), t), c, to))
  {
    HolderOf(s, c, t);
    var a := Away(s.threads[t]).(cpusLockNest := 0, schedulerLockNest := 0, locks := 0);
    SwitchInv(s, c, t, to, h, a);
    PutAwayFiled(s, c, t);
    var out := TakeOut(PutAway(s, t), to, Running, Some(c));
    assert out.threads[t] == Away(s.threads[t]);
    assert DropLock(out, t) == out.(threads := out.threads[t := a]);
  }

  /**
   The unconditional decrements keep the account if and only if the thread has no lock outstanding
   but the one the switch is done under, or it keeps the CPU.
   */
  lemma IrqSwitchInv(s: State, c: nat, t: Tid)
    requires Inv(s) && Runs(s, c, t) && s.holder == Some(c)
    ensures Inv(IrqSwitch(s, c, t)) <==> s.threads[t].locks == 1 || !LeavesInIrq(s, c, t)
  {
    if s.threads[t].locks == 1 || !LeavesInIrq(s, c, t) {
      IrqSwitchKeeps(s, c, t);
    } else {
      IrqSwitchBreaks(s, c, t);
    }
  }

  /** With more locks outstanding the thread goes off with a lock count and no scheduler lock. */
  lemma IrqSwitchBreaks(s: State, c: nat, t: Tid)
    requires Inv(s) && Runs(s, c, t) && s.holder == Some(c) && s.threads[t].locks != 1 && LeavesInIrq(s, c, t)
    ensures t < |IrqSwitch(s, c, t).threads| && !Accounted(IrqSwitch(s, c, t).threads[t])
  {
    HolderOf(s, c, t);
    var (to, h) := Highest(s, c);
    assert s.threads[t].oncpu == Some(c);
    IrqSwitched(s, c, t, to, h);
  }

  lemma IrqSwitchKeeps(s: State, c: nat, t: Tid)
    requires Inv(s) && Runs(s, c, t) && s.holder == Some(c) && (s.threads[t].locks == 1 || !LeavesInIrq(s, c, t))
    ensures Inv(IrqSwitch(s, c, t))
  {
    HolderOf(s, c, t);
    if s.irqSwitch[c] && s.threads[t].schedulerLockNest == 1 && s.irqNest[c] == 0 && AnyReady(s, c) {
      var r := s.(irqSwitch := s.irqSwitch[c := false]);
      assert Inv(r);
      var (to, h) := Highest(s, c);
      if Keeps(s.threads[t], s.cpus, c, h) {
        QuietInv(r, t, r.threads[t].(yielded := false));
      } else {
        assert IsHighest(r, c, to, h);
        IrqSwitchOut(r, c, t, to, h);
      }
    }
  }

  lemma StartPlaced(cpus: nat, threads: seq<Thread>, current: seq<Option<Tid>>, c: nat, to: Tid, b: Thread)
    requires Placed(cpus, threads, current) && c < cpus && current[c].None? && to < |threads| && threads[to].oncpu.None?
    requires b.oncpu == Some(c) && b.stat == Running && b.priority < PRIORITIES && (b.bind == cpus || b.bind == c)
    requires Held(threads, current, None)
    ensures Placed(cpus, threads[to := b], current[c := Some(to)])
    ensures Held(threads[to := b], current[c := Some(to)], if b.cpusLockNest == 0 then None else Some(c))
  {
    var ths, cur := threads[to := b], current[c := Some(to)];
    forall d | 0 <= d < cpus && cur[d].Some? ensures cur[d].value < |ths| && ths[cur[d].value].oncpu == Some(d) {
      if d != c { assert threads[current[d].value].oncpu == Some(d); }
    }
    forall x | 0 <= x < |ths| ensures ThreadPlaced(cpus, cur, ths[x], x) {
      assert ThreadPlaced(cpus, current, threads[x], x);
    }
    forall d | 0 <= d < |cur|
      ensures (if b.cpusLockNest == 0 then None else Some(c)) == Some(d) <==> Inside(ths, cur[d])
    {
      if d != c { assert !Inside(threads, current[d]); }
    }
  }

  lemma StartInv(s: State, c: nat)
    requires Inv(s) && c < s.cpus && s.current[c].None? && s.holder.None? && AnyReady(s, c)
    ensures Inv(Start(s, c))
  {
    var (to, h) := Highest(s, c);
    var th := s.threads[to];
    assert ThreadPlaced(s.cpus, s.current, th, to) && Ok(s.tables[th.bind]);
    var b := th.(stat := Running, oncpu := Some(c), yielded := false);
    FiledRemove(s.threads, s.tables, to, b);
    StartPlaced(s.cpus, s.threads, s.current, c, to, b);
    var r := TakeOut(s, to, Running, Some(c));
    assert r.threads[to := r.threads[to].(yielded := false)] == s.threads[to := b];
  }

  // ---------- runs ----------

  datatype Event =
    | Lock(c: nat) | Unlock(c: nat)            // rt_cpus_lock, rt_cpus_unlock
    | Enter(c: nat) | Exit(c: nat)             // rt_enter_critical, rt_exit_critical
    | Disable(c: nat) | Enable(c: nat)         // _cpu_preempt_disable, _cpu_preempt_enable
    | Yield(c: nat)                            // the slice of the current thread is used up
    | Suspend(c: nat)                          // rt_thread_suspend of the current thread
    | Resume(c: nat, t: Tid)                   // rt_thread_resume
    | SetPriority(c: nat, t: Tid, p: nat)
    | IrqEnter(c: nat) | IrqLeave(c: nat)
    | Reschedule(c: nat)                       // the locked part of rt_schedule
    | SwitchInIrq(c: nat)                      // the locked part of rt_scheduler_do_irq_switch
    | Begin(c: nat)                            // rt_system_scheduler_start

  ghost predicate Enabled(s: State, e: Event)
    requires Inv(s)
  {
    && e.c < |s.current|
    && if e.Begin? then s.current[e.c].None? && s.holder.None? && s.cpus < |s.tables| && e.c < |s.tables| && AnyReady(s, e.c)
       else s.current[e.c].Some? && EnabledOn(s, e, s.current[e.c].value)
  }

  /** Calls of the locks are balanced; the ready lists and stats are touched under the global lock only. */
  ghost predicate EnabledOn(s: State, e: Event, t: Tid)
    requires Inv(s)
  {
    && Runs(s, e.c, t)
    && match e
      case Lock(c) => MayLock(s, c, t)
      case Unlock(c) => s.threads[t].locks > 0
      case Enter(c) => MayLock(s, c, t)
      case Exit(c) => s.threads[t].criticalLockNest > 0
      case Disable(c) => true
      case Enable(c) => s.threads[t].preempts > 0
      case Yield(c) => s.holder == Some(c)
      case Suspend(c) => s.holder == Some(c)
      case Resume(c, x) => s.holder == Some(c) && x < |s.threads| && s.threads[x].stat == Suspended
      case SetPriority(c, x, p) => s.holder == Some(c) && x < |s.threads| && p < PRIORITIES
      case IrqEnter(c) => c < |s.irqNest|
      case IrqLeave(c) => c < |s.irqNest| && s.irqNest[c] > 0
      case Reschedule(c) => s.holder == Some(c)
      case SwitchInIrq(c) => s.holder == Some(c) && (s.threads[t].locks == 1 || !LeavesInIrq(s, c, t))
      case Begin(c) => false
  }

  ghost function Step(s: State, e: Event): (r: State)
    requires Inv(s) && Enabled(s, e)
    ensures Inv(r) && r.cpus == s.cpus
  {
    if e.Begin? then StartInv(s, e.c); Start(s, e.c) else StepOn(s, e, s.current[e.c].value)
  }

  ghost function StepOn(s: State, e: Event, t: Tid): (r: State)
    requires Inv(s) && EnabledOn(s, e, t)
    ensures Inv(r) && r.cpus == s.cpus
  {
    HolderOf(s, e.c, t);
    match e
    case Lock(c) => LockInv(s, c, t); CpusLock(s, c, t)
    case Unlock(c) => UnlockInv(s, c, t); CpusUnlock(s, t)
    case Enter(c) => EnterInv(s, c, t); EnterCritical(s, c, t)
    case Exit(c) => ExitInv(s, c, t); ExitCritical(s, t)
    case Disable(c) => PreemptInv(s, c, t); PreemptDisable(s, t)
    case Enable(c) => PreemptInv(s, c, t); PreemptEnable(s, t)
    case Yield(c) =>
      QuietInv(s, t, s.threads[t].(yielded := true));
      s.(threads := s.threads[t := s.threads[t].(yielded := true)])
    case Suspend(c) => SuspendInv(s, c, t); TakeOut(s, t, Suspended, Some(c))
    case Resume(c, x) => ResumeInv(s, x); InsertThread(s, x)
    case SetPriority(c, x, p) => PriorityInv(s, x, p); ChangePriority(s, x, p)
    case IrqEnter(c) => s.(irqNest := s.irqNest[c := s.irqNest[c] + 1])
    case IrqLeave(c) => s.(irqNest := s.irqNest[c := s.irqNest[c] - 1])
    case Reschedule(c) => ScheduleInv(s, c, t); Schedule(s, c, t)
    case SwitchInIrq(c) => IrqSwitchInv(s, c, t); IrqSwitch(s, c, t)
  }

  ghost predicate Legal(s: State, es: seq<Event>)
    requires Inv(s)
    decreases |es|, 0
  {
    es == [] || (Legal(s, es[..|es| - 1]) && Enabled(After(s, es[..|es| - 1]), es[|es| - 1]))
  }

  ghost function After(s: State, es: seq<Event>): (r: State)
    requires Inv(s) && Legal(s, es)
    ensures Inv(r) && r.cpus == s.cpus
    decreases |es|, 1
  {
    if es == [] then s else Step(After(s, es[..|es| - 1]), es[|es| - 1])
  }

  /** No CPU started, nothing locked, every thread READY on its list or SUSPENDED. */
  ghost predicate Initial(s: State) {
    && |s.tables| == s.cpus + 1 && |s.irqNest| == s.cpus && |s.irqSwitch| == s.cpus && |s.current| == s.cpus
    && Filed(s.threads, s.tables) && s.holder.None?
    && (forall c :: 0 <= c < s.cpus ==> s.current[c].None?)
    && forall t :: 0 <= t < |s.threads| ==> FreshThread(s.cpus, s.threads[t])
  }

  predicate FreshThread(cpus: nat, th: Thread) {
    && th.oncpu.None? && th.stat != Running && th.bind <= cpus && th.priority < PRIORITIES
    && th.cpusLockNest == 0 && th.schedulerLockNest == 0 && th.criticalLockNest == 0 && th.locks == 0 && th.preempts == 0
  }

  lemma InitialInv(s: State)
    requires Initial(s)
    ensures Inv(s)
  {
    forall t | 0 <= t < |s.threads| ensures Accounted(s.threads[t]) && ThreadPlaced(s.cpus, s.current, s.threads[t], t) {
      assert FreshThread(s.cpus, s.threads[t]);
    }
  }

  // ---------- what the invariant means ----------

  /** The places of a thread: on a CPU, or in the lists of a binding at a priority. */
  ghost predicate RunsOn(s: State, t: Tid, c: nat) {
    c < |s.current| && s.current[c] == Some(t)
  }

  ghost predicate ListedIn(s: State, t: Tid, k: nat, p: nat) {
    k < |s.tables| && Has(s.tables[k], p, t)
  }

  /**
   In every run a thread is in at most one place, oncpu names the CPU it runs on, and a bound
   thread runs and waits nowhere but on its CPU.
   */
  lemma OnePlace(s: State, es: seq<Event>, t: Tid)
    requires Initial(s)
    ensures Inv(s)
    ensures Legal(s, es) && t < |s.threads| ==>
      var r := After(s, es);
      && (forall c: nat, d: nat :: RunsOn(r, t, c) && RunsOn(r, t, d) ==> c == d)
      && (forall k: nat, p: nat, j: nat, q: nat :: ListedIn(r, t, k, p) && ListedIn(r, t, j, q) ==> k == j && p == q)
      && (forall c: nat, k: nat, p: nat :: !(RunsOn(r, t, c) && ListedIn(r, t, k, p)))
      && (forall c: nat :: RunsOn(r, t, c) ==> t < |r.threads| && r.threads[t].oncpu == Some(c) && r.threads[t].bind in {c, r.cpus})
      && (forall c: nat :: t < |r.threads| && r.threads[t].oncpu == Some(c) ==> RunsOn(r, t, c))
      && (forall k: nat, p: nat :: ListedIn(r, t, k, p) ==>
            t < |r.threads| && r.threads[t].bind == k && NoDuplicates(r.tables[k].lists[p]))
  {
    InitialInv(s);
    if Legal(s, es) && t < |s.threads| {
      var r := After(s, es);
      forall k: nat, p: nat | ListedIn(r, t, k, p)
        ensures t < |r.threads| && QueuedAt(r.threads[t], k, p) && r.threads[t].oncpu.None? && NoDuplicates(r.tables[k].lists[p])
      {
        assert Has(r.tables[k], p, t) && Ok(r.tables[k]);
        assert ThreadPlaced(r.cpus, r.current, r.threads[t], t);
      }
      if t < |r.threads| { assert ThreadPlaced(r.cpus, r.current, r.threads[t], t); }
      forall c: nat | RunsOn(r, t, c)
        ensures t < |r.threads| && r.threads[t].oncpu == Some(c) && r.threads[t].bind in {c, r.cpus}
      {
        assert r.threads[t].oncpu == Some(c);
        assert ThreadPlaced(r.cpus, r.current, r.threads[t], t);
      }
    }
  }

  /** In every run the counters add up for every thread, and exactly the CPU inside the lock holds the spinlock. */
  lemma LockAccounting(s: State, es: seq<Event>)
    requires Initial(s)
    ensures Inv(s)
    ensures Legal(s, es) ==>
      var r := After(s, es);
      && (forall t :: 0 <= t < |r.threads| ==>
            r.threads[t].schedulerLockNest == r.threads[t].criticalLockNest + r.threads[t].preempts
              + (if r.threads[t].locks + r.threads[t].criticalLockNest > 0 then 1 else 0))
      && (forall c :: 0 <= c < |r.current| ==> (r.holder == Some(c) <==> Inside(r.threads, r.current[c])))
      && (forall c, d :: 0 <= c < d < |r.current| ==>
            !(Inside(r.threads, r.current[c]) && Inside(r.threads, r.current[d])))
  {
    InitialInv(s);
    if Legal(s, es) {
      var r := After(s, es);
      forall t | 0 <= t < |r.threads| ensures Accounted(r.threads[t]) {}
      forall c | 0 <= c < |r.current| ensures r.holder == Some(c) <==> Inside(r.threads, r.current[c]) {}
    }
  }

  /**
   A switch takes the CPU only from a thread that is in no critical section and has preemption
   enabled, and gives it to the most urgent thread the CPU may run.  The outgoing thread is inside
   the global lock, at least once.  rt_schedule leaves it there, however many locks are outstanding,
   and the spinlock goes with the CPU: it stays taken if the new thread is inside as well, and is
   given up otherwise.
   */
  lemma SwitchIsSafe(s: State, e: Event, t: Tid)
    requires Inv(s) && Enabled(s, e) && (e.Reschedule? || e.SwitchInIrq?) && s.current[e.c] == Some(t)
    ensures Step(s, e).current[e.c] != Some(t) ==>
      && s.threads[t].criticalLockNest == 0 && s.threads[t].preempts == 0
      && Step(s, e).current[e.c].Some? && IsHighest(s, e.c, Step(s, e).current[e.c].value,
                                                    s.threads[Step(s, e).current[e.c].value].priority)
    ensures Step(s, e).current[e.c] != Some(t) ==>
      && s.threads[t].cpusLockNest == s.threads[t].locks >= 1
      && LockGoesOn(s, e.c, t, Step(s, e), if e.Reschedule? then 0 else 1)
  {
    HolderOf(s, e.c, t);
    if e.Reschedule? { ScheduleLock(s, e.c, t); } else { IrqSwitchLock(s, e.c, t); }
  }

  /** CPU c has gone from thread t to the most urgent one it may run. */
  ghost predicate SwitchedSafely(s: State, c: nat, t: Tid, r: State, dropped: nat)
    requires t < |s.threads| && c < |r.current|
  {
    && s.threads[t].schedulerLockNest == 1 && r.current[c].Some? && LockGoesOn(s, c, t, r, dropped)
    && IsHighest(s, c, r.current[c].value, s.threads[r.current[c].value].priority)
  }

  /** The spinlock follows the incoming thread, and the outgoing one has given up `dropped` of its locks. */
  ghost predicate LockGoesOn(s: State, c: nat, t: Tid, r: State, dropped: nat)
    requires c < |r.current| && r.current[c].Some? && t < |s.threads|
  {
    var to := r.current[c].value;
    && to < |s.threads| && t < |r.threads|
    && r.holder == (if s.threads[to].cpusLockNest == 0 then None else Some(c))
    && r.threads[t].locks == s.threads[t].locks - dropped
    && r.threads[t].cpusLockNest == s.threads[t].cpusLockNest - dropped
  }

  lemma ScheduleLock(s: State, c: nat, t: Tid)
    requires Inv(s) && Runs(s, c, t) && s.holder == Some(c)
    ensures c < |Schedule(s, c, t).current|
    ensures Schedule(s, c, t).current[c] != Some(t) ==> SwitchedSafely(s, c, t, Schedule(s, c, t), 0)
  {
    if AnyReady(s, c) {
      var (to, h) := Highest(s, c);
      assert s.threads[t].oncpu == Some(c) && s.threads[to].priority == h;
      SwitchedThreads(s, c, t, to, h);
      SwitchedHolder(s, c, t, to, h);
    }
  }

  lemma SwitchedHolder(s: State, c: nat, t: Tid, to: Tid, h: nat)
    requires Inv(s) && Runs(s, c, t) && IsHighest(s, c, to, h) && to != t
    ensures SwitchTo(s, c, t, to).holder == if s.threads[to].cpusLockNest == 0 then None else Some(c)
  {
    PutAwayFiled(s, c, t);
    assert ThreadPlaced(s.cpus, s.current, s.threads[to], to);
  }

  lemma IrqSwitchLock(s: State, c: nat, t: Tid)
    requires Inv(s) && Runs(s, c, t) && s.holder == Some(c)
    ensures c < |IrqSwitch(s, c, t).current|
    ensures IrqSwitch(s, c, t).current[c] != Some(t) ==> SwitchedSafely(s, c, t, IrqSwitch(s, c, t), 1)
  {
    HolderOf(s, c, t);
    if LeavesInIrq(s, c, t) {
      var (to, h) := Highest(s, c);
      assert s.threads[t].oncpu == Some(c) && s.threads[to].priority == h;
      IrqSwitched(s, c, t, to, h);
    }
  }

  lemma IrqSwitched(s: State, c: nat, t: Tid, to: Tid, h: nat)
    requires Inv(s) && Runs(s, c, t) && LeavesInIrq(s, c, t) && (to, h) == Highest(s, c) && to != t
    ensures var q := s.(irqSwitch := s.irqSwitch[c := false]);
      && t < |PutAway(q, t).threads| && to < |PutAway(q, t).threads|
      && |IrqSwitch(s, c, t).threads| == |s.threads| && c < |IrqSwitch(s, c, t).current|
      && IrqSwitch(s, c, t).threads[t] == Dropped(Away(s.threads[t]))
      && IrqSwitch(s, c, t).current[c] == Some(to)
      && IrqSwitch(s, c, t).holder == if s.threads[to].cpusLockNest == 0 then None else Some(c)
  {
    var q := s.(irqSwitch := s.irqSwitch[c := false]);
    PutAwayFiled(q, c, t);
    assert ThreadPlaced(s.cpus, s.current, s.threads[to], to);
    var out := TakeOut(PutAway(q, t), to, Running, Some(c));
    assert out.threads[t] == Away(s.threads[t]) && out.threads[to].cpusLockNest == s.threads[to].cpusLockNest;
  }

  /** Left alone by interrupts and outside critical sections, rt_schedule leaves CPU c with nothing more urgent to run. */
  lemma ScheduleIsUrgent(s: State, c: nat, t: Tid)
    requires Inv(s) && Runs(s, c, t) && s.holder == Some(c) && s.irqNest[c] == 0 && s.threads[t].schedulerLockNest == 1
    ensures var r := Schedule(s, c, t);
      && Inv(r) && c < |r.current| && r.current[c].Some? && r.current[c].value < |r.threads|
      && forall x: Tid :: x < |r.threads| && r.threads[x].stat == Ready && r.threads[x].bind in {c, r.cpus} ==>
           r.threads[r.current[c].value].priority <= r.threads[x].priority
  {
    ScheduleInv(s, c, t);
    StillRuns(s, c, t);
    var r := Schedule(s, c, t);
    forall x: Tid | x < |r.threads| && r.threads[x].stat == Ready && r.threads[x].bind in {c, r.cpus}
      ensures r.threads[r.current[c].value].priority <= r.threads[x].priority
    {
      LessUrgent(s, c, t, x);
    }
  }

  lemma StillRuns(s: State, c: nat, t: Tid)
    requires Inv(s) && Runs(s, c, t)
    ensures var r := Schedule(s, c, t);
      r.cpus == s.cpus && c < |r.current| && r.current[c].Some? && r.current[c].value < |r.threads|
  {
    if s.irqNest[c] == 0 && s.threads[t].schedulerLockNest == 1 && AnyReady(s, c) {
      var (to, h) := Highest(s, c);
      assert s.threads[t].oncpu == Some(c);
      SwitchedThreads(s, c, t, to, h);
      assert Schedule(s, c, t) == if Keeps(s.threads[t], s.cpus, c, h) then StayOn(s, t) else SwitchTo(s, c, t, to);
    }
  }

  /** A switch leaves all threads but two as they were. */
  lemma SwitchedThreads(s: State, c: nat, t: Tid, to: Tid, h: nat)
    requires Inv(s) && Runs(s, c, t) && IsHighest(s, c, to, h) && to != t
    ensures var r := SwitchTo(s, c, t, to);
      && r.threads == s.threads[t := Away(s.threads[t])][to := s.threads[to].(stat := Running, oncpu := Some(c))]
      && c < |r.current| && r.current[c] == Some(to) && r.cpus == s.cpus
  {
    PutAwayFiled(s, c, t);
    assert ThreadPlaced(s.cpus, s.current, s.threads[to], to);
  }

  /** A thread displaced by priority h is no more urgent than that. */
  lemma DisplacedLess(s: State, c: nat, t: Tid, h: nat)
    requires Inv(s) && Runs(s, c, t) && !Keeps(s.threads[t], s.cpus, c, h)
    ensures Away(s.threads[t]).stat == Ready ==> h <= s.threads[t].priority
  {
    HolderOf(s, c, t);
    assert s.threads[t].oncpu == Some(c);
  }

  lemma SwitchLess(s: State, c: nat, t: Tid, to: Tid, h: nat, x: Tid)
    requires Inv(s) && Runs(s, c, t) && IsHighest(s, c, to, h) && to != t && !Keeps(s.threads[t], s.cpus, c, h)
    requires var r := SwitchTo(s, c, t, to);
      x < |r.threads| && r.threads[x].stat == Ready && r.threads[x].bind in {c, s.cpus}
    ensures var r := SwitchTo(s, c, t, to); h <= r.threads[x].priority && r.threads[to].priority == h
  {
    SwitchedThreads(s, c, t, to, h);
    DisplacedLess(s, c, t, h);
  }

  /** Whoever is ready after rt_schedule was ready before, or has just been displaced. */
  lemma LessUrgent(s: State, c: nat, t: Tid, x: Tid)
    requires Inv(s) && Runs(s, c, t) && s.irqNest[c] == 0 && s.threads[t].schedulerLockNest == 1
    requires var r := Schedule(s, c, t);
      x < |r.threads| && r.threads[x].stat == Ready && r.threads[x].bind in {c, s.cpus}
    ensures var r := Schedule(s, c, t);
      && c < |r.current| && r.current[c].Some? && r.current[c].value < |r.threads|
      && r.threads[r.current[c].value].priority <= r.threads[x].priority
  {
    if !AnyReady(s, c) {
      SomethingReady(s, c, x);
    } else {
      var (to, h) := Highest(s, c);
      assert s.threads[t].oncpu == Some(c);
      if !Keeps(s.threads[t], s.cpus, c, h) {
        SwitchedThreads(s, c, t, to, h);
        SwitchLess(s, c, t, to, h, x);
      }
    }
  }

  lemma SomethingReady(s: State, c: nat, x: Tid)
    requires Inv(s) && c < s.cpus && x < |s.threads| && s.threads[x].stat == Ready && s.threads[x].bind in {c, s.cpus}
    ensures AnyReady(s, c)
  {
    var k := s.threads[x].bind;
    HighestIsFirst(s.tables[k]);
    assert QueuedAt(s.threads[x], k, s.threads[x].priority);
    assert Has(s.tables[k], s.threads[x].priority, x);
    assert ThreadPlaced(s.cpus, s.current, s.threads[x], x);
  }
}
