/** What sequences of calls come to on several processors: how often locks are held, and when a CPU changes hands. */
module SmpCalls {
  import opened Wrappers
  import opened ReadyTable
  import opened SmpScheduler
  import opened SmpRuns

  // ---------- a switch asked for in an interrupt ----------

  /** rt_schedule in an interrupt switches nothing and leaves a note. */
  lemma NoteTaken(s: State, c: nat, t: Tid)
    requires Inv(s) && Runs(s, c, t) && s.holder == Some(c) && s.irqNest[c] > 0
    ensures Enabled(s, Reschedule(c))
    ensures var r := Step(s, Reschedule(c)); r.current == s.current && r.threads == s.threads && c < |r.irqSwitch| && r.irqSwitch[c]
  {
  }

  lemma ScheduleNotes(s: State, d: nat, t: Tid)
    requires Inv(s) && Runs(s, d, t)
    ensures |Schedule(s, d, t).irqSwitch| == |s.irqSwitch|
    ensures forall c :: 0 <= c < |s.irqSwitch| && s.irqSwitch[c] ==> Schedule(s, d, t).irqSwitch[c]
  {
  }

  lemma IrqSwitchNotes(s: State, d: nat, t: Tid)
    requires Inv(s) && Runs(s, d, t)
    ensures |IrqSwitch(s, d, t).irqSwitch| == |s.irqSwitch|
    ensures forall c :: 0 <= c < |s.irqSwitch| && c != d ==> IrqSwitch(s, d, t).irqSwitch[c] == s.irqSwitch[c]
  {
  }

  /** The note stays until rt_scheduler_do_irq_switch on that CPU. */
  lemma NoteKept(s: State, e: Event, c: nat)
    requires Inv(s) && Enabled(s, e) && c < |s.irqSwitch| && s.irqSwitch[c] && e != SwitchInIrq(c)
    ensures c < |Step(s, e).irqSwitch| && Step(s, e).irqSwitch[c]
  {
    if e.Reschedule? {
      ScheduleNotes(s, e.c, s.current[e.c].value);
    } else if e.SwitchInIrq? {
      IrqSwitchNotes(s, e.c, s.current[e.c].value);
    } else {
      OthersNote(s, e);
    }
  }

  lemma OthersNote(s: State, e: Event)
    requires Inv(s) && Enabled(s, e) && !e.Reschedule? && !e.SwitchInIrq?
    ensures Step(s, e).irqSwitch == s.irqSwitch
  {
  }

  /** Nothing CPU c may run is more urgent than its current thread. */
  ghost predicate UrgentRuns(r: State, c: nat) {
    && c < |r.current| && r.current[c].Some? && r.current[c].value < |r.threads|
    && forall x: Tid :: x < |r.threads| && r.threads[x].stat == Ready && r.threads[x].bind in {c, r.cpus} ==>
         r.threads[r.current[c].value].priority <= r.threads[x].priority
  }

  /** With a note, the switch at the end of the interrupt leaves the most urgent thread on the CPU and takes the note back. */
  lemma NotedSwitchHappens(s: State, c: nat, t: Tid)
    requires Inv(s) && Runs(s, c, t) && s.holder == Some(c) && s.threads[t].locks == 1
    requires s.irqSwitch[c] && s.irqNest[c] == 0 && s.threads[t].schedulerLockNest == 1
    ensures Enabled(s, SwitchInIrq(c))
    ensures UrgentRuns(Step(s, SwitchInIrq(c)), c)
    ensures c < |Step(s, SwitchInIrq(c)).irqSwitch| && !Step(s, SwitchInIrq(c)).irqSwitch[c]
  {
    HolderOf(s, c, t);
    if !AnyReady(s, c) {
      NothingReady(s, c);
    } else if LeavesInIrq(s, c, t) {
      NotedSwitchOut(s, c, t);
    } else {
      NotedStay(s, c, t);
    }
  }

  lemma NothingReady(s: State, c: nat)
    requires Inv(s) && c < s.cpus && !AnyReady(s, c)
    ensures forall x: Tid :: x < |s.threads| && s.threads[x].bind in {c, s.cpus} ==> s.threads[x].stat != Ready
  {
    forall x: Tid | x < |s.threads| && s.threads[x].bind in {c, s.cpus} ensures s.threads[x].stat != Ready {
      if s.threads[x].stat == Ready { SmpRuns.SomethingReady(s, c, x); }
    }
  }

  lemma NotedStay(s: State, c: nat, t: Tid)
    requires Inv(s) && Runs(s, c, t) && !LeavesInIrq(s, c, t) && AnyReady(s, c)
    requires s.irqSwitch[c] && s.irqNest[c] == 0 && s.threads[t].schedulerLockNest == 1
    ensures UrgentRuns(IrqSwitch(s, c, t), c) && !IrqSwitch(s, c, t).irqSwitch[c]
  {
    var (to, h) := Highest(s, c);
  }

  lemma NotedSwitchOut(s: State, c: nat, t: Tid)
    requires Inv(s) && Runs(s, c, t) && LeavesInIrq(s, c, t)
    ensures UrgentRuns(IrqSwitch(s, c, t), c) && !IrqSwitch(s, c, t).irqSwitch[c]
  {
    var (to, h) := Highest(s, c);
    assert s.threads[t].oncpu == Some(c);
    IrqSwitchedThreads(s, c, t, to, h);
    DisplacedLess(s, c, t, h);
  }

  lemma IrqSwitchedThreads(s: State, c: nat, t: Tid, to: Tid, h: nat)
    requires Inv(s) && Runs(s, c, t) && LeavesInIrq(s, c, t) && (to, h) == Highest(s, c) && to != t
    ensures var r := IrqSwitch(s, c, t);
      && r.threads == s.threads[t := Dropped(Away(s.threads[t]))][to := s.threads[to].(stat := Running, oncpu := Some(c))]
      && r.cpus == s.cpus && c < |r.current| && r.current[c] == Some(to) && r.irqSwitch == s.irqSwitch[c := false]
  {
    var q := s.(irqSwitch := s.irqSwitch[c := false]);
    PutAwayFiled(q, c, t);
    assert ThreadPlaced(s.cpus, s.current, s.threads[to], to);
  }

  // ---------- the lock counters count calls ----------

  /** Calls of a thread that are still to be undone: rt_cpus_lock, rt_enter_critical, _cpu_preempt_disable. */
  datatype Calls = Calls(locks: int, critical: int, preempts: int)

  function CallsOf(th: Thread): Calls { Calls(th.locks, th.criticalLockNest, th.preempts) }

  /** What an event does to the open calls of thread x: only the thread on the CPU of the event makes calls. */
  function Made(n: Calls, e: Event, caller: Option<Tid>, leaves: bool, x: Tid): Calls {
    if caller != Some(x) then n
    else
      match e
      case Lock(_) => n.(locks := n.locks + 1)
      case Unlock(_) => n.(locks := n.locks - 1)
      case Enter(_) => n.(critical := n.critical + 1)
      case Exit(_) => n.(critical := n.critical - 1)
      case Disable(_) => n.(preempts := n.preempts + 1)
      case Enable(_) => n.(preempts := n.preempts - 1)
      case SwitchInIrq(_) => if leaves then n.(locks := n.locks - 1) else n
      case _ => n
  }

  ghost predicate SameCalls(s: State, r: State) {
    |r.threads| == |s.threads| && forall x: Tid :: x < |s.threads| ==> CallsOf(r.threads[x]) == CallsOf(s.threads[x])
  }

  lemma ScheduleCalls(s: State, c: nat, t: Tid)
    requires Inv(s) && Runs(s, c, t)
    ensures SameCalls(s, Schedule(s, c, t))
  {
    if s.irqNest[c] == 0 && s.threads[t].schedulerLockNest == 1 && AnyReady(s, c) {
      var (to, h) := Highest(s, c);
      assert s.threads[t].oncpu == Some(c);
      SwitchedThreads(s, c, t, to, h);
      AwayCalls(s.threads[t]);
      assert Schedule(s, c, t) == if Keeps(s.threads[t], s.cpus, c, h) then StayOn(s, t) else SwitchTo(s, c, t, to);
    }
  }

  lemma IrqSwitchCalls(s: State, c: nat, t: Tid, x: Tid)
    requires Inv(s) && Runs(s, c, t) && s.holder == Some(c) && x < |s.threads|
    ensures var r := IrqSwitch(s, c, t);
      && |r.threads| == |s.threads| && c < |r.current|
      && CallsOf(r.threads[x]) == Made(CallsOf(s.threads[x]), SwitchInIrq(c), Some(t), r.current[c] != Some(t), x)
  {
    if LeavesInIrq(s, c, t) { IrqLeaveCalls(s, c, t, x); } else { IrqStayCalls(s, c, t); }
  }

  lemma IrqLeaveCalls(s: State, c: nat, t: Tid, x: Tid)
    requires Inv(s) && Runs(s, c, t) && s.holder == Some(c) && x < |s.threads| && LeavesInIrq(s, c, t)
    ensures var r := IrqSwitch(s, c, t);
      && |r.threads| == |s.threads| && c < |r.current| && r.current[c] != Some(t)
      && CallsOf(r.threads[x]) == Made(CallsOf(s.threads[x]), SwitchInIrq(c), Some(t), true, x)
  {
    var (to, h) := Highest(s, c);
    assert s.threads[t].oncpu == Some(c);
    IrqSwitchedThreads(s, c, t, to, h);
    InsideOnce(s, c, t);
    AwayCalls(s.threads[t]);
  }

  lemma InsideOnce(s: State, c: nat, t: Tid)
    requires Inv(s) && Runs(s, c, t) && s.holder == Some(c) && s.threads[t].schedulerLockNest == 1
    ensures s.threads[t].locks > 0
  {
    HolderOf(s, c, t);
  }

  lemma AwayCalls(th: Thread)
    ensures CallsOf(Away(th)) == CallsOf(th)
    ensures th.locks > 0 ==> CallsOf(Dropped(Away(th))) == CallsOf(th).(locks := th.locks - 1)
  {
  }

  lemma IrqStayCalls(s: State, c: nat, t: Tid)
    requires Inv(s) && Runs(s, c, t) && !LeavesInIrq(s, c, t)
    ensures SameCalls(s, IrqSwitch(s, c, t)) && IrqSwitch(s, c, t).current == s.current
  {
  }

  lemma ReadyListCalls(s: State, c: nat, t: Tid, x: Tid, p: nat)
    requires Inv(s) && Runs(s, c, t) && x < |s.threads| && p < PRIORITIES
    ensures s.threads[t].bind < |s.tables| && s.threads[t].priority < |s.tables[s.threads[t].bind].lists|
    ensures SameCalls(s, TakeOut(s, t, Suspended, Some(c))) && SameCalls(s, ChangePriority(s, x, p))
    ensures s.threads[x].stat == Suspended ==>
      s.threads[x].bind < |s.tables| && s.threads[x].priority < |s.tables[s.threads[x].bind].lists| && SameCalls(s, InsertThread(s, x))
  {
    SuspendInv(s, c, t);
    assert ThreadPlaced(s.cpus, s.current, s.threads[x], x) && Ok(s.tables[s.threads[x].bind]);
  }

  lemma StartCalls(s: State, c: nat)
    requires Inv(s) && c < s.cpus && AnyReady(s, c)
    ensures SameCalls(s, Start(s, c))
  {
    var (to, h) := Highest(s, c);
    assert ThreadPlaced(s.cpus, s.current, s.threads[to], to) && Ok(s.tables[s.threads[to].bind]);
  }

  /** The events that move threads about rather than count. */
  predicate Moves(e: Event) { e.Resume? || e.SetPriority? || e.Suspend? || e.Reschedule? }

  lemma MoveCalls(s: State, e: Event, t: Tid)
    requires Inv(s) && EnabledOn(s, e, t) && Moves(e)
    ensures SameCalls(s, StepOn(s, e, t)) && e.c < |StepOn(s, e, t).current|
  {
    match e
    case Resume(c, y) => ReadyListCalls(s, c, t, y, 0);
    case SetPriority(c, y, p) => ReadyListCalls(s, c, t, y, p);
    case Suspend(c) => ReadyListCalls(s, c, t, t, 0);
    case Reschedule(c) => ScheduleCalls(s, c, t); StillRuns(s, c, t);
  }

  lemma StepCalls(s: State, e: Event, x: Tid)
    requires Inv(s) && Enabled(s, e) && x < |s.threads|
    ensures |Step(s, e).threads| == |s.threads| && e.c < |Step(s, e).current|
    ensures CallsOf(Step(s, e).threads[x]) ==
      Made(CallsOf(s.threads[x]), e, s.current[e.c], Step(s, e).current[e.c] != s.current[e.c], x)
  {
    if e.Begin? {
      StartCalls(s, e.c);
    } else {
      var t := s.current[e.c].value;
      if Moves(e) {
        MoveCalls(s, e, t);
      } else if e.SwitchInIrq? {
        IrqSwitchCalls(s, e.c, t, x);
      } else {
        CountCalls(s, e, t, x);
      }
    }
  }

  lemma CountCalls(s: State, e: Event, t: Tid, x: Tid)
    requires Inv(s) && EnabledOn(s, e, t) && !Moves(e) && !e.SwitchInIrq? && x < |s.threads|
    ensures |StepOn(s, e, t).threads| == |s.threads| && StepOn(s, e, t).current == s.current
    ensures CallsOf(StepOn(s, e, t).threads[x]) == Made(CallsOf(s.threads[x]), e, Some(t), false, x)
  {
    HolderOf(s, e.c, t);
  }

  /** The open calls of thread x after a run. */
  ghost function Open(s: State, es: seq<Event>, x: Tid): Calls
    requires Inv(s) && Legal(s, es)
    decreases |es|
  {
    if es == [] then Calls(0, 0, 0)
    else
      var before, e := es[..|es| - 1], es[|es| - 1];
      var p := After(s, before);
      CpuThere(p, e);
      Made(Open(s, before, x), e, p.current[e.c], Step(p, e).current[e.c] != p.current[e.c], x)
  }

  lemma CpuThere(s: State, e: Event)
    requires Inv(s) && Enabled(s, e)
    ensures e.c < |s.current| && e.c < |Step(s, e).current|
  {
  }

  lemma {:induction false} RunCalls(s: State, es: seq<Event>, x: Tid)
    requires Inv(s) && Legal(s, es) && x < |s.threads| && CallsOf(s.threads[x]) == Calls(0, 0, 0)
    ensures |After(s, es).threads| == |s.threads| && CallsOf(After(s, es).threads[x]) == Open(s, es, x)
    decreases |es|
  {
    if es != [] {
      var before, e := es[..|es| - 1], es[|es| - 1];
      RunCalls(s, before, x);
      StepCalls(After(s, before), e, x);
    }
  }

  /**
   In every run the counters of every thread are those of its calls: critical_lock_nest is the
   number of critical sections it is in, cpus_lock_nest that and its open calls of rt_cpus_lock,
   scheduler_lock_nest its critical sections, open preempt-disables, and one if it is inside the lock.
   */
  lemma CountersCountCalls(s: State, es: seq<Event>, x: Tid)
    requires Initial(s) && x < |s.threads|
    ensures Inv(s)
    ensures Legal(s, es) ==>
      x < |After(s, es).threads| &&
      var th, n := After(s, es).threads[x], Open(s, es, x);
      && th.criticalLockNest == n.critical && th.cpusLockNest == n.locks + n.critical
      && th.schedulerLockNest == n.critical + n.preempts + (if n.locks + n.critical > 0 then 1 else 0)
  {
    InitialInv(s);
    if Legal(s, es) {
      assert FreshThread(s.cpus, s.threads[x]);
      RunCalls(s, es, x);
      assert Accounted(After(s, es).threads[x]);
    }
  }

  // ---------- who gets the CPU ----------

  /** A thread that has yielded makes way for one of the same priority; one that has not stays on. */
  lemma YieldMakesWay(s: State, c: nat, t: Tid, x: Tid)
    requires Inv(s) && Runs(s, c, t) && s.holder == Some(c) && s.irqNest[c] == 0 && s.threads[t].schedulerLockNest == 1
    requires s.threads[t].stat == Running && s.threads[t].bind in {c, s.cpus}
    requires x < |s.threads| && s.threads[x].stat == Ready && s.threads[x].bind in {c, s.cpus}
    requires s.threads[x].priority == s.threads[t].priority
    requires forall y: Tid :: y < |s.threads| && s.threads[y].stat == Ready && s.threads[y].bind in {c, s.cpus} ==>
      s.threads[t].priority <= s.threads[y].priority
    ensures Enabled(s, Reschedule(c)) && c < |Step(s, Reschedule(c)).current|
    ensures Step(s, Reschedule(c)).current[c] == Some(t) <==> !s.threads[t].yielded
  {
    SmpRuns.SomethingReady(s, c, x);
    var (to, h) := Highest(s, c);
    assert s.threads[t].oncpu == Some(c);
    SwitchedThreads(s, c, t, to, h);
  }

  /** A resumed thread more urgent than everything else CPU c may run gets the CPU at rt_schedule. */
  lemma ResumeRuns(s: State, c: nat, t: Tid, x: Tid)
    requires Inv(s) && Runs(s, c, t) && s.holder == Some(c) && s.irqNest[c] == 0 && s.threads[t].schedulerLockNest == 1
    requires x < |s.threads| && s.threads[x].stat == Ready && s.threads[x].bind in {c, s.cpus}
    requires forall y: Tid :: y < |s.threads| && y != x && (y == t || s.threads[y].stat == Ready) && s.threads[y].bind in {c, s.cpus} ==>
      s.threads[x].priority < s.threads[y].priority
    ensures Enabled(s, Reschedule(c)) && c < |Step(s, Reschedule(c)).current| && Step(s, Reschedule(c)).current[c] == Some(x)
  {
    SmpRuns.SomethingReady(s, c, x);
    var (to, h) := Highest(s, c);
    assert s.threads[t].oncpu == Some(c);
    HolderOf(s, c, t);
    assert to == x;
    SwitchedThreads(s, c, t, to, h);
  }

  /** A running thread displaced by a more urgent one goes back to the front of its list, or to the end if it has yielded or used up its slice. */
  lemma DisplacedPlace(s: State, c: nat, t: Tid)
    requires Inv(s) && Runs(s, c, t) && s.holder == Some(c) && s.irqNest[c] == 0 && s.threads[t].schedulerLockNest == 1
    requires s.threads[t].stat == Running && AnyReady(s, c) && Highest(s, c).1 < s.threads[t].priority
    ensures var r, b, p := Schedule(s, c, t), s.threads[t].bind, s.threads[t].priority;
      && b < |s.tables| && b < |r.tables| && p < |s.tables[b].lists| && p < |r.tables[b].lists|
      && r.tables[b].lists[p] == if s.threads[t].yielded then s.tables[b].lists[p] + [t] else [t] + s.tables[b].lists[p]
  {
    var (to, h) := Highest(s, c);
    assert s.threads[t].oncpu == Some(c);
    PutAwayFiled(s, c, t);
    var b, p, m := s.threads[t].bind, s.threads[t].priority, PutAway(s, t);
    assert m.tables == s.tables[b := Insert(s.tables[b], t, p, s.threads[t].yielded)];
    assert ThreadPlaced(s.cpus, s.current, s.threads[to], to) && Ok(m.tables[s.threads[to].bind]);
    assert Schedule(s, c, t) == SwitchTo(s, c, t, to);
  }

  // ---------- the other events ----------

  /** A thread in a list: at the end if it has yielded or used up its slice, else at the front. */
  ghost predicate QueuedIn(before: seq<Tid>, after: seq<Tid>, t: Tid, yielded: bool) {
    after == if yielded then before + [t] else [t] + before
  }

  /** A resumed thread that is still on its CPU runs on there; any other joins the list of its binding and priority. */
  lemma ResumedPlace(s: State, c: nat, x: Tid)
    requires Inv(s) && Enabled(s, Resume(c, x))
    ensures var r, b, p := Step(s, Resume(c, x)), s.threads[x].bind, s.threads[x].priority;
      && x < |r.threads| && r.current == s.current
      && b < |s.tables| && b < |r.tables| && p < |s.tables[b].lists| && p < |r.tables[b].lists|
      && r.threads[x].stat == (if s.threads[x].oncpu.Some? then Running else Ready)
      && (s.threads[x].oncpu.None? ==> QueuedIn(s.tables[b].lists[p], r.tables[b].lists[p], x, s.threads[x].yielded))
  {
    ResumeInv(s, x);
  }

  /** A new priority takes effect at once, and a READY thread moves to the list of that priority. */
  lemma PriorityTakesEffect(s: State, c: nat, x: Tid, p: nat)
    requires Inv(s) && Enabled(s, SetPriority(c, x, p))
    ensures var r, b := Step(s, SetPriority(c, x, p)), s.threads[x].bind;
      && r.current == s.current && |r.threads| == |s.threads| && b < |s.tables| && b < |r.tables|
      && r.threads[x] == s.threads[x].(priority := p)
      && (s.threads[x].stat == Ready && s.threads[x].priority != p ==>
            p < |s.tables[b].lists| && p < |r.tables[b].lists|
            && QueuedIn(s.tables[b].lists[p], r.tables[b].lists[p], x, s.threads[x].yielded))
  {
    assert ThreadPlaced(s.cpus, s.current, s.threads[x], x) && Ok(s.tables[s.threads[x].bind]);
  }

  /** A CPU starts with a thread than which nothing it may run is more urgent. */
  lemma StartRuns(s: State, c: nat)
    requires Inv(s) && Enabled(s, Begin(c))
    ensures UrgentRuns(Step(s, Begin(c)), c)
    ensures var r := Step(s, Begin(c)); r.threads[r.current[c].value].stat == Running
  {
    var (to, h) := Highest(s, c);
    assert ThreadPlaced(s.cpus, s.current, s.threads[to], to) && Ok(s.tables[s.threads[to].bind]);
  }

  /** A thread that suspends itself is off its CPU after rt_schedule, if the CPU may run anything else. */
  lemma SuspendLeaves(s: State, c: nat, t: Tid, x: Tid)
    requires Inv(s) && Runs(s, c, t) && s.holder == Some(c) && s.irqNest[c] == 0 && s.threads[t].schedulerLockNest == 1
    requires x < |s.threads| && s.threads[x].stat == Ready && s.threads[x].bind in {c, s.cpus}
    ensures Enabled(s, Suspend(c)) && Enabled(Step(s, Suspend(c)), Reschedule(c))
    ensures var r := Step(Step(s, Suspend(c)), Reschedule(c));
      c < |r.current| && r.current[c] != Some(t) && t < |r.threads| && r.threads[t].stat == Suspended && r.threads[t].oncpu.None?
  {
    var q := Suspends(s, c, t, x);
    SmpRuns.SomethingReady(q, c, x);
    var (to, h) := Highest(q, c);
    assert q.threads[t].oncpu == Some(c);
    SwitchedThreads(q, c, t, to, h);
  }

  lemma Suspends(s: State, c: nat, t: Tid, x: Tid) returns (q: State)
    requires Inv(s) && Runs(s, c, t) && s.holder == Some(c) && x < |s.threads| && s.threads[x].stat == Ready
    ensures Enabled(s, Suspend(c)) && q == Step(s, Suspend(c)) && Runs(q, c, t) && q.holder == Some(c)
    ensures q.irqNest == s.irqNest && |q.threads| == |s.threads|
    ensures q.threads[t] == s.threads[t].(stat := Suspended) && q.threads[x] == s.threads[x]
  {
    q := Step(s, Suspend(c));
    assert s.threads[t].oncpu == Some(c);
  }

  /** Interrupts not yet left on CPU c. */
  function IrqDepth(es: seq<Event>, c: nat): int {
    if es == [] then 0
    else
      var d := IrqDepth(es[..|es| - 1], c);
      match es[|es| - 1]
      case IrqEnter(k) => if k == c then d + 1 else d
      case IrqLeave(k) => if k == c then d - 1 else d
      case _ => d
  }

  /** In every run irq_nest of a CPU is the number of interrupts it has entered and not left. */
  lemma {:induction false} IrqCounts(s: State, es: seq<Event>, c: nat)
    requires Inv(s) && Legal(s, es) && c < |s.irqNest| && s.irqNest[c] == 0
    ensures c < |After(s, es).irqNest| && After(s, es).irqNest[c] == IrqDepth(es, c)
    decreases |es|
  {
    if es != [] {
      var before, e := es[..|es| - 1], es[|es| - 1];
      IrqCounts(s, before, c);
      StepIrq(After(s, before), e);
    }
  }

  lemma StepIrq(s: State, e: Event)
    requires Inv(s) && Enabled(s, e)
    ensures !e.IrqEnter? && !e.IrqLeave? ==> Step(s, e).irqNest == s.irqNest
    ensures e.IrqEnter? ==> e.c < |s.irqNest| && Step(s, e).irqNest == s.irqNest[e.c := s.irqNest[e.c] + 1]
    ensures e.IrqLeave? ==> e.c < |s.irqNest| && Step(s, e).irqNest == s.irqNest[e.c := s.irqNest[e.c] - 1]
  {
    if e.Begin? {
      var (to, h) := Highest(s, e.c);
      assert ThreadPlaced(s.cpus, s.current, s.threads[to], to) && Ok(s.tables[s.threads[to].bind]);
    } else if e.Reschedule? {
      ScheduleIrq(s, e.c, s.current[e.c].value);
    } else if e.SwitchInIrq? {
      IrqSwitchIrq(s, e.c, s.current[e.c].value);
    }
  }

  lemma ScheduleIrq(s: State, c: nat, t: Tid)
    requires Inv(s) && Runs(s, c, t)
    ensures Schedule(s, c, t).irqNest == s.irqNest
  {
  }

  lemma IrqSwitchIrq(s: State, c: nat, t: Tid)
    requires Inv(s) && Runs(s, c, t)
    ensures IrqSwitch(s, c, t).irqNest == s.irqNest
  {
  }
}
