/**
 The multiprocessor scheduler (scheduler_mp.c) and its locks (cpu.c) as a step machine over
 all CPUs.  A step is what one CPU does between taking and giving up control of shared state.
 */
module SmpScheduler {
  import opened Wrappers
  import opened ReadyTable

  datatype Stat = Running | Ready | Suspended

  /**
   locks and preempts count the thread's calls of rt_cpus_lock and _cpu_preempt_disable that
   have not been undone yet; the kernel keeps only their effect on the two nest counters.
   bind is a CPU, or the number of CPUs for a thread that may run anywhere.
   */
  datatype Thread = Thread(
    priority: nat,
    bind: nat,
    oncpu: Option<nat>,
    stat: Stat,
    yielded: bool,
    cpusLockNest: nat,
    schedulerLockNest: int,
    criticalLockNest: nat,
    locks: nat,
    preempts: nat)

  /** tables holds the ready lists of each CPU and, last, the global ones. */
  datatype State = State(
    cpus: nat,
    threads: seq<Thread>,
    current: seq<Option<Tid>>,
    tables: seq<Table>,
    holder: Option<nat>,
    irqNest: seq<nat>,
    irqSwitch: seq<bool>)

  // ---------- the invariant ----------

  predicate QueuedAt(th: Thread, k: nat, p: nat) {
    th.stat == Ready && th.bind == k && th.priority == p
  }

  /** The ready lists hold exactly the READY threads, each in the lists of its binding and priority. */
  ghost predicate Filed(threads: seq<Thread>, tables: seq<Table>) {
    && (forall k :: 0 <= k < |tables| ==> Ok(tables[k]))
    && (forall k: nat, p: nat, t: Tid :: 0 <= k < |tables| ==>
          (Has(tables[k], p, t) <==> t < |threads| && QueuedAt(threads[t], k, p)))
  }

  ghost predicate ThreadPlaced(cpus: nat, current: seq<Option<Tid>>, th: Thread, t: Tid) {
    && th.bind <= cpus && th.priority < PRIORITIES
    && (th.oncpu.None? ==> th.stat != Running)
    && (th.oncpu.Some? ==>
          && th.oncpu.value < |current| && current[th.oncpu.value] == Some(t)
          && th.stat != Ready
          && (th.bind == cpus || th.bind == th.oncpu.value))
  }

  /** oncpu is c exactly for the current thread of CPU c. */
  ghost predicate Placed(cpus: nat, threads: seq<Thread>, current: seq<Option<Tid>>) {
    && |current| == cpus
    && (forall c :: 0 <= c < cpus && current[c].Some? ==>
          current[c].value < |threads| && threads[current[c].value].oncpu == Some(c))
    && forall t :: 0 <= t < |threads| ==> ThreadPlaced(cpus, current, threads[t], t)
  }

  predicate Accounted(th: Thread) {
    && th.schedulerLockNest == th.criticalLockNest + th.preempts + (if th.cpusLockNest > 0 then 1 else 0)
    && th.cpusLockNest == th.locks + th.criticalLockNest
  }

  /** CPU c runs a thread that is inside the global lock. */
  predicate Inside(threads: seq<Thread>, cur: Option<Tid>) {
    cur.Some? && cur.value < |threads| && threads[cur.value].cpusLockNest > 0
  }

  /** The spinlock is held by the CPU whose current thread is inside, and by no other. */
  ghost predicate Held(threads: seq<Thread>, current: seq<Option<Tid>>, holder: Option<nat>) {
    && (holder.Some? ==> holder.value < |current|)
    && forall c :: 0 <= c < |current| ==> (holder == Some(c) <==> Inside(threads, current[c]))
  }

  ghost predicate AllAccounted(threads: seq<Thread>) {
    forall t :: 0 <= t < |threads| ==> Accounted(threads[t])
  }

  ghost predicate Inv(s: State) {
    && |s.tables| == s.cpus + 1 && |s.irqNest| == s.cpus && |s.irqSwitch| == s.cpus
    && Filed(s.threads, s.tables)
    && Placed(s.cpus, s.threads, s.current)
    && AllAccounted(s.threads)
    && Held(s.threads, s.current, s.holder)
  }

  /** CPU c is running thread t. */
  ghost predicate Runs(s: State, c: nat, t: Tid) {
    c < |s.current| && s.current[c] == Some(t) && t < |s.threads|
  }

  // ---------- cpu.c ----------

  /** rt_cpus_lock on CPU c, once the spinlock is to be had */
  function CpusLock(s: State, c: nat, t: Tid): State
    requires t < |s.threads|
  {
    var th := s.threads[t];
    var up := th.(cpusLockNest := th.cpusLockNest + 1, locks := th.locks + 1);
    if th.cpusLockNest == 0 then
      s.(threads := s.threads[t := up.(schedulerLockNest := th.schedulerLockNest + 1)], holder := Some(c))
    else s.(threads := s.threads[t := up])
  }

  function CpusUnlock(s: State, t: Tid): State
    requires t < |s.threads| && s.threads[t].cpusLockNest > 0 && s.threads[t].locks > 0
  {
    var th := s.threads[t];
    var down := th.(cpusLockNest := th.cpusLockNest - 1, locks := th.locks - 1);
    if down.cpusLockNest == 0 then
      s.(threads := s.threads[t := down.(schedulerLockNest := th.schedulerLockNest - 1)], holder := None)
    else s.(threads := s.threads[t := down])
  }

  function PreemptDisable(s: State, t: Tid): State
    requires t < |s.threads|
  {
    var th := s.threads[t];
    s.(threads := s.threads[t := th.(schedulerLockNest := th.schedulerLockNest + 1, preempts := th.preempts + 1)])
  }

  function PreemptEnable(s: State, t: Tid): State
    requires t < |s.threads| && s.threads[t].preempts > 0
  {
    var th := s.threads[t];
    s.(threads := s.threads[t := th.(schedulerLockNest := th.schedulerLockNest - 1, preempts := th.preempts - 1)])
  }

  /** rt_cpus_lock_status_restore: CPU c goes on with thread t, which may or may not want the lock. */
  function LockStatusRestore(s: State, c: nat, t: Tid): State
    requires c < |s.current| && t < |s.threads|
  {
    s.(current := s.current[c := Some(t)], holder := if s.threads[t].cpusLockNest == 0 then None else Some(c))
  }

  // ---------- critical sections ----------

  function EnterCritical(s: State, c: nat, t: Tid): State
    requires t < |s.threads|
  {
    var th := s.threads[t];
    var outer := th.cpusLockNest == 0;
    s.(threads := s.threads[t := th.(
         cpusLockNest := th.cpusLockNest + 1,
         schedulerLockNest := th.schedulerLockNest + (if outer then 1 else 0) + 1,
         criticalLockNest := th.criticalLockNest + 1)],
       holder := if outer then Some(c) else s.holder)
  }

  function ExitCritical(s: State, t: Tid): State
    requires t < |s.threads| && s.threads[t].criticalLockNest > 0 && s.threads[t].cpusLockNest > 0
  {
    var th := s.threads[t];
    var last := th.cpusLockNest == 1;
    var nest := th.schedulerLockNest - 1 - (if last then 1 else 0);
    s.(threads := s.threads[t := th.(
         cpusLockNest := th.cpusLockNest - 1,
         schedulerLockNest := if nest <= 0 then 0 else nest,
         criticalLockNest := th.criticalLockNest - 1)],
       holder := if last then None else s.holder)
  }

  // ---------- ready lists ----------

  /** rt_schedule_insert_thread */
  function InsertThread(s: State, t: Tid): State
    requires t < |s.threads| && s.threads[t].bind < |s.tables|
    requires s.threads[t].priority < |s.tables[s.threads[t].bind].lists|
  {
    var th := s.threads[t];
    if th.oncpu.Some? then s.(threads := s.threads[t := th.(stat := Running)])
    else
      s.(threads := s.threads[t := th.(stat := Ready)],
         tables := s.tables[th.bind := Insert(s.tables[th.bind], t, th.priority, th.yielded)])
  }

  /** rt_schedule_remove_thread, followed by a new stat for the thread */
  function TakeOut(s: State, t: Tid, stat: Stat, oncpu: Option<nat>): State
    requires t < |s.threads| && s.threads[t].bind < |s.tables|
    requires s.threads[t].priority < |s.tables[s.threads[t].bind].lists|
  {
    var th := s.threads[t];
    s.(threads := s.threads[t := th.(stat := stat, oncpu := oncpu)],
       tables := s.tables[th.bind := Remove(s.tables[th.bind], t, th.priority)])
  }

  /** What __rt_ffs of a ready group minus one is as an unsigned number: nothing ready is least urgent. */
  function Urgency(t: Table): nat
    requires t.group < 0x1_0000_0000
  {
    if t.group == 0 then 0xFFFF_FFFF else var h := HighestPriority(t); if h < 0 then 0 else h
  }

  /** The ready lists CPU c picks from: the global ones if more urgent than its own. */
  function Source(s: State, c: nat): nat
    requires c < |s.tables| && s.cpus < |s.tables|
    requires s.tables[c].group < 0x1_0000_0000 && s.tables[s.cpus].group < 0x1_0000_0000
  {
    if Urgency(s.tables[s.cpus]) < Urgency(s.tables[c]) then s.cpus else c
  }

  /** Something CPU c may run is ready. */
  predicate AnyReady(s: State, c: nat)
    requires c < |s.tables| && s.cpus < |s.tables|
  {
    s.tables[s.cpus].group != 0 || s.tables[c].group != 0
  }

  /** The choice of _scheduler_get_highest_priority_thread for CPU c. */
  ghost predicate IsHighest(s: State, c: nat, to: Tid, h: nat) {
    && to < |s.threads| && (QueuedAt(s.threads[to], c, h) || QueuedAt(s.threads[to], s.cpus, h))
    && s.threads[to].oncpu.None?
    && forall x: Tid :: x < |s.threads| && s.threads[x].stat == Ready && s.threads[x].bind in {c, s.cpus} ==>
      h <= s.threads[x].priority
  }

  ghost function Highest(s: State, c: nat): (r: (Tid, nat))
    requires Inv(s) && c < s.cpus && AnyReady(s, c)
    ensures IsHighest(s, c, r.0, r.1)
  {
    HighestIsFirst(s.tables[c]);
    HighestIsFirst(s.tables[s.cpus]);
    var k := Source(s, c);
    var h := Urgency(s.tables[k]);
    HighestFound(s, c);
    (s.tables[k].lists[h][0], h)
  }

  lemma TableUrgency(s: State, k: nat, x: Tid)
    requires Inv(s) && k < |s.tables| && x < |s.threads| && s.threads[x].stat == Ready && s.threads[x].bind == k
    ensures s.tables[k].group < 0x1_0000_0000 && Urgency(s.tables[k]) <= s.threads[x].priority
  {
    HighestIsFirst(s.tables[k]);
    assert QueuedAt(s.threads[x], k, s.threads[x].priority);
    assert Has(s.tables[k], s.threads[x].priority, x);
  }

  lemma HighestFound(s: State, c: nat)
    requires Inv(s) && c < s.cpus && AnyReady(s, c)
    ensures s.tables[c].group < 0x1_0000_0000 && s.tables[s.cpus].group < 0x1_0000_0000
    ensures var k := Source(s, c);
      var h := Urgency(s.tables[k]);
      && s.tables[k].group > 0 && h < PRIORITIES && s.tables[k].lists[h] != []
      && IsHighest(s, c, s.tables[k].lists[h][0], h)
  {
    HighestIsFirst(s.tables[c]);
    HighestIsFirst(s.tables[s.cpus]);
    var k := Source(s, c);
    var h := Urgency(s.tables[k]);
    var to := s.tables[k].lists[h][0];
    assert Has(s.tables[k], h, to);
    assert ThreadPlaced(s.cpus, s.current, s.threads[to], to);
    forall x: Tid | x < |s.threads| && s.threads[x].stat == Ready && s.threads[x].bind in {c, s.cpus}
      ensures h <= s.threads[x].priority
    {
      TableUrgency(s, s.threads[x].bind, x);
    }
  }

  /** The running thread th of CPU c stays where it is rather than make way for priority h. */
  predicate Keeps(th: Thread, cpus: nat, c: nat, h: nat) {
    && th.stat == Running && (th.bind == cpus || th.bind == c)
    && (th.priority < h || (th.priority == h && !th.yielded))
  }

  /** The outgoing thread: detached, back on its ready list if it still could run, its slice flag cleared. */
  function PutAway(s: State, t: Tid): State
    requires t < |s.threads| && s.threads[t].bind < |s.tables|
    requires s.threads[t].priority < |s.tables[s.threads[t].bind].lists|
  {
    var off := s.(threads := s.threads[t := s.threads[t].(oncpu := None)]);
    if s.threads[t].stat == Running then
      var r := InsertThread(off, t);
      r.(threads := r.threads[t := r.threads[t].(yielded := false)])
    else off
  }

  function StayOn(s: State, t: Tid): State
    requires t < |s.threads|
  {
    s.(threads := s.threads[t := s.threads[t].(yielded := false)])
  }

  /** From the choice of `to` up to and including the switch of CPU c. */
  ghost function SwitchTo(s: State, c: nat, t: Tid, to: Tid): State
    requires Inv(s) && Runs(s, c, t) && to < |s.threads| && to != t
  {
    LockStatusRestore(TakeOut(PutAway(s, t), to, Running, Some(c)), c, to)
  }

  /** rt_schedule, with the global lock taken */
  ghost function Schedule(s: State, c: nat, t: Tid): State
    requires Inv(s) && Runs(s, c, t)
  {
    if s.irqNest[c] > 0 then s.(irqSwitch := s.irqSwitch[c := true])
    else if s.threads[t].schedulerLockNest != 1 || !AnyReady(s, c) then s
    else
      var (to, h) := Highest(s, c);
      if Keeps(s.threads[t], s.cpus, c, h) then StayOn(s, t) else SwitchTo(s, c, t, to)
  }

  /** rt_scheduler_do_irq_switch, with the global lock taken: the lock is dropped for the outgoing thread. */
  ghost function IrqSwitch(s: State, c: nat, t: Tid): State
    requires Inv(s) && Runs(s, c, t)
  {
    if !s.irqSwitch[c] || s.threads[t].schedulerLockNest != 1 || s.irqNest[c] > 0 then s
    else
      var r := s.(irqSwitch := s.irqSwitch[c := false]);
      if !AnyReady(s, c) then r
      else
        var (to, h) := Highest(s, c);
        if Keeps(s.threads[t], s.cpus, c, h) then StayOn(r, t)
        else LockStatusRestore(DropLock(TakeOut(PutAway(r, t), to, Running, Some(c)), t), c, to)
  }

  /** rt_scheduler_do_irq_switch takes CPU c from its thread t. */
  ghost predicate LeavesInIrq(s: State, c: nat, t: Tid)
    requires Inv(s) && Runs(s, c, t)
  {
    && s.irqSwitch[c] && s.threads[t].schedulerLockNest == 1 && s.irqNest[c] == 0
    && AnyReady(s, c) && !Keeps(s.threads[t], s.cpus, c, Highest(s, c).1)
  }

  /** The outgoing thread of a switch in an interrupt leaves the lock and the scheduler lock behind. */
  function DropLock(s: State, t: Tid): State
    requires t < |s.threads|
  {
    s.(threads := s.threads[t := Dropped(s.threads[t])])
  }

  function Dropped(th: Thread): Thread {
    th.(cpusLockNest := if th.cpusLockNest > 0 then th.cpusLockNest - 1 else 0,
        schedulerLockNest := th.schedulerLockNest - 1,
        locks := if th.locks > 0 then th.locks - 1 else 0)
  }

  /** rt_system_scheduler_start on CPU c */
  ghost function Start(s: State, c: nat): State
    requires Inv(s) && c < s.cpus && AnyReady(s, c)
  {
    var (to, _) := Highest(s, c);
    var r := TakeOut(s, to, Running, Some(c));
    LockStatusRestore(r.(threads := r.threads[to := r.threads[to].(yielded := false)]), c, to)
  }

  /** RT_THREAD_CTRL_CHANGE_PRIORITY */
  ghost function ChangePriority(s: State, t: Tid, p: nat): State
    requires Inv(s) && t < |s.threads| && p < PRIORITIES
  {
    if s.threads[t].stat == Ready then
      var r := TakeOut(s, t, Suspended, s.threads[t].oncpu);
      InsertThread(r.(threads := r.threads[t := r.threads[t].(priority := p)]), t)
    else s.(threads := s.threads[t := s.threads[t].(priority := p)])
  }
}
