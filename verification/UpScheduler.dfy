/** The uniprocessor scheduler (scheduler_up.c) and the time slice of rt_tick_increase (clock.c). */
module UpScheduler {
  import opened Bits
  import opened ReadyTable

  datatype Stat = Running | Ready | Suspended

  datatype Thread = Thread(priority: nat, stat: Stat, yielded: bool, remaining: int, initTick: nat)

  datatype State = State(threads: seq<Thread>, table: Table, current: Tid, lockNest: int)

  predicate QueuedAt(th: Thread, p: nat) { th.stat == Ready && th.priority == p }

  /** The ready lists hold exactly the READY threads. */
  ghost predicate Filed(threads: seq<Thread>, table: Table) {
    && Ok(table)
    && forall p: nat, t: Tid :: Has(table, p, t) <==> t < |threads| && QueuedAt(threads[t], p)
  }

  ghost predicate Inv(s: State) {
    && Filed(s.threads, s.table)
    && s.current < |s.threads| && s.threads[s.current].stat != Ready
    && (forall t :: 0 <= t < |s.threads| ==> s.threads[t].priority < PRIORITIES)
    && (forall t :: 0 <= t < |s.threads| && t != s.current ==> s.threads[t].stat != Running)
  }

  lemma FiledSame(threads: seq<Thread>, table: Table, t: Tid, th: Thread)
    requires Filed(threads, table) && t < |threads|
    requires threads[t].stat == Ready <==> th.stat == Ready
    requires th.stat == Ready ==> th.priority == threads[t].priority
    ensures Filed(threads[t := th], table)
  {
    forall p: nat, x: Tid ensures Has(table, p, x) <==> x < |threads| && QueuedAt(threads[t := th][x], p) {
      assert Has(table, p, x) <==> x < |threads| && QueuedAt(threads[x], p);
    }
  }

  lemma FiledInsert(threads: seq<Thread>, table: Table, t: Tid, th: Thread, yielded: bool)
    requires Filed(threads, table) && t < |threads| && threads[t].stat != Ready
    requires th.stat == Ready && th.priority < PRIORITIES
    ensures Filed(threads[t := th], Insert(table, t, th.priority, yielded))
  {
    assert Has(table, th.priority, t) <==> QueuedAt(threads[t], th.priority);
    InsertOk(table, t, th.priority, yielded);
    var r := Insert(table, t, th.priority, yielded);
    forall p: nat, x: Tid ensures Has(r, p, x) <==> x < |threads| && QueuedAt(threads[t := th][x], p) {
      assert Has(table, p, x) <==> x < |threads| && QueuedAt(threads[x], p);
    }
  }

  lemma FiledRemove(threads: seq<Thread>, table: Table, t: Tid, th: Thread)
    requires Filed(threads, table) && t < |threads| && threads[t].priority < PRIORITIES && th.stat != Ready
    ensures Filed(threads[t := th], Remove(table, t, threads[t].priority))
  {
    RemoveOk(table, t, threads[t].priority);
    var r := Remove(table, t, threads[t].priority);
    forall p: nat, x: Tid ensures Has(r, p, x) <==> x < |threads| && QueuedAt(threads[t := th][x], p) {
      assert Has(table, p, x) <==> x < |threads| && QueuedAt(threads[x], p);
    }
  }

  // ---------- rt_schedule ----------

  /** `to` is first in line at the most urgent ready priority h. */
  ghost predicate IsHighest(s: State, to: Tid, h: nat) {
    && h < |s.table.lists| && s.table.lists[h] != [] && to == s.table.lists[h][0]
    && to < |s.threads| && QueuedAt(s.threads[to], h)
    && (forall x: Tid :: x < |s.threads| && s.threads[x].stat == Ready ==> h <= s.threads[x].priority)
  }

  lemma HighestFound(s: State)
    requires Inv(s) && s.table.group != 0
    ensures s.table.group < 0x1_0000_0000 && 0 <= HighestPriority(s.table) < |s.table.lists|
    ensures var h := HighestPriority(s.table);
      s.table.lists[h] != [] && IsHighest(s, s.table.lists[h][0], h)
  {
    HighestIsFirst(s.table);
    var h := HighestPriority(s.table);
    assert Has(s.table, h, s.table.lists[h][0]);
    forall x: Tid | x < |s.threads| && s.threads[x].stat == Ready ensures h <= s.threads[x].priority {
      assert QueuedAt(s.threads[x], s.threads[x].priority);
      assert Has(s.table, s.threads[x].priority, x);
    }
  }

  ghost function Highest(s: State): (r: (Tid, nat))
    requires Inv(s) && s.table.group != 0
    ensures IsHighest(s, r.0, r.1)
  {
    HighestFound(s);
    var h := HighestPriority(s.table);
    (s.table.lists[h][0], h)
  }

  /** The running thread stays on rather than make way for priority h. */
  predicate Keeps(th: Thread, h: nat) {
    th.stat == Running && (th.priority < h || (th.priority == h && !th.yielded))
  }

  /** The list and stat handling of rt_schedule_insert_thread for a thread that is not current. */
  function InsertReady(s: State, t: Tid): State
    requires t < |s.threads| && s.threads[t].priority < |s.table.lists|
  {
    var th := s.threads[t];
    s.(threads := s.threads[t := th.(stat := Ready)], table := Insert(s.table, t, th.priority, th.yielded))
  }

  /** The outgoing thread: back on its list if it still could run, with its slice flag cleared. */
  function PutAway(s: State): State
    requires s.current < |s.threads| && s.threads[s.current].priority < |s.table.lists|
  {
    var r := if s.threads[s.current].stat == Running then InsertReady(s, s.current) else s;
    r.(threads := r.threads[s.current := r.threads[s.current].(yielded := false)])
  }

  function TakeOut(s: State, t: Tid, stat: Stat): State
    requires t < |s.threads| && s.threads[t].priority < |s.table.lists|
  {
    s.(threads := s.threads[t := s.threads[t].(stat := stat)], table := Remove(s.table, t, s.threads[t].priority))
  }

  /** rt_schedule.  A thread that stays on keeps its slice flag, even when that flag is set. */
  ghost function Schedule(s: State): State
    requires Inv(s)
  {
    if s.lockNest != 0 || s.table.group == 0 then s
    else
      var (to, h) := Highest(s);
      if Keeps(s.threads[s.current], h) then TakeOut(s, s.current, Running)
      else TakeOut(PutAway(s).(current := to), to, Running)
  }

  lemma PutAwayFiled(s: State)
    requires Inv(s)
    ensures var r := PutAway(s);
      && Filed(r.threads, r.table) && r.current == s.current && r.lockNest == s.lockNest && |r.threads| == |s.threads|
      && r.threads[s.current].stat != Running && r.threads[s.current].priority == s.threads[s.current].priority
      && forall t :: 0 <= t < |s.threads| && t != s.current ==> r.threads[t] == s.threads[t]
  {
    var th := s.threads[s.current];
    if th.stat == Running {
      FiledInsert(s.threads, s.table, s.current, th.(stat := Ready), th.yielded);
      var r := InsertReady(s, s.current);
      FiledSame(r.threads, r.table, s.current, r.threads[s.current].(yielded := false));
    } else {
      FiledSame(s.threads, s.table, s.current, th.(yielded := false));
    }
  }

  lemma ScheduleInv(s: State)
    requires Inv(s)
    ensures Inv(Schedule(s)) && Schedule(s).lockNest == s.lockNest && |Schedule(s).threads| == |s.threads|
  {
    if s.lockNest == 0 && s.table.group != 0 {
      var (to, h) := Highest(s);
      if Keeps(s.threads[s.current], h) {
        FiledRemove(s.threads, s.table, s.current, s.threads[s.current].(stat := Running));
      } else {
        PutAwayFiled(s);
        var m := PutAway(s);
        FiledRemove(m.threads, m.table, to, m.threads[to].(stat := Running));
      }
    }
  }

  /**
   After every unlocked rt_schedule with some thread able to run (the idle thread never
   blocks), the current thread runs, is on no ready list and is at least as urgent as every
   ready thread.
   */
  lemma ScheduleIsUrgent(s: State, idle: Tid)
    requires Inv(s) && s.lockNest == 0 && idle < |s.threads| && s.threads[idle].stat != Suspended
    ensures var r := Schedule(s);
      && r.current < |r.threads| && r.threads[r.current].stat == Running
      && (forall p: nat :: !Has(r.table, p, r.current))
      && forall x: Tid :: x < |r.threads| && r.threads[x].stat == Ready ==>
           r.threads[r.current].priority <= r.threads[x].priority
  {
    ScheduleInv(s);
    var r := Schedule(s);
    ReadyIffGroup(s);
    if s.table.group != 0 {
      var (to, h) := Highest(s);
      if !Keeps(s.threads[s.current], h) { PutAwayFiled(s); }
    }
  }

  lemma ReadyIffGroup(s: State)
    requires Inv(s)
    ensures s.table.group == 0 ==> forall x: Tid :: x < |s.threads| ==> s.threads[x].stat != Ready
  {
    HighestIsFirst(s.table);
    if s.table.group == 0 {
      forall x: Tid | x < |s.threads| ensures s.threads[x].stat != Ready {
        var p := s.threads[x].priority;
        assert Has(s.table, p, x) <==> QueuedAt(s.threads[x], p);
      }
    }
  }

  // ---------- the other operations ----------

  /** rt_schedule_insert_thread */
  ghost function InsertThread(s: State, t: Tid): State
    requires Inv(s) && t < |s.threads|
  {
    if t == s.current then s.(threads := s.threads[t := s.threads[t].(stat := Running)]) else InsertReady(s, t)
  }

  lemma InsertInv(s: State, t: Tid)
    requires Inv(s) && t < |s.threads| && s.threads[t].stat == Suspended
    ensures Inv(InsertThread(s, t))
  {
    var th := s.threads[t];
    if t == s.current {
      FiledSame(s.threads, s.table, t, th.(stat := Running));
    } else {
      FiledInsert(s.threads, s.table, t, th.(stat := Ready), th.yielded);
    }
  }

  /** rt_thread_suspend of the current thread */
  lemma SuspendInv(s: State)
    requires Inv(s)
    ensures Inv(TakeOut(s, s.current, Suspended))
  {
    FiledRemove(s.threads, s.table, s.current, s.threads[s.current].(stat := Suspended));
  }

  /** rt_tick_increase: at the end of the slice the thread is marked and the scheduler called. */
  ghost function Tick(s: State): State
    requires Inv(s)
  {
    var th := s.threads[s.current];
    if th.remaining - 1 == 0 then
      var marked := s.(threads := s.threads[s.current := th.(remaining := th.initTick, yielded := true)]);
      FiledSame(s.threads, s.table, s.current, th.(remaining := th.initTick, yielded := true));
      Schedule(marked)
    else s.(threads := s.threads[s.current := th.(remaining := th.remaining - 1)])
  }

  lemma TickInv(s: State)
    requires Inv(s)
    ensures Inv(Tick(s))
  {
    var th := s.threads[s.current];
    FiledSame(s.threads, s.table, s.current, th.(remaining := th.remaining - 1));
    if th.remaining - 1 == 0 {
      var up := th.(remaining := th.initTick, yielded := true);
      FiledSame(s.threads, s.table, s.current, up);
      ScheduleInv(s.(threads := s.threads[s.current := up]));
    }
  }

  /** RT_THREAD_CTRL_CHANGE_PRIORITY: a READY thread changes its list, any other only its priority. */
  ghost function ChangePriority(s: State, t: Tid, p: nat): State
    requires Inv(s) && t < |s.threads| && p < PRIORITIES
  {
    if s.threads[t].stat == Ready then
      var r := TakeOut(s, t, Suspended);
      InsertReady(r.(threads := r.threads[t := r.threads[t].(priority := p)]), t)
    else s.(threads := s.threads[t := s.threads[t].(priority := p)])
  }

  lemma PriorityInv(s: State, t: Tid, p: nat)
    requires Inv(s) && t < |s.threads| && p < PRIORITIES
    ensures Inv(ChangePriority(s, t, p))
  {
    var th := s.threads[t];
    if th.stat == Ready {
      var mid := th.(stat := Suspended, priority := p);
      FiledRemove(s.threads, s.table, t, mid);
      var r := s.(threads := s.threads[t := mid], table := Remove(s.table, t, th.priority));
      var out := TakeOut(s, t, Suspended);
      assert out.(threads := out.threads[t := out.threads[t].(priority := p)]) == r;
      FiledInsert(r.threads, r.table, t, mid.(stat := Ready), mid.yielded);
    } else {
      FiledSame(s.threads, s.table, t, th.(priority := p));
    }
  }

  // ---------- runs ----------

  datatype Event =
    | Reschedule
    | Resume(t: Tid)
    | Suspend
    | Yield
    | TickEvent
    | SetPriority(t: Tid, p: nat)
    | Enter
    | Exit

  ghost predicate Enabled(s: State, e: Event) {
    && (e.Resume? ==> e.t < |s.threads| && s.threads[e.t].stat == Suspended)
    && (e.SetPriority? ==> e.t < |s.threads| && e.p < PRIORITIES)
  }

  /** rt_exit_critical calls rt_schedule once the count is back at 0. */
  ghost function Step(s: State, e: Event): (r: State)
    requires Inv(s) && Enabled(s, e)
    ensures Inv(r)
  {
    match e
    case Reschedule => ScheduleInv(s); Schedule(s)
    case Resume(t) => InsertInv(s, t); InsertThread(s, t)
    case Suspend => SuspendInv(s); TakeOut(s, s.current, Suspended)
    case Yield =>
      var th := s.threads[s.current];
      FiledSame(s.threads, s.table, s.current, th.(remaining := th.initTick, yielded := true));
      s.(threads := s.threads[s.current := th.(remaining := th.initTick, yielded := true)])
    case TickEvent => TickInv(s); Tick(s)
    case SetPriority(t, p) => PriorityInv(s, t, p); ChangePriority(s, t, p)
    case Enter => s.(lockNest := s.lockNest + 1)
    case Exit =>
      if s.lockNest - 1 <= 0 then ScheduleInv(s.(lockNest := 0)); Schedule(s.(lockNest := 0))
      else s.(lockNest := s.lockNest - 1)
  }

  ghost predicate Legal(s: State, es: seq<Event>)
    requires Inv(s)
    decreases |es|, 0
  {
    es == [] || (Legal(s, es[..|es| - 1]) && Enabled(After(s, es[..|es| - 1]), es[|es| - 1]))
  }

  ghost function After(s: State, es: seq<Event>): (r: State)
    requires Inv(s) && Legal(s, es)
    ensures Inv(r)
    decreases |es|, 1
  {
    if es == [] then s else Step(After(s, es[..|es| - 1]), es[|es| - 1])
  }

  /** In every run the bitmap mirrors the lists, and the lists hold the ready threads and never the current one. */
  lemma EveryRun(s: State, es: seq<Event>)
    requires Inv(s) && Legal(s, es)
    ensures var r := After(s, es);
      && (forall p: nat :: Bit(r.table.group, p) <==> p < PRIORITIES && r.table.lists[p] != [])
      && (forall p: nat, t: Tid :: Has(r.table, p, t) <==> t < |r.threads| && QueuedAt(r.threads[t], p))
      && (forall p: nat :: !Has(r.table, p, r.current))
  {
    var r := After(s, es);
    assert Indexed(r.table.group, r.table.lists);
  }
}
