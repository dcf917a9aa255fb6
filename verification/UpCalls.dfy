/** What sequences of scheduler calls come to on one processor: critical sections, suspend, resume and yield. */
module UpCalls {
  import opened ReadyTable
  import opened UpScheduler

  // ---------- critical sections ----------

  /** How many calls of rt_enter_critical are still to be undone; one exit too many counts for nothing. */
  function Depth(es: seq<Event>): nat {
    if es == [] then 0
    else
      var d := Depth(es[..|es| - 1]);
      match es[|es| - 1]
      case Enter => d + 1
      case Exit => if d > 0 then d - 1 else 0
      case _ => d
  }

  /** In every run from an unlocked state the lock count is the number of open critical sections. */
  lemma {:induction false} LockCounts(s: State, es: seq<Event>)
    requires Inv(s) && Legal(s, es) && s.lockNest == 0
    ensures After(s, es).lockNest == Depth(es)
  {
    if es != [] {
      LockCounts(s, es[..|es| - 1]);
      StepNest(After(s, es[..|es| - 1]), es[|es| - 1]);
    }
  }

  lemma StepNest(s: State, e: Event)
    requires Inv(s) && Enabled(s, e)
    ensures Step(s, e).lockNest ==
      match e
      case Enter => s.lockNest + 1
      case Exit => if s.lockNest > 0 then s.lockNest - 1 else 0
      case _ => s.lockNest
  {
    match e
    case Reschedule => ScheduleInv(s);
    case TickEvent =>
      var th := s.threads[s.current];
      var up := th.(remaining := th.initTick, yielded := true);
      FiledSame(s.threads, s.table, s.current, up);
      ScheduleInv(s.(threads := s.threads[s.current := up]));
    case Exit => ScheduleInv(s.(lockNest := 0));
    case _ =>
  }

  /**
   As long as a critical section stays open no event takes the processor from the current thread:
   no tick, no rt_schedule and no resume of a more urgent thread.
   */
  lemma CriticalKeepsCurrent(s: State, es: seq<Event>, e: Event)
    requires Inv(s) && Legal(s, es) && s.lockNest == 0 && Enabled(After(s, es), e)
    requires Depth(es) > 0 && Depth(es + [e]) > 0
    ensures Step(After(s, es), e).current == After(s, es).current
  {
    LockCounts(s, es);
    assert (es + [e])[..|es|] == es;
    var r := After(s, es);
    if e.TickEvent? {
      var th := r.threads[r.current];
      FiledSame(r.threads, r.table, r.current, th.(remaining := th.initTick, yielded := true));
    }
  }

  /** Nothing ready is more urgent than the current thread, which runs and is on no list. */
  ghost predicate UrgentRuns(r: State) {
    && r.current < |r.threads| && r.threads[r.current].stat == Running
    && (forall p: nat :: !Has(r.table, p, r.current))
    && forall x: Tid :: x < |r.threads| && r.threads[x].stat == Ready ==> r.threads[r.current].priority <= r.threads[x].priority
  }

  /** The exit that ends the last critical section leaves the most urgent thread running. */
  lemma LastExitSchedules(s: State, es: seq<Event>, idle: Tid)
    requires Inv(s) && Legal(s, es) && s.lockNest == 0 && Depth(es + [Exit]) == 0
    requires idle < |After(s, es).threads| && After(s, es).threads[idle].stat != Suspended
    ensures UrgentRuns(Step(After(s, es), Exit))
  {
    LockCounts(s, es);
    assert (es + [Exit])[..|es|] == es;
    ScheduleIsUrgent(After(s, es).(lockNest := 0), idle);
  }

  // ---------- suspend, resume and yield ----------

  lemma SomethingReady(s: State, x: Tid)
    requires Inv(s) && x < |s.threads| && s.threads[x].stat == Ready
    ensures s.table.group != 0
  {
    ReadyIffGroup(s);
  }

  /** A thread that suspends itself and calls rt_schedule is off the processor if anything else can run. */
  lemma SuspendLeaves(s: State, x: Tid)
    requires Inv(s) && s.lockNest == 0 && x < |s.threads| && s.threads[x].stat == Ready
    ensures var r := Step(Step(s, Suspend), Reschedule);
      r.current != s.current && |r.threads| == |s.threads| && r.threads[s.current].stat == Suspended && UrgentRuns(r)
  {
    var q := Step(s, Suspend);
    SomethingReady(q, x);
    ScheduleIsUrgent(q, x);
    PutAwayFiled(q);
  }

  /** A resumed thread more urgent than every other that can run has the processor after rt_schedule. */
  lemma ResumeRuns(s: State, t: Tid)
    requires Inv(s) && s.lockNest == 0 && t < |s.threads| && t != s.current && s.threads[t].stat == Suspended
    requires forall x: Tid :: x < |s.threads| && s.threads[x].stat != Suspended ==> s.threads[t].priority < s.threads[x].priority
    ensures Step(Step(s, Resume(t)), Reschedule).current == t
  {
    var q := Step(s, Resume(t));
    SomethingReady(q, t);
    var (to, h) := Highest(q);
    assert to == t;
  }

  /** A thread that yields makes way for one of the same priority, and has a full slice when it goes on. */
  lemma YieldMakesWay(s: State, x: Tid)
    requires Inv(s) && s.lockNest == 0 && x < |s.threads| && s.threads[x].stat == Ready
    requires s.threads[x].priority == s.threads[s.current].priority
    ensures var r := Step(Step(s, Yield), Reschedule);
      && r.current != s.current && r.current < |r.threads| && r.threads[r.current].priority <= s.threads[x].priority
      && s.current < |r.threads| && r.threads[s.current].remaining == s.threads[s.current].initTick
  {
    var q := Step(s, Yield);
    SomethingReady(q, x);
    var (to, h) := Highest(q);
    PutAwayFiled(q);
  }

  /** Without a yield or an end of slice a running thread is displaced by more urgent ones only. */
  lemma StaysWhileMostUrgent(s: State)
    requires Inv(s) && s.threads[s.current].stat == Running && !s.threads[s.current].yielded
    requires forall x: Tid :: x < |s.threads| && s.threads[x].stat == Ready ==> s.threads[s.current].priority <= s.threads[x].priority
    ensures Step(s, Reschedule).current == s.current
  {
  }

  // ---------- places in the ready lists, and what stays as it is ----------

  /** A READY thread at the end of its list if it has yielded or used up its slice, else at the front. */
  ghost predicate QueuedIn(before: seq<Tid>, after: seq<Tid>, t: Tid, yielded: bool) {
    after == if yielded then before + [t] else [t] + before
  }

  /** A resumed thread joins the list of its priority; a thread that suspended itself and is resumed at once runs on. */
  lemma ResumedPlace(s: State, t: Tid)
    requires Inv(s) && Enabled(s, Resume(t))
    ensures var r, p := Step(s, Resume(t)), s.threads[t].priority;
      && t < |r.threads| && r.current == s.current && p < |s.table.lists| && p < |r.table.lists|
      && r.threads[t].stat == (if t == s.current then Running else Ready)
      && (t != s.current ==> QueuedIn(s.table.lists[p], r.table.lists[p], t, s.threads[t].yielded))
  {
  }

  /**
   A running thread that makes way goes back to the list of its priority, which the thread that
   takes over has left; its mark is cleared, so its next turn begins at the front.
   */
  lemma DisplacedPlace(s: State)
    requires Inv(s) && s.threads[s.current].stat == Running && Step(s, Reschedule).current != s.current
    ensures var r, p := Step(s, Reschedule), s.threads[s.current].priority;
      && p < |s.table.lists| && p < |r.table.lists| && r.current < |s.threads|
      && r.threads[s.current].stat == Ready && !r.threads[s.current].yielded
      && s.table.lists[s.threads[r.current].priority][..1] == [r.current]
      && QueuedIn(if s.threads[r.current].priority == p then s.table.lists[p][1..] else s.table.lists[p],
                  r.table.lists[p], s.current, s.threads[s.current].yielded)
  {
    PutAwayFiled(s);
    var (to, h) := Highest(s);
  }

  /** A new priority takes effect at once, and a READY thread moves to the list of that priority. */
  lemma PriorityTakesEffect(s: State, t: Tid, p: nat)
    requires Inv(s) && Enabled(s, SetPriority(t, p))
    ensures var r := Step(s, SetPriority(t, p));
      && r.current == s.current && |r.threads| == |s.threads|
      && r.threads[t] == s.threads[t].(priority := p)
      && (s.threads[t].stat == Ready && s.threads[t].priority != p ==>
            p < |s.table.lists| && QueuedIn(s.table.lists[p], r.table.lists[p], t, s.threads[t].yielded))
  {
  }

  /** No event changes a thread that is neither the current one, before or after, nor the one it names. */
  lemma OthersStay(s: State, e: Event, x: Tid)
    requires Inv(s) && Enabled(s, e) && x < |s.threads| && x != s.current && x != Step(s, e).current
    requires e.Resume? || e.SetPriority? ==> x != e.t
    ensures x < |Step(s, e).threads| && Step(s, e).threads[x] == s.threads[x]
  {
    if e.Reschedule? || e.Exit? || e.TickEvent? { PutAwayFiled(s); }
  }
}
