/** Runs of one CPU in which a switch meets a thread with two outstanding calls of rt_cpus_lock. */
module SmpCounterexamples {
  import opened Wrappers
  import opened Bits
  import opened ReadyTable
  import opened SmpScheduler
  import opened SmpRuns

  function Fresh(p: nat, stat: Stat): Thread { Thread(p, 1, None, stat, false, 0, 0, 0, 0, 0) }

  /** Thread 0 at priority 20 is ready, thread 1 at priority 10 sleeps; both may run anywhere. */
  ghost function OneCpu(): State {
    State(1, [Fresh(20, Ready), Fresh(10, Suspended)], [None],
          [Table(0, seq(PRIORITIES, p => [])), Table(Pow2(20), seq(PRIORITIES, p => if p == 20 then [0] else []))],
          None, [0], [false])
  }

  lemma OneCpuInitial()
    ensures Initial(OneCpu()) && Inv(OneCpu())
  {
    var s := OneCpu();
    forall p: nat ensures !Bit(0, p) { ZeroBit(p); }
    forall p: nat ensures Bit(s.tables[1].group, p) <==> p < |s.tables[1].lists| && s.tables[1].lists[p] != [] { Pow2Bit(20, p); }
    forall k: nat, p: nat, t: Tid | 0 <= k < |s.tables| ensures Has(s.tables[k], p, t) <==> t < |s.threads| && QueuedAt(s.threads[t], k, p) {
      assert p < PRIORITIES ==> s.tables[1].lists[p] == if p == 20 then [0] else [];
    }
    InitialInv(s);
  }

  /** Thread 0 runs on CPU 0 with n outstanding locks; thread 1 has the given stat. */
  predicate Alone(s: State, n: nat, stat: Stat) {
    && s.cpus == 1 && s.current == [Some(0)] && s.irqNest == [0]
    && s.threads == [Thread(20, 1, Some(0), Running, false, n, if n > 0 then 1 else 0, 0, n, 0), Fresh(10, stat)]
  }

  /** Only thread 0 is there to be chosen. */
  lemma Begins(s: State)
    requires Inv(s) && s == OneCpu()
    ensures AnyReady(s, 0) && Alone(Start(s, 0), 0, Suspended)
  {
    SomethingReady(s, 0, 0);
    var (to, h) := Highest(s, 0);
    assert to == 0;
  }

  /** Only thread 1 is there to be chosen. */
  lemma Chooses(s: State)
    requires Inv(s) && Alone(s, 2, Ready)
    ensures Runs(s, 0, 0) && AnyReady(s, 0) && Highest(s, 0) == (1, 10)
  {
    assert s.threads[1].stat == Ready;
    SomethingReady(s, 0, 1);
    var (to, h) := Highest(s, 0);
    assert to == 1;
  }

  lemma Locks(s: State, n: nat)
    requires Alone(s, n, Suspended)
    ensures Alone(CpusLock(s, 0, 0), n + 1, Suspended)
  {
  }

  lemma Resumes(s: State)
    requires Inv(s) && Alone(s, 2, Suspended)
    ensures |s.tables| == 2 && |s.tables[1].lists| == PRIORITIES && Alone(InsertThread(s, 1), 2, Ready)
  {
    assert Ok(s.tables[1]);
  }

  // ---------- as steps of a run ----------

  lemma Snoc(s: State, es: seq<Event>, e: Event) returns (fs: seq<Event>)
    requires Inv(s) && Legal(s, es) && Enabled(After(s, es), e)
    ensures Legal(s, fs) && After(s, fs) == Step(After(s, es), e)
  {
    fs := es + [e];
    assert fs[..|fs| - 1] == es && fs[|fs| - 1] == e;
  }

  lemma BeginStep(s: State)
    requires Inv(s) && s == OneCpu()
    ensures Enabled(s, Begin(0)) && Alone(Step(s, Begin(0)), 0, Suspended)
  {
    Begins(s);
  }

  lemma LockStep(s: State, n: nat)
    requires Inv(s) && Alone(s, n, Suspended)
    ensures Enabled(s, Lock(0)) && Alone(Step(s, Lock(0)), n + 1, Suspended)
  {
    LockFree(s, n);
    Locks(s, n);
    assert EnabledOn(s, Lock(0), 0);
    assert Step(s, Lock(0)) == CpusLock(s, 0, 0);
  }

  lemma LockFree(s: State, n: nat)
    requires Inv(s) && Alone(s, n, Suspended)
    ensures MayLock(s, 0, 0)
  {
    HolderOf(s, 0, 0);
    assert s.holder.Some? ==> s.holder.value < 1;
  }

  lemma ResumeStep(s: State)
    requires Inv(s) && Alone(s, 2, Suspended)
    ensures Enabled(s, Resume(0, 1)) && Alone(Step(s, Resume(0, 1)), 2, Ready)
  {
    HolderOf(s, 0, 0);
    Resumes(s);
  }

  lemma LocksOnce(s: State, es: seq<Event>, n: nat) returns (fs: seq<Event>)
    requires Inv(s) && Legal(s, es) && Alone(After(s, es), n, Suspended)
    ensures Legal(s, fs) && Alone(After(s, fs), n + 1, Suspended)
  {
    LockStep(After(s, es), n);
    fs := Snoc(s, es, Lock(0));
  }

  lemma ResumesOne(s: State, es: seq<Event>) returns (fs: seq<Event>)
    requires Inv(s) && Legal(s, es) && Alone(After(s, es), 2, Suspended)
    ensures Legal(s, fs) && Alone(After(s, fs), 2, Ready)
  {
    ResumeStep(After(s, es));
    fs := Snoc(s, es, Resume(0, 1));
  }

  /** Thread 0 calls rt_cpus_lock twice and resumes thread 1. */
  lemma LockTwice(s: State) returns (es: seq<Event>)
    requires Inv(s) && Enabled(s, Begin(0)) && Alone(Step(s, Begin(0)), 0, Suspended)
    ensures Legal(s, es) && Alone(After(s, es), 2, Ready)
  {
    es := Snoc(s, [], Begin(0));
    es := LocksOnce(s, es, 0);
    es := LocksOnce(s, es, 1);
    es := ResumesOne(s, es);
  }

  lemma SwitchStep(s: State)
    requires Inv(s) && Alone(s, 2, Ready)
    ensures Enabled(s, Reschedule(0))
    ensures var r := Step(s, Reschedule(0));
      r.current == [Some(1)] && r.holder.None? && |r.threads| == 2 && r.threads[0].locks == 2 && r.threads[0].cpusLockNest == 2
  {
    HolderOf(s, 0, 0);
    Chooses(s);
    SwitchedThreads(s, 0, 0, 1, 10);
    SwitchedHolder(s, 0, 0, 1, 10);
    CpuCount(s, Reschedule(0));
  }

  lemma CpuCount(s: State, e: Event)
    requires Inv(s) && Enabled(s, e)
    ensures |Step(s, e).current| == s.cpus
  {
  }

  lemma SwitchesThen(s: State, es: seq<Event>) returns (fs: seq<Event>)
    requires Inv(s) && Legal(s, es) && Alone(After(s, es), 2, Ready)
    ensures Legal(s, fs)
    ensures var r := After(s, fs);
      r.current == [Some(1)] && r.holder.None? && |r.threads| == 2 && r.threads[0].locks == 2 && r.threads[0].cpusLockNest == 2
  {
    SwitchStep(After(s, es));
    fs := Snoc(s, es, Reschedule(0));
  }

  /**
   rt_schedule inside two nested calls of rt_cpus_lock switches, and the spinlock is given up in
   the middle of the outer one: a run after which thread 0 has two locks outstanding and nobody
   holds the spinlock.
   */
  lemma SwitchInsideLock() returns (es: seq<Event>)
    ensures Initial(OneCpu()) && Inv(OneCpu()) && Legal(OneCpu(), es)
    ensures var r := After(OneCpu(), es);
      r.current == [Some(1)] && r.holder.None? && |r.threads| == 2 && r.threads[0].locks == 2 && r.threads[0].cpusLockNest == 2
  {
    OneCpuInitial();
    BeginStep(OneCpu());
    es := LockTwice(OneCpu());
    es := SwitchesThen(OneCpu(), es);
  }

  /** A switch is asked for inside an interrupt and is due when that ends. */
  function Due(s: State): State { s.(irqSwitch := [true]) }

  lemma DueRuns(s: State)
    requires Inv(s) && Alone(s, 2, Ready)
    ensures Inv(Due(s)) && Alone(Due(s), 2, Ready) && Due(s).holder == Some(0) && LeavesInIrq(Due(s), 0, 0)
  {
    HolderOf(s, 0, 0);
    Chooses(s);
    Chooses(Due(s));
  }

  /** The counter law fails when a switch at the end of an interrupt takes the CPU from a thread with two locks. */
  lemma IrqSwitchInsideLock() returns (s: State)
    ensures Inv(s) && Runs(s, 0, 0) && s.holder == Some(0) && s.threads[0].locks == 2 && LeavesInIrq(s, 0, 0)
    ensures !Inv(IrqSwitch(s, 0, 0))
  {
    OneCpuInitial();
    BeginStep(OneCpu());
    var es := LockTwice(OneCpu());
    DueRuns(After(OneCpu(), es));
    s := Due(After(OneCpu(), es));
    IrqSwitchInv(s, 0, 0);
  }
}
