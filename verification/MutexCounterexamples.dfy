/** Two runs that show where priority inheritance stops short. */
module MutexCounterexamples {
  import opened Wrappers
  import opened PriorityInheritance
  import opened MutexOperations
  import opened MutexRuns
  import Two = MutexTwoStep

  function Idle(p: nat): Thread { Thread(p, p, [], None, false) }
  function Holder(p: nat, taken: seq<MutexId>): Thread { Thread(p, p, taken, None, false) }
  function Free(): Mutex { Mutex(None, NO_PRIORITY, 0, []) }
  function Held(t: ThreadId): Mutex { Mutex(Some(t), NO_PRIORITY, 1, []) }

  lemma AfterOne(s: State, op: Op, ops: seq<Op>)
    requires Inv(s) && Enabled(s, op)
    ensures After(s, [op] + ops) == After(Step(s, op), ops)
  {
    assert ([op] + ops)[1..] == ops;
  }

  // ---------- a deadlock keeps a boost for good ----------

  function Start(): State { State([Idle(20), Idle(20), Idle(5)], [Free(), Free()]) }
  function OneHeld(): State { State([Holder(20, [0]), Idle(20), Idle(5)], [Held(0), Free()]) }
  function BothHeld(): State { State([Holder(20, [0]), Holder(20, [1]), Idle(5)], [Held(0), Held(1)]) }

  function OneWaits(): State {
    State([Thread(20, 20, [0], Some(1), true), Holder(20, [1]), Idle(5)], [Held(0), Mutex(Some(1), 20, 1, [0])])
  }

  /** Threads 0 and 1 wait for each other. */
  function Deadlocked(): State {
    State(
      [Thread(20, 20, [0], Some(1), true), Thread(20, 20, [1], Some(0), true), Idle(5)],
      [Mutex(Some(0), 20, 1, [1]), Mutex(Some(1), 20, 1, [0])])
  }

  lemma FirstTake()
    ensures Initial(Start()) && Inv(Start())
    ensures Enabled(Start(), Take(0, 0, true)) && Step(Start(), Take(0, 0, true)) == OneHeld()
    ensures Inv(OneHeld())
  {
    InitialInv(Start());
    assert [0] + [] == [0];
    assert TakeFree(Start(), 0, 0) == OneHeld();
  }

  lemma SecondTake()
    requires Inv(OneHeld())
    ensures Enabled(OneHeld(), Take(1, 1, true)) && Step(OneHeld(), Take(1, 1, true)) == BothHeld()
    ensures Inv(BothHeld())
  {
    assert [1] + [] == [1];
    assert TakeFree(OneHeld(), 1, 1) == BothHeld();
  }

  lemma FirstWait()
    requires Inv(BothHeld())
    ensures Enabled(BothHeld(), Take(0, 1, true)) && Step(BothHeld(), Take(0, 1, true)) == OneWaits()
    ensures Inv(OneWaits())
  {
    assert Blocks(BothHeld(), 0, 1);
    EnqueueLinked(BothHeld(), 0, 1);
    assert InsertByPriority(BothHeld().threads, [], 0) == [0];
    assert Enqueue(BothHeld(), 0, 1) == OneWaits();
  }

  lemma SecondWait()
    requires Inv(OneWaits())
    ensures Enabled(OneWaits(), Take(1, 0, true)) && Step(OneWaits(), Take(1, 0, true)) == Deadlocked()
    ensures Inv(Deadlocked())
  {
    assert Blocks(OneWaits(), 1, 0);
    EnqueueLinked(OneWaits(), 1, 0);
    assert InsertByPriority(OneWaits().threads, [], 1) == [1];
    assert Enqueue(OneWaits(), 1, 0) == Deadlocked();
  }

  /** Thread 2 boosts both; the propagation goes once round the loop and stops. */
  function Boosted(): State {
    State(
      [Thread(20, 5, [0], Some(1), true), Thread(20, 5, [1], Some(0), true), Thread(5, 5, [], Some(0), true)],
      [Mutex(Some(0), 5, 1, [2, 1]), Mutex(Some(1), 5, 1, [0])])
  }

  /** What is left when thread 2 has given up. */
  function Stuck(): State {
    State(
      [Thread(20, 5, [0], Some(1), true), Thread(20, 5, [1], Some(0), true), Idle(5)],
      [Mutex(Some(0), 5, 1, [1]), Mutex(Some(1), 5, 1, [0])])
  }

  function Rising(p: nat): State {
    State(
      [Thread(20, 5, [0], Some(1), true), Thread(20, p, [1], Some(0), true), Thread(5, 5, [], Some(0), true)],
      [Mutex(Some(0), 5, 1, [2, 1]), Mutex(Some(1), if p == 5 then 5 else 20, 1, [0])])
  }

  lemma RoundOne()
    requires Changed(Rising(20), 0, 20)
    ensures RoundReady(Rising(20), 0) && Blocker(Rising(20), 0) == 1
    ensures Inherit(Round(Rising(20), 0), 1) == 5
    ensures SetPriority(Round(Rising(20), 0), 1, 5) == Rising(5)
  {
    PropagateRound(Rising(20), 0, 20);
    assert Without([0], 0) == [];
    assert Round(Rising(20), 0).mutexes[1] == Mutex(Some(1), 5, 1, [0]);
    assert BestPriority(20, [1], Round(Rising(20), 0).mutexes) == BestPriority(5, [], Round(Rising(20), 0).mutexes);
  }

  lemma RoundTwo()
    requires Changed(Rising(5), 1, 20)
    ensures RoundReady(Rising(5), 1) && Blocker(Rising(5), 1) == 0
    ensures Inherit(Round(Rising(5), 1), 0) == 5
    ensures Round(Rising(5), 1) == Boosted()
  {
    PropagateRound(Rising(5), 1, 20);
    RoundTwoRequeues();
    BoostedStays();
  }

  lemma RoundTwoRequeues()
    requires RoundReady(Rising(5), 1)
    ensures Round(Rising(5), 1) == Boosted()
  {
    RequeuedSecond();
    var r := Requeue(Rising(5), 0, 1);
    assert r.mutexes[0] == Mutex(Some(0), 5, 1, [2, 1]);
    assert r.mutexes == Boosted().mutexes;
  }

  /** Thread 1 goes back behind thread 2. */
  lemma RequeuedSecond()
    ensures Without([2, 1], 1) == [2] && InsertByPriority(Rising(5).threads, [2], 1) == [2, 1]
  {
    assert [2, 1][1..] == [1] && Without([1], 1) == [];
    assert [2][1..] == [] && InsertByPriority(Rising(5).threads, [], 1) == [1];
  }

  lemma BoostedStays()
    ensures Inherit(Boosted(), 0) == 5
  {
    assert BestPriority(20, [0], Boosted().mutexes) == BestPriority(5, [], Boosted().mutexes);
  }

  lemma Boost()
    requires Inv(Deadlocked())
    ensures Enabled(Deadlocked(), Take(2, 0, true)) && Step(Deadlocked(), Take(2, 0, true)) == Boosted()
    ensures Inv(Boosted())
  {
    var d := Deadlocked();
    assert Blocks(d, 2, 0);
    EnqueueLinked(d, 2, 0);
    assert InsertByPriority(d.threads, [1], 2) == [2, 1];
    TakeBlockedChanged(d, 2, 0);
    assert SetPriority(Enqueue(d, 2, 0), 0, 5) == Rising(20);
    RoundOne();
    PropagateRound(Rising(20), 0, 20);
    RoundTwo();
  }

  /** Thread 2 has timed out and has yet to clean up. */
  function Expired(): State {
    State(
      [Thread(20, 5, [0], Some(1), true), Thread(20, 5, [1], Some(0), true), Thread(5, 5, [], Some(0), false)],
      [Mutex(Some(0), 5, 1, [1]), Mutex(Some(1), 5, 1, [0])])
  }

  /** The cleanup reads mutex 0 again and finds it as urgent as before. */
  lemma CleanUpInVain()
    requires Leaving(Expired(), 2, 0)
    ensures ClearPending(CleanUp(Expired(), 2, 0), 2) == Stuck()
  {
    var e := Expired();
    RefreshChanged(e, 2, 0);
    assert Refresh(e, 0).mutexes == Stuck().mutexes;
    assert BestPriority(20, [0], Refresh(e, 0).mutexes) == BestPriority(5, [], Refresh(e, 0).mutexes);
  }

  lemma GiveUp()
    requires Inv(Boosted())
    ensures Enabled(Boosted(), Timeout(2)) && Step(Boosted(), Timeout(2)) == Stuck()
    ensures Inv(Stuck())
  {
    var b := Boosted();
    assert WaitsFor(b.threads[2], 0);
    ExpireThenCleanUp(b, 2, 0);
    assert Without([2, 1], 2) == [1];
    assert Expire(b, 2) == Expired();
    CleanUpInVain();
  }

  lemma BoostAndGiveUp() returns (ops: seq<Op>)
    requires Inv(Deadlocked())
    ensures After(Deadlocked(), ops) == Stuck()
  {
    Boost();
    GiveUp();
    AfterOne(Boosted(), Timeout(2), []);
    AfterOne(Deadlocked(), Take(2, 0, true), [Timeout(2)] + []);
    ops := [Take(2, 0, true)] + ([Timeout(2)] + []);
  }

  lemma WaitForEachOther(rest: seq<Op>) returns (ops: seq<Op>)
    requires Inv(BothHeld())
    ensures Inv(Deadlocked()) && After(BothHeld(), ops) == After(Deadlocked(), rest)
  {
    FirstWait();
    SecondWait();
    AfterOne(OneWaits(), Take(1, 0, true), rest);
    AfterOne(BothHeld(), Take(0, 1, true), [Take(1, 0, true)] + rest);
    ops := [Take(0, 1, true)] + ([Take(1, 0, true)] + rest);
  }

  lemma TakeBoth(rest: seq<Op>) returns (ops: seq<Op>)
    ensures Inv(Start()) && Inv(BothHeld()) && After(Start(), ops) == After(BothHeld(), rest)
  {
    FirstTake();
    SecondTake();
    AfterOne(OneHeld(), Take(1, 1, true), rest);
    AfterOne(Start(), Take(0, 0, true), [Take(1, 1, true)] + rest);
    ops := [Take(0, 0, true)] + ([Take(1, 1, true)] + rest);
  }

  /**
   PriorityHasReason cannot drop its exception: this run ends in Stuck, where thread 0 is at
   priority 5 although every thread blocked by it started at 20 (StuckChain).
   */
  lemma DeadlockKeepsBoost() returns (ops: seq<Op>)
    ensures Initial(Start()) && Inv(Start()) && After(Start(), ops) == Stuck()
  {
    FirstTake();
    SecondTake();
    FirstWait();
    SecondWait();
    var c := BoostAndGiveUp();
    var b := WaitForEachOther(c);
    ops := TakeBoth(b);
  }

  lemma StuckChain(c: seq<ThreadId>)
    requires Chain(Stuck(), c) && c[|c| - 1] == 0
    ensures Stuck().threads[0].currentPriority == 5 < Stuck().threads[c[0]].initPriority == 20
  {
    if |c| > 1 { assert BlockedBy(Stuck(), c[0], c[1]); }
  }

  // ---------- a boost between expiry and cleanup ----------

  /** Thread 1 holds mutex 1 and waits for mutex 0, which thread 0 holds. */
  function Nested(): State {
    State(
      [Thread(20, 10, [0], None, false), Thread(10, 10, [1], Some(0), true), Idle(5)],
      [Mutex(Some(0), 10, 1, [1]), Mutex(Some(1), NO_PRIORITY, 1, [])])
  }

  /** Thread 1 has expired; before its cleanup thread 2 blocks on mutex 1 and boosts thread 1. */
  function Overtaken(): State {
    State(
      [Thread(20, 10, [0], None, false), Thread(10, 5, [1], Some(0), false), Thread(5, 5, [], Some(1), true)],
      [Mutex(Some(0), 10, 1, []), Mutex(Some(1), 5, 1, [2])])
  }

  function NestedStart(): State { State([Idle(20), Idle(10), Idle(5)], [Free(), Free()]) }
  function NestedOne(): State { State([Holder(20, [0]), Idle(10), Idle(5)], [Held(0), Free()]) }
  function NestedBoth(): State { State([Holder(20, [0]), Holder(10, [1]), Idle(5)], [Held(0), Held(1)]) }

  lemma NestedInitial()
    ensures Initial(NestedStart()) && Inv(NestedStart())
  {
    InitialInv(NestedStart());
  }

  lemma NestedFirst()
    requires Inv(NestedStart())
    ensures Enabled(NestedStart(), Take(0, 0, true)) && Step(NestedStart(), Take(0, 0, true)) == NestedOne()
    ensures Inv(NestedOne())
  {
    assert [0] + [] == [0];
    assert TakeFree(NestedStart(), 0, 0) == NestedOne();
  }

  lemma NestedSecond()
    requires Inv(NestedOne())
    ensures Enabled(NestedOne(), Take(1, 1, true)) && Step(NestedOne(), Take(1, 1, true)) == NestedBoth()
    ensures Inv(NestedBoth())
  {
    assert [1] + [] == [1];
    assert TakeFree(NestedOne(), 1, 1) == NestedBoth();
  }

  /** Thread 1 waits for mutex 0 and passes its priority on to thread 0, which waits for nothing. */
  lemma NestedWait()
    requires Inv(NestedBoth())
    ensures Enabled(NestedBoth(), Take(1, 0, true)) && Step(NestedBoth(), Take(1, 0, true)) == Nested()
  {
    var b := NestedBoth();
    assert Blocks(b, 1, 0);
    EnqueueLinked(b, 1, 0);
    assert InsertByPriority(b.threads, [], 1) == [1];
    TakeBlockedChanged(b, 1, 0);
    assert SetPriority(Enqueue(b, 1, 0), 0, 10) == Nested();
  }

  lemma AfterThree(s: State, s1: State, s2: State, s3: State, a: Op, b: Op, c: Op)
    requires Inv(s) && Inv(s1) && Inv(s2)
    requires Enabled(s, a) && Step(s, a) == s1
    requires Enabled(s1, b) && Step(s1, b) == s2
    requires Enabled(s2, c) && Step(s2, c) == s3
    ensures After(s, [a, b, c]) == s3
  {
    AfterOne(s2, c, []);
    AfterOne(s1, b, [c]);
    AfterOne(s, a, [b, c]);
    assert [c] + [] == [c] && [b] + [c] == [b, c] && [a] + [b, c] == [a, b, c];
  }

  /** Nested is reached from freshly initialised threads and mutexes. */
  lemma NestedReached()
    ensures Initial(NestedStart()) && Inv(NestedStart())
    ensures After(NestedStart(), [Take(0, 0, true), Take(1, 1, true), Take(1, 0, true)]) == Nested()
  {
    NestedInitial();
    NestedFirst();
    NestedSecond();
    NestedWait();
    AfterThree(NestedStart(), NestedOne(), NestedBoth(), Nested(), Take(0, 0, true), Take(1, 1, true), Take(1, 0, true));
  }

  /** What the cleanup leaves: thread 0 is at 10 and nobody waits for it. */
  function Stale(): State {
    State(
      [Thread(20, 10, [0], None, false), Thread(10, 5, [1], None, false), Thread(5, 5, [], Some(1), true)],
      [Mutex(Some(0), NO_PRIORITY, 1, []), Mutex(Some(1), 5, 1, [2])])
  }

  /** Thread 0 has released its only mutex and still runs at 10. */
  function StaleForGood(): State {
    State(
      [Thread(20, 10, [], None, false), Thread(10, 5, [1], None, false), Thread(5, 5, [], Some(1), true)],
      [Free(), Mutex(Some(1), 5, 1, [2])])
  }

  /** Thread 1 has expired and has yet to clean up. */
  function NestedExpired(): State {
    State(
      [Thread(20, 10, [0], None, false), Thread(10, 10, [1], Some(0), false), Idle(5)],
      [Mutex(Some(0), 10, 1, []), Mutex(Some(1), NO_PRIORITY, 1, [])])
  }

  lemma ExpireNested()
    requires Two.WeakInv(Nested())
    ensures Two.Enabled(Nested(), Two.TimeOut(1)) && Two.Step(Nested(), Two.TimeOut(1)) == NestedExpired()
    ensures Two.WeakInv(NestedExpired())
  {
    assert Without([1], 1) == [];
    assert Expire(Nested(), 1) == NestedExpired();
  }

  /** Thread 2 blocks on mutex 1 and boosts thread 1, which is in no queue any more. */
  lemma Overtake()
    requires Two.WeakInv(NestedExpired())
    ensures Two.Enabled(NestedExpired(), Two.Take(2, 1, true)) && Two.Step(NestedExpired(), Two.Take(2, 1, true)) == Overtaken()
    ensures Two.WeakInv(Overtaken())
  {
    var e := NestedExpired();
    assert Contends(e, 2, 1);
    EnqueueLinked(e, 2, 1);
    assert InsertByPriority(e.threads, [], 2) == [2];
    assert SetPriority(Enqueue(e, 2, 1), 1, 5) == Overtaken();
  }

  lemma FinishLate()
    requires Two.WeakInv(Overtaken())
    ensures Two.Enabled(Overtaken(), Two.Finish(1)) && Two.Step(Overtaken(), Two.Finish(1)) == Stale()
    ensures Two.WeakInv(Stale())
  {
    var s := Overtaken();
    assert !NeedsUpdate(s, 1, 0);
    assert Two.CleanUp(s, 1, 0) == Refresh(s, 0);
    assert ClearPending(Refresh(s, 0), 1) == Stale();
  }

  lemma ReleaseInVain()
    requires Two.WeakInv(Stale())
    ensures Two.Enabled(Stale(), Two.Release(0, 0)) && Two.Step(Stale(), Two.Release(0, 0)) == StaleForGood()
  {
    assert Without([0], 0) == [];
    assert ReleaseFree(Stale(), 0, 0) == StaleForGood();
  }

  lemma TwoAfterOne(s: State, op: Two.Op, ops: seq<Two.Op>)
    requires Two.WeakInv(s) && Two.Enabled(s, op)
    ensures Two.After(s, [op] + ops) == Two.After(Two.Step(s, op), ops)
  {
    assert ([op] + ops)[1..] == ops;
  }

  /** The takes that lead to Nested are the same with expiry and cleanup apart. */
  lemma ToNested(rest: seq<Two.Op>) returns (ops: seq<Two.Op>)
    ensures Initial(NestedStart()) && Two.WeakInv(NestedStart()) && Two.WeakInv(Nested())
    ensures Two.After(NestedStart(), ops) == Two.After(Nested(), rest)
  {
    NestedInitial();
    NestedFirst();
    NestedSecond();
    NestedWait();
    Two.TakeAgrees(NestedStart(), 0, 0, true);
    Two.TakeAgrees(NestedOne(), 1, 1, true);
    Two.TakeAgrees(NestedBoth(), 1, 0, true);
    TwoAfterOne(NestedBoth(), Two.Take(1, 0, true), rest);
    TwoAfterOne(NestedOne(), Two.Take(1, 1, true), [Two.Take(1, 0, true)] + rest);
    ops := [Two.Take(1, 1, true)] + ([Two.Take(1, 0, true)] + rest);
    TwoAfterOne(NestedStart(), Two.Take(0, 0, true), ops);
    ops := [Two.Take(0, 0, true)] + ops;
  }

  lemma FromNested() returns (ops: seq<Two.Op>)
    requires Two.WeakInv(Nested())
    ensures Two.After(Nested(), ops) == StaleForGood()
  {
    ExpireNested();
    Overtake();
    FinishLate();
    ReleaseInVain();
    TwoAfterOne(Stale(), Two.Release(0, 0), []);
    TwoAfterOne(Overtaken(), Two.Finish(1), [Two.Release(0, 0)] + []);
    ops := [Two.Finish(1)] + ([Two.Release(0, 0)] + []);
    TwoAfterOne(NestedExpired(), Two.Take(2, 1, true), ops);
    ops := [Two.Take(2, 1, true)] + ops;
    TwoAfterOne(Nested(), Two.TimeOut(1), ops);
    ops := [Two.TimeOut(1)] + ops;
  }

  /**
   A run of the code as it is: a take that falls between an expiry and its cleanup leaves thread 0
   at priority 10 with an initial priority of 20, holding no mutex and blocking nobody.
   */
  lemma BoostOutlivesMutex() returns (ops: seq<Two.Op>)
    ensures Initial(NestedStart()) && Two.WeakInv(NestedStart()) && Two.After(NestedStart(), ops) == StaleForGood()
    ensures var th := StaleForGood().threads[0]; th.currentPriority == 10 < th.initPriority == 20 && th.taken == []
  {
    InitialInv(NestedStart());
    Two.InvWeak(NestedStart());
    NestedReached();
    Two.InvWeak(Nested());
    var rest := FromNested();
    ops := ToNested(rest);
  }

  /**
   Expiry and cleanup have to be one step.  When a take on a mutex of the expired thread falls
   between them, the need_update test compares the wrong priorities and the owner keeps
   priority 10 although nobody waits for it any more.
   */
  lemma CleanUpTooLate()
    ensures Leaving(Overtaken(), 1, 0)
    ensures !Inv(CleanUp(Overtaken(), 1, 0))
    ensures CleanUp(Overtaken(), 1, 0).threads[0].currentPriority == 10 && CleanUp(Overtaken(), 1, 0).mutexes[0].waiters == []
  {
    OvertakenLeaving();
    RefreshLinked(Overtaken(), 1, 0);
    var r := Refresh(Overtaken(), 0);
    assert !IsBest(r.threads[0].currentPriority, r.threads[0], r.mutexes);
  }

  lemma OvertakenLeaving()
    ensures Leaving(Overtaken(), 1, 0)
  {
    var s := Overtaken();
    forall t: ThreadId | t < |s.threads| ensures ThreadLinked(s, t) && IsBest(s.threads[t].currentPriority, s.threads[t], s.mutexes) {
      assert t == 0 || t == 1 || t == 2;
      assert s.threads[0].taken[0] == 0 && s.mutexes[0].priority == 10;
      assert s.threads[1].taken[0] == 1 && s.mutexes[1].priority == 5;
      assert 2 in s.mutexes[1].waiters;
    }
    forall m: MutexId | m < |s.mutexes| ensures MutexLinked(s, m) {
      assert m == 0 || m == 1;
      assert 0 in s.threads[0].taken && 1 in s.threads[1].taken;
    }
  }
}
