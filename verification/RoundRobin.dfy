/** Time slicing among threads of equal priority: exactly when each of them gets to run. */
module RoundRobin {
  import opened Wrappers
  import opened Bits
  import opened ReadyTable
  import opened UpScheduler

  /** f, n times over. */
  ghost function Iterate<T>(f: T -> T, s: T, n: nat): T {
    if n == 0 then s else Iterate(f, f(s), n - 1)
  }

  lemma {:induction false} IterateAdd<T>(f: T -> T, s: T, a: nat, b: nat)
    ensures Iterate(f, s, a + b) == Iterate(f, Iterate(f, s, a), b)
  {
    if a > 0 { IterateAdd(f, f(s), a - 1, b); }
  }

  lemma IterateOnce<T>(f: T -> T, s: T, n: nat)
    ensures Iterate(f, s, n + 1) == f(Iterate(f, s, n))
  {
    IterateAdd(f, s, n, 1);
    var m := Iterate(f, s, n);
    assert Iterate(f, m, 1) == Iterate(f, f(m), 0);
  }

  /** f does what a tick does. */
  ghost predicate IsTick(f: State -> State) {
    forall s :: Inv(s) ==> f(s) == Tick(s)
  }

  /** The ready threads that share the current thread's priority, in the order of their list. */
  ghost function Peers(s: State): seq<Tid>
    requires Inv(s)
  {
    s.table.lists[s.threads[s.current].priority]
  }

  /** The scheduler is unlocked and the running thread is at the top ready priority. */
  ghost predicate Turning(s: State) {
    && Inv(s) && s.lockNest == 0
    && s.threads[s.current].stat == Running
    && forall p :: 0 <= p < s.threads[s.current].priority ==> s.table.lists[p] == []
  }

  /** The ticks the threads of ts have left, together. */
  ghost function Left(threads: seq<Thread>, ts: seq<Tid>): int
    requires forall i :: 0 <= i < |ts| ==> ts[i] < |threads|
  {
    if ts == [] then 0 else threads[ts[0]].remaining + Left(threads, ts[1..])
  }

  lemma {:induction false} LeftAgrees(a: seq<Thread>, b: seq<Thread>, ts: seq<Tid>)
    requires forall i :: 0 <= i < |ts| ==> ts[i] < |a| && ts[i] < |b| && a[ts[i]].remaining == b[ts[i]].remaining
    ensures Left(a, ts) == Left(b, ts)
  {
    if ts != [] { LeftAgrees(a, b, ts[1..]); }
  }

  lemma PeersBelow(s: State)
    requires Inv(s)
    ensures forall i :: 0 <= i < |Peers(s)| ==>
      Peers(s)[i] < |s.threads| && QueuedAt(s.threads[Peers(s)[i]], s.threads[s.current].priority) && Peers(s)[i] != s.current
    ensures NoDuplicates(Peers(s))
  {
    forall i | 0 <= i < |Peers(s)|
      ensures Peers(s)[i] < |s.threads| && QueuedAt(s.threads[Peers(s)[i]], s.threads[s.current].priority)
    {
      assert Has(s.table, s.threads[s.current].priority, Peers(s)[i]);
    }
  }

  /** A tick inside the slice only counts down. */
  lemma CountDown(f: State -> State, s: State)
    requires IsTick(f) && Turning(s) && s.threads[s.current].remaining > 1
    ensures Turning(f(s)) && f(s) == Spent(s, 1)
  {
    TickInv(s);
  }

  /** The current thread with k ticks of its slice gone. */
  function Spent(s: State, k: nat): State
    requires s.current < |s.threads|
  {
    s.(threads := s.threads[s.current := s.threads[s.current].(remaining := s.threads[s.current].remaining - k)])
  }

  lemma {:induction false} WithinSlice(f: State -> State, s: State, k: nat)
    requires IsTick(f) && Turning(s) && k < s.threads[s.current].remaining
    ensures Turning(Spent(s, k)) && Iterate(f, s, k) == Spent(s, k)
    decreases k
  {
    if k > 0 {
      CountDown(f, s);
      WithinSlice(f, f(s), k - 1);
      assert Spent(Spent(s, 1), k - 1).threads == Spent(s, k).threads;
    } else {
      assert Spent(s, 0).threads == s.threads;
    }
  }

  lemma TopOfList(s: State)
    requires Turning(s) && Peers(s) != []
    ensures s.table.group != 0 && Highest(s) == (Peers(s)[0], s.threads[s.current].priority)
  {
    PeersBelow(s);
    var p := s.threads[s.current].priority;
    assert Has(s.table, p, Peers(s)[0]);
    HighestIsFirst(s.table);
    HighestFound(s);
    var h := HighestPriority(s.table);
    assert h <= p;
  }

  /** From s to r the processor has gone to the first peer, and the old current thread to the end of the line. */
  ghost predicate Turned(s: State, r: State)
    requires Inv(s)
  {
    && Turning(r) && Peers(s) != [] && r.current == Peers(s)[0] && Peers(r) == Peers(s)[1..] + [s.current]
    && |r.threads| == |s.threads|
    && forall t :: 0 <= t < |s.threads| && t != s.current ==> r.threads[t].remaining == s.threads[t].remaining
  }

  /** The last tick of the slice: the first peer takes over and the current thread goes to the end. */
  lemma SliceEnds(f: State -> State, s: State)
    requires IsTick(f) && Turning(s) && Peers(s) != [] && s.threads[s.current].remaining == 1
    ensures Turned(s, f(s))
  {
    var th := s.threads[s.current];
    var up := th.(remaining := th.initTick, yielded := true);
    var m := s.(threads := s.threads[s.current := up]);
    FiledSame(s.threads, s.table, s.current, up);
    PeersBelow(s);
    TopOfList(m);
    TickInv(s);
    Handover(m, Peers(s)[0]);
  }

  /** rt_schedule of a marked thread with peers. */
  lemma Handover(m: State, to: Tid)
    requires Turning(m) && m.threads[m.current].yielded && m.table.group != 0
    requires Peers(m) != [] && to == Peers(m)[0] && Highest(m) == (to, m.threads[m.current].priority)
    ensures var r := Schedule(m);
      && r.current == to && |r.threads| == |m.threads| && Turning(r) && Peers(r) == Peers(m)[1..] + [m.current]
      && forall t :: 0 <= t < |m.threads| ==> r.threads[t].remaining == m.threads[t].remaining
  {
    PeersBelow(m);
    ScheduleInv(m);
    PutAwayFiled(m);
    var p := m.threads[m.current].priority;
    var a := PutAway(m);
    assert a.table == Insert(m.table, m.current, p, true);
    assert a.table.lists[p] == Peers(m) + [m.current];
    var r := Schedule(m);
    assert r.table == Remove(a.table, to, p);
    assert Without(Peers(m) + [m.current], to) == Peers(m)[1..] + [m.current];
    forall t | 0 <= t < |m.threads|
      ensures r.threads[t].remaining == m.threads[t].remaining && r.threads[t].initTick == m.threads[t].initTick
    {}
  }

  /** After the whole slice of the current thread. */
  lemma OneTurn(f: State -> State, s: State) returns (r: State)
    requires IsTick(f) && Turning(s) && Peers(s) != [] && s.threads[s.current].remaining >= 1
    ensures r == Iterate(f, s, s.threads[s.current].remaining) && Turned(s, r)
  {
    var k := s.threads[s.current].remaining - 1;
    WithinSlice(f, s, k);
    r := LastTick(f, s, k);
    IterateOnce(f, s, k);
  }

  /** The tick that ends the slice, after k ticks inside it. */
  lemma LastTick(f: State -> State, s: State, k: nat) returns (r: State)
    requires IsTick(f) && Turning(s) && Turning(Spent(s, k)) && Peers(s) != []
    requires s.threads[s.current].remaining == k + 1
    ensures r == f(Spent(s, k)) && Turned(s, r)
  {
    r := f(Spent(s, k));
    SliceEnds(f, Spent(s, k));
    TurnedSpent(s, k, f(Spent(s, k)));
  }

  lemma TurnedSpent(s: State, k: nat, r: State)
    requires Inv(s) && Inv(Spent(s, k)) && Turned(Spent(s, k), r)
    ensures Turned(s, r)
  {
  }

  /** Before the end of its slice the current thread is the one that runs. */
  lemma NotYet(f: State -> State, s: State, n: nat)
    requires IsTick(f) && Turning(s) && n < s.threads[s.current].remaining
    ensures RunsAt(f, s, n) == s.current
  {
    WithinSlice(f, s, n);
  }

  /** The thread that runs after n ticks. */
  ghost function RunsAt(f: State -> State, s: State, n: nat): Tid {
    Iterate(f, s, n).current
  }

  /** x first runs after exactly n ticks. */
  ghost predicate FirstRunsAfter(f: State -> State, s: State, x: Tid, n: nat) {
    RunsAt(f, s, n) == x && forall m: nat :: m < n ==> RunsAt(f, s, m) != x
  }

  lemma RunsAtAdd(f: State -> State, s: State, r: State, a: nat, b: nat)
    requires r == Iterate(f, s, a)
    ensures RunsAt(f, s, a + b) == RunsAt(f, r, b)
  {
    IterateAdd(f, s, a, b);
  }

  lemma FirstRunsLater(f: State -> State, s: State, r: State, x: Tid, a: nat, b: nat)
    requires r == Iterate(f, s, a) && FirstRunsAfter(f, r, x, b)
    requires forall m: nat :: m < a ==> RunsAt(f, s, m) != x
    ensures FirstRunsAfter(f, s, x, a + b)
  {
    RunsAtAdd(f, s, r, a, b);
    forall m: nat | a <= m < a + b ensures RunsAt(f, s, m) != x { RunsAtAdd(f, s, r, a, m - a); }
  }

  /** The ticks until peer k has its turn. */
  ghost function Wait(s: State, k: nat): int
    requires Inv(s) && k <= |Peers(s)|
  {
    PeersBelow(s);
    s.threads[s.current].remaining + Left(s.threads, Peers(s)[..k])
  }

  /** Handing on the processor shortens the wait of everybody behind by exactly the slice that ended. */
  lemma WaitShrinks(s: State, r: State, k: nat)
    requires Inv(s) && 0 < k < |Peers(s)| && Turned(s, r)
    ensures Wait(s, k) == s.threads[s.current].remaining + Wait(r, k - 1)
  {
    PeersBelow(s);
    var ahead := Peers(s)[..k];
    assert ahead[0] == Peers(s)[0] && Peers(r)[..k - 1] == ahead[1..];
    forall i | 0 <= i < |ahead[1..]| ensures ahead[1..][i] != s.current && ahead[1..][i] < |s.threads| {
      assert ahead[1..][i] == Peers(s)[i + 1];
    }
    LeftAgrees(r.threads, s.threads, ahead[1..]);
  }

  lemma {:induction false} LeftPositive(threads: seq<Thread>, ts: seq<Tid>)
    requires forall i :: 0 <= i < |ts| ==> ts[i] < |threads| && threads[ts[i]].remaining >= 1
    ensures Left(threads, ts) >= 0
  {
    if ts != [] { LeftPositive(threads, ts[1..]); }
  }

  /** The current thread and the first k peers have something left of their slices. */
  ghost predicate SlicesLeft(s: State, k: nat)
    requires Inv(s) && k <= |Peers(s)|
  {
    && s.threads[s.current].remaining >= 1
    && forall i :: 0 <= i < k ==> Peers(s)[i] < |s.threads| && s.threads[Peers(s)[i]].remaining >= 1
  }

  lemma SlicesStay(s: State, r: State, k: nat)
    requires Inv(s) && 0 < k < |Peers(s)| && SlicesLeft(s, k) && Turned(s, r)
    ensures SlicesLeft(r, k - 1)
  {
    PeersBelow(s);
    forall i | 0 <= i < k - 1 ensures Peers(r)[i] < |r.threads| && r.threads[Peers(r)[i]].remaining >= 1 {
      assert Peers(r)[i] == Peers(s)[i + 1];
    }
  }

  /**
   With ticks as the only steps, peer k first runs after exactly the ticks left to the current
   thread and to the peers before it.
   */
  lemma {:induction false} RoundRobinBound(f: State -> State, s: State, k: nat)
    requires IsTick(f) && Turning(s) && k < |Peers(s)| && SlicesLeft(s, k)
    ensures Wait(s, k) >= 1 && FirstRunsAfter(f, s, Peers(s)[k], Wait(s, k))
    decreases k
  {
    var own, target := s.threads[s.current].remaining, Peers(s)[k];
    PeersBelow(s);
    LeftPositive(s.threads, Peers(s)[..k]);
    var r := OneTurn(f, s);
    forall m: nat | m < own ensures RunsAt(f, s, m) != target { NotYet(f, s, m); }
    if k == 0 {
      assert Peers(s)[..0] == [];
    } else {
      assert Peers(r)[k - 1] == target;
      SlicesStay(s, r, k);
      RoundRobinBound(f, r, k - 1);
      WaitShrinks(s, r, k);
      FirstRunsLater(f, s, r, target, own, Wait(r, k - 1));
    }
  }

  // ---------- the mark left by a slice without peers ----------

  /** A thread whose slice ends while it has no peers runs on with a full slice, but stays marked. */
  lemma LoneSlice(s: State)
    requires Turning(s) && Peers(s) == [] && s.threads[s.current].remaining == 1
    ensures var r := Tick(s);
      && r.current == s.current && |r.threads| == |s.threads|
      && r.threads[r.current].yielded && r.threads[r.current].remaining == s.threads[s.current].initTick
  {
    var th := s.threads[s.current];
    var up := th.(remaining := th.initTick, yielded := true);
    var m := s.(threads := s.threads[s.current := up]);
    FiledSame(s.threads, s.table, s.current, up);
    if m.table.group != 0 {
      var (to, h) := Highest(m);
      assert m.table.lists[h] != [];
    }
  }

  /** A peer takes over at the next rt_schedule exactly when the running thread is marked, however much slice it has left. */
  lemma PeerTakesOver(s: State)
    requires Turning(s) && Peers(s) != []
    ensures Schedule(s).current == if s.threads[s.current].yielded then Peers(s)[0] else s.current
  {
    TopOfList(s);
  }

  /** A slice ends without peers, b becomes ready, and the scheduler runs. */
  ghost function LoneSliceThenPeer(s: State, b: Tid): (r: State)
    requires Inv(s) && b < |s.threads| && |Tick(s).threads| == |s.threads| && Tick(s).threads[b].stat == Suspended
    ensures Inv(r)
  {
    TickInv(s);
    InsertInv(Tick(s), b);
    ScheduleInv(InsertThread(Tick(s), b));
    Schedule(InsertThread(Tick(s), b))
  }

  /** Resuming b when it is the only peer. */
  lemma PeerArrives(s: State, b: Tid)
    requires Turning(s) && Peers(s) == [] && b < |s.threads| && b != s.current
    requires s.threads[b].stat == Suspended && s.threads[b].priority == s.threads[s.current].priority
    ensures var r := InsertThread(s, b);
      Turning(r) && Peers(r) == [b] && r.current == s.current && r.threads[s.current] == s.threads[s.current]
  {
    InsertInv(s, b);
  }

  /**
   The mark costs a turn: the thread that had just been given a full slice loses the processor
   to b at once, with all of that slice left.
   */
  lemma MarkCostsTurn(s: State, b: Tid)
    requires Turning(s) && Peers(s) == [] && s.threads[s.current].remaining == 1
    requires b < |s.threads| && b != s.current && s.threads[b].stat == Suspended
    requires s.threads[b].priority == s.threads[s.current].priority
    ensures |Tick(s).threads| == |s.threads| && Tick(s).threads[b].stat == Suspended
    ensures var r := LoneSliceThenPeer(s, b);
      && r.current == b && |r.threads| == |s.threads|
      && r.threads[s.current].stat == Ready && r.threads[s.current].remaining == s.threads[s.current].initTick
  {
    LoneSliceState(s, b);
    var t := Tick(s);
    PeerArrives(t, b);
    var a := InsertThread(t, b);
    TopOfList(a);
    Handover(a, b);
    ScheduleInv(a);
    DisplacedReady(a);
  }

  /** LoneSlice, with what it leaves of the rest of the state. */
  lemma LoneSliceState(s: State, b: Tid)
    requires Turning(s) && Peers(s) == [] && s.threads[s.current].remaining == 1 && b < |s.threads| && b != s.current
    ensures var r := Tick(s);
      && Turning(r) && Peers(r) == [] && r.current == s.current && |r.threads| == |s.threads|
      && r.threads[s.current].priority == s.threads[s.current].priority && r.threads[b] == s.threads[b]
      && r.threads[s.current].yielded && r.threads[s.current].remaining == s.threads[s.current].initTick
  {
    var th := s.threads[s.current];
    var up := th.(remaining := th.initTick, yielded := true);
    var m := s.(threads := s.threads[s.current := up]);
    FiledSame(s.threads, s.table, s.current, up);
    TickInv(s);
    if m.table.group != 0 {
      var (to, h) := Highest(m);
      assert m.table.lists[h] != [];
      assert Without([], m.current) == [];
    }
  }

  /** A running thread that is displaced goes back to its ready list. */
  lemma DisplacedReady(s: State)
    requires Turning(s) && s.threads[s.current].yielded && Peers(s) != []
    ensures |Schedule(s).threads| == |s.threads| && Schedule(s).threads[s.current].stat == Ready
  {
    TopOfList(s);
    PeersBelow(s);
    PutAwayFiled(s);
  }

  // ---------- such a state ----------

  /** Thread 0 in the last tick of a slice of five, its peer 1 asleep, and the idle thread 2 ready. */
  ghost function Alone(): State {
    State([Thread(10, Running, false, 1, 5), Thread(10, Suspended, false, 5, 5), Thread(31, Ready, false, 5, 5)],
          Table(Pow2(31), seq(PRIORITIES, p => if p == 31 then [2] else [])), 0, 0)
  }

  lemma AloneTurning()
    ensures Turning(Alone()) && Peers(Alone()) == []
  {
    var s := Alone();
    forall p: nat ensures Bit(s.table.group, p) <==> p < |s.table.lists| && s.table.lists[p] != [] { Pow2Bit(31, p); }
    forall p: nat, t: Tid ensures Has(s.table, p, t) <==> t < |s.threads| && QueuedAt(s.threads[t], p) {
      assert p < PRIORITIES ==> s.table.lists[p] == if p == 31 then [2] else [];
    }
  }

  /** From that state thread 0 is off the processor with its whole new slice of five unused. */
  lemma AloneCostsTurn()
    ensures Turning(Alone()) && |Tick(Alone()).threads| == 3 && Tick(Alone()).threads[1].stat == Suspended
    ensures var r := LoneSliceThenPeer(Alone(), 1);
      r.current == 1 && |r.threads| == 3 && r.threads[0].stat == Ready && r.threads[0].remaining == 5
  {
    AloneTurning();
    MarkCostsTurn(Alone(), 1);
  }
}
