/** Ready lists by priority behind a bitmap of the non-empty ones (scheduler_up.c, scheduler_mp.c). */
module ReadyTable {
  import opened Wrappers
  import opened Bits

  type Tid = nat

  const PRIORITIES: nat := 32

  datatype Table = Table(group: nat, lists: seq<seq<Tid>>)

  /** Bit p of the ready group is set exactly when list p is not empty. */
  ghost predicate Indexed(group: nat, lists: seq<seq<Tid>>) {
    forall p: nat :: Bit(group, p) <==> p < |lists| && lists[p] != []
  }

  ghost predicate Ok(t: Table) {
    && |t.lists| == PRIORITIES && Indexed(t.group, t.lists)
    && forall p :: 0 <= p < PRIORITIES ==> NoDuplicates(t.lists[p])
  }

  /** x is ready at priority p. */
  ghost predicate Has(t: Table, p: nat, x: Tid) {
    p < |t.lists| && x in t.lists[p]
  }

  /** The list handling of rt_schedule_insert_thread: at the back once the slice is used up, else in front. */
  function Insert(t: Table, x: Tid, p: nat, yielded: bool): Table
    requires p < |t.lists|
  {
    Table(Or(t.group, Pow2(p)), t.lists[p := if yielded then t.lists[p] + [x] else [x] + t.lists[p]])
  }

  /** The list handling of rt_schedule_remove_thread. */
  function Remove(t: Table, x: Tid, p: nat): Table
    requires p < |t.lists|
  {
    var rest := Without(t.lists[p], x);
    Table(if rest == [] then AndNot(t.group, Pow2(p)) else t.group, t.lists[p := rest])
  }

  lemma InsertOk(t: Table, x: Tid, p: nat, yielded: bool)
    requires Ok(t) && p < PRIORITIES && !Has(t, p, x)
    ensures Ok(Insert(t, x, p, yielded))
    ensures forall q: nat, y :: Has(Insert(t, x, p, yielded), q, y) <==> Has(t, q, y) || (q == p && y == x)
  {
    var r := Insert(t, x, p, yielded);
    forall q: nat ensures Bit(r.group, q) <==> q < |r.lists| && r.lists[q] != [] {
      OrBit(t.group, Pow2(p), q);
      Pow2Bit(p, q);
    }
  }

  lemma RemoveOk(t: Table, x: Tid, p: nat)
    requires Ok(t) && p < PRIORITIES
    ensures Ok(Remove(t, x, p))
    ensures forall q: nat, y :: Has(Remove(t, x, p), q, y) <==> Has(t, q, y) && !(q == p && y == x)
  {
    var r := Remove(t, x, p);
    WithoutFacts(t.lists[p], x);
    forall q: nat ensures Bit(r.group, q) <==> q < |r.lists| && r.lists[q] != [] {
      AndNotBit(t.group, Pow2(p), q);
      Pow2Bit(p, q);
      if q == p && r.lists[p] != [] { assert r.lists[p][0] in t.lists[p]; }
    }
  }

  /** The word fits as many bits as there are lists. */
  lemma {:induction false} BitsBound(v: nat, k: nat)
    requires forall p: nat :: Bit(v, p) ==> p < k
    ensures v < Pow2(k)
  {
    if k == 0 {
      if v > 0 { LowBitLeast(v, 0); }
    } else {
      forall p: nat | Bit(v / 2, p) ensures p < k - 1 { assert Bit(v, p + 1); }
      BitsBound(v / 2, k - 1);
    }
  }

  /** _scheduler_get_highest_priority_thread: the priority it computes from the bitmap. */
  function HighestPriority(t: Table): int
    requires t.group < 0x1_0000_0000
  {
    Ffs(t.group) - 1
  }

  /** The bitmap leads to the first non-empty list. */
  lemma HighestIsFirst(t: Table)
    requires Ok(t)
    ensures t.group < 0x1_0000_0000
    ensures t.group == 0 ==> HighestPriority(t) == -1 && forall p :: 0 <= p < PRIORITIES ==> t.lists[p] == []
    ensures t.group > 0 ==>
      var h := HighestPriority(t);
      0 <= h < PRIORITIES && t.lists[h] != [] && forall p :: 0 <= p < h ==> t.lists[p] == []
  {
    BitsBound(t.group, PRIORITIES);
    WordSize();
    FfsCorrect(t.group);
    if t.group > 0 {
      LowBitLeast(t.group, 0);
      forall p | 0 <= p < LowBit(t.group) ensures t.lists[p] == [] { LowBitLeast(t.group, p); }
    } else {
      forall p | 0 <= p < PRIORITIES ensures t.lists[p] == [] { ZeroBit(p); }
    }
  }

  // ---------- RT_THREAD_PRIORITY_MAX > 32 ----------

  /** The priority with the given number (its upper five bits) and low three bits. */
  function Level(number: nat, low: nat): nat { 8 * number + low }

  /** Two levels: bit n of the group is set when byte n of the table is not zero. */
  datatype Table2 = Table2(group: nat, bytes: seq<nat>, lists: seq<seq<Tid>>)

  ghost predicate Ok2(t: Table2) {
    && |t.bytes| == 32 && |t.lists| == 256
    && (forall n: nat :: Bit(t.group, n) <==> n < 32 && t.bytes[n] != 0)
    && (forall n, k: nat :: 0 <= n < 32 ==> (Bit(t.bytes[n], k) <==> k < 8 && t.lists[Level(n, k)] != []))
  }

  function Insert2(t: Table2, x: Tid, n: nat, k: nat, yielded: bool): Table2
    requires n < |t.bytes| && Level(n, k) < |t.lists|
  {
    var p := Level(n, k);
    Table2(Or(t.group, Pow2(n)), t.bytes[n := Or(t.bytes[n], Pow2(k))],
           t.lists[p := if yielded then t.lists[p] + [x] else [x] + t.lists[p]])
  }

  function Remove2(t: Table2, x: Tid, n: nat, k: nat): Table2
    requires n < |t.bytes| && Level(n, k) < |t.lists|
  {
    var p := Level(n, k);
    var rest := Without(t.lists[p], x);
    if rest != [] then t.(lists := t.lists[p := rest])
    else
      var byte := AndNot(t.bytes[n], Pow2(k));
      Table2(if byte == 0 then AndNot(t.group, Pow2(n)) else t.group, t.bytes[n := byte], t.lists[p := rest])
  }

  lemma Insert2Ok(t: Table2, x: Tid, n: nat, k: nat, yielded: bool)
    requires Ok2(t) && n < 32 && k < 8
    ensures Ok2(Insert2(t, x, n, k, yielded))
    ensures forall p, y :: 0 <= p < 256 ==>
      (y in Insert2(t, x, n, k, yielded).lists[p] <==> y in t.lists[p] || (p == Level(n, k) && y == x))
  {
    var r := Insert2(t, x, n, k, yielded);
    OrBit(t.bytes[n], Pow2(k), k);
    Pow2Bit(k, k);
    if r.bytes[n] == 0 { ZeroBit(k); }
    forall m: nat ensures Bit(r.group, m) <==> m < 32 && r.bytes[m] != 0 {
      OrBit(t.group, Pow2(n), m);
      Pow2Bit(n, m);
    }
    forall m, j: nat | 0 <= m < 32 ensures Bit(r.bytes[m], j) <==> j < 8 && r.lists[Level(m, j)] != [] {
      OrBit(t.bytes[n], Pow2(k), j);
      Pow2Bit(k, j);
    }
  }

  lemma Remove2Ok(t: Table2, x: Tid, n: nat, k: nat)
    requires Ok2(t) && n < 32 && k < 8 && NoDuplicates(t.lists[Level(n, k)])
    ensures Ok2(Remove2(t, x, n, k))
    ensures forall p, y :: 0 <= p < 256 ==>
      (y in Remove2(t, x, n, k).lists[p] <==> y in t.lists[p] && !(p == Level(n, k) && y == x))
  {
    var r := Remove2(t, x, n, k);
    var p := Level(n, k);
    WithoutFacts(t.lists[p], x);
    if r.lists[p] != [] { assert r.lists[p][0] in t.lists[p]; }
    forall m: nat ensures Bit(r.group, m) <==> m < 32 && r.bytes[m] != 0 {
      AndNotBit(t.group, Pow2(n), m);
      Pow2Bit(n, m);
    }
    forall m, j: nat | 0 <= m < 32 ensures Bit(r.bytes[m], j) <==> j < 8 && r.lists[Level(m, j)] != [] {
      AndNotBit(t.bytes[n], Pow2(k), j);
      Pow2Bit(k, j);
    }
  }

  function HighestPriority2(t: Table2): int
    requires t.group < 0x1_0000_0000 && 0 < Ffs(t.group) <= |t.bytes| && t.bytes[Ffs(t.group) - 1] < 0x1_0000_0000
  {
    var number := Ffs(t.group) - 1;
    Level(number, Ffs(t.bytes[number])) - 1
  }

  lemma {:induction false} Pow2Less(j: nat, k: nat)
    requires j <= k
    ensures Pow2(j) <= Pow2(k)
  {
    if j < k { Pow2Less(j, k - 1); }
  }

  /** The group leads to the first non-zero byte. */
  lemma FirstByte(t: Table2)
    requires Ok2(t) && t.group > 0
    ensures t.group < 0x1_0000_0000 && 0 < Ffs(t.group) <= 32
    ensures var n := Ffs(t.group) - 1; t.bytes[n] > 0 && forall m :: 0 <= m < n ==> t.bytes[m] == 0
  {
    BitsBound(t.group, 32);
    WordSize();
    FfsCorrect(t.group);
    LowBitLeast(t.group, 0);
    forall m | 0 <= m < LowBit(t.group) ensures t.bytes[m] == 0 { LowBitLeast(t.group, m); }
  }

  /** A byte leads to its first set bit. */
  lemma FirstInByte(v: nat)
    requires v > 0 && forall k: nat :: Bit(v, k) ==> k < 8
    ensures v < 0x1_0000_0000 && 0 < Ffs(v) <= 8 && Bit(v, Ffs(v) - 1)
    ensures forall j: nat :: j < Ffs(v) - 1 ==> !Bit(v, j)
  {
    BitsBound(v, 8);
    Pow2Less(8, 32);
    WordSize();
    FfsCorrect(v);
    LowBitLeast(v, 0);
    forall j: nat | j < LowBit(v) ensures !Bit(v, j) { LowBitLeast(v, j); }
  }

  lemma EmptyAt(t: Table2, m: nat, j: nat)
    requires Ok2(t) && m < 32 && j < 8 && !Bit(t.bytes[m], j)
    ensures t.lists[Level(m, j)] == []
  {
  }

  /** The two-level index leads to the first non-empty of 256 lists. */
  lemma HighestIsFirst2(t: Table2)
    requires Ok2(t) && t.group > 0
    ensures t.group < 0x1_0000_0000 && 0 < Ffs(t.group) <= 32 && t.bytes[Ffs(t.group) - 1] < 0x1_0000_0000
    ensures var h := HighestPriority2(t);
      0 <= h < 256 && t.lists[h] != [] && forall p :: 0 <= p < h ==> t.lists[p] == []
  {
    FirstByte(t);
    var n := Ffs(t.group) - 1;
    FirstInByte(t.bytes[n]);
    var k := Ffs(t.bytes[n]) - 1;
    FirstList(t, n, k);
    assert HighestPriority2(t) == Level(n, k);
  }

  lemma FirstList(t: Table2, n: nat, k: nat)
    requires Ok2(t) && n < 32 && Bit(t.bytes[n], k)
    requires forall m :: 0 <= m < n ==> t.bytes[m] == 0
    requires forall j: nat :: j < k ==> !Bit(t.bytes[n], j)
    ensures k < 8 && t.lists[Level(n, k)] != [] && forall p :: 0 <= p < Level(n, k) ==> t.lists[p] == []
  {
    forall p | 0 <= p < Level(n, k) ensures t.lists[p] == [] {
      var m, j := p / 8, p % 8;
      assert p == Level(m, j);
      if m < n { ZeroBit(j); }
      EmptyAt(t, m, j);
    }
  }
}
