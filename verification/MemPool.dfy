/** The memory pool (mempool.c): fixed-size blocks, a free list threaded through them, and sleeping allocators. */
module MemPool {
  import opened Wrappers
  import opened RtList
  import opened SinglyLinked
  import opened WaitQueue

  /** Blocks are numbered by their place in the pool. */
  datatype Pool = Pool(total: nat, free: seq<Node>, live: set<Node>, freeCount: nat, waiters: Waiters)

  ghost predicate Owned(total: nat, free: seq<Node>, live: set<Node>) {
    && NoDuplicates(free) && Elems(free) !! live
    && forall b :: 0 <= b < total <==> b in Elems(free) || b in live
  }

  ghost predicate Inv(p: Pool) {
    Owned(p.total, p.free, p.live) && p.freeCount == |p.free| && Covered(p.waiters, |p.free|)
  }

  datatype Event = Alloc(t: Tid, waits: bool) | Free(b: Node) | Expire(i: nat)

  ghost predicate Enabled(p: Pool, e: Event) {
    match e
    case Alloc(t, _) => t !in p.waiters.suspended
    case Free(b) => b in p.live
    case Expire(i) => i < |p.waiters.suspended|
  }

  /** One look of rt_mp_alloc; a sleeper goes to the front of the list. */
  ghost function AllocStep(p: Pool, t: Tid, waits: bool): Pool
    requires p.freeCount > 0 ==> p.free != []
  {
    var looked := p.(waiters := Look(p.waiters, t));
    if p.freeCount == 0 then
      if waits then p.(waiters := Suspend(looked.waiters, t, 0)) else looked
    else looked.(freeCount := p.freeCount - 1, free := p.free[1..], live := p.live + {p.free[0]})
  }

  function FreeStep(p: Pool, b: Node): Pool {
    p.(freeCount := p.freeCount + 1, free := [b] + p.free, live := p.live - {b}, waiters := WakeFirst(p.waiters))
  }

  ghost function Step(p: Pool, e: Event): Pool
    requires Inv(p) && Enabled(p, e)
  {
    match e
    case Alloc(t, waits) => AllocStep(p, t, waits)
    case Free(b) => FreeStep(p, b)
    case Expire(i) => p.(waiters := WaitQueue.Expire(p.waiters, i))
  }

  lemma AllocInv(p: Pool, t: Tid, waits: bool)
    requires Inv(p) && Enabled(p, Alloc(t, waits))
    ensures Inv(AllocStep(p, t, waits))
  {
    if p.freeCount > 0 {
      ElemsTail(p.free);
      TakeCovered(p.waiters, t, |p.free|);
    } else if waits {
      SuspendCovered(p.waiters, t, 0);
    } else {
      LeaveCovered(p.waiters, t);
    }
  }

  lemma FreeInv(p: Pool, b: Node)
    requires Inv(p) && b in p.live
    ensures Inv(FreeStep(p, b))
  {
    ElemsPush(b, p.free);
    WakeCovered(p.waiters, |p.free|);
  }

  lemma StepInv(p: Pool, e: Event)
    requires Inv(p) && Enabled(p, e)
    ensures Inv(Step(p, e)) && Step(p, e).total == p.total
  {
    match e
    case Alloc(t, waits) => AllocInv(p, t, waits);
    case Free(b) => FreeInv(p, b);
    case Expire(i) => ExpireCovered(p.waiters, i, |p.free|);
  }

  ghost predicate Legal(p: Pool, es: seq<Event>)
    requires Inv(p)
    decreases |es|, 0
  {
    es == [] || (Legal(p, es[..|es| - 1]) && Enabled(After(p, es[..|es| - 1]), es[|es| - 1]))
  }

  ghost function After(p: Pool, es: seq<Event>): (r: Pool)
    requires Inv(p) && Legal(p, es)
    ensures Inv(r) && r.total == p.total
    decreases |es|, 1
  {
    if es == [] then p
    else
      var q := After(p, es[..|es| - 1]);
      StepInv(q, es[|es| - 1]);
      Step(q, es[|es| - 1])
  }

  ghost function InitialFree(total: nat): (r: seq<Node>)
    ensures |r| == total && forall k :: 0 <= k < total ==> r[k] == k
  {
    seq(total, k => k)
  }

  ghost function Fresh(total: nat): Pool {
    Pool(total, InitialFree(total), {}, total, NoWaiters)
  }

  lemma FreshInv(total: nat)
    ensures Inv(Fresh(total))
  {
    forall b ensures 0 <= b < total <==> b in Elems(InitialFree(total)) {
      InElems(InitialFree(total), b);
      if 0 <= b < total { assert InitialFree(total)[b] == b; }
    }
  }

  lemma {:induction false} RangeSize(n: nat, s: set<Node>)
    requires forall b :: 0 <= b < n <==> b in s
    ensures |s| == n
  {
    if n > 0 {
      RangeSize(n - 1, s - {n - 1});
      assert s == s - {n - 1} + {n - 1};
    } else {
      assert forall b :: b in s ==> 0 <= b < n;
      assert s == {};
    }
  }

  /** In every interleaving: each block has one owner, the counts add up, and no sleeper is overlooked. */
  lemma EveryRun(total: nat, es: seq<Event>)
    ensures Inv(Fresh(total))
    ensures Legal(Fresh(total), es) ==>
      var p := After(Fresh(total), es);
      && Elems(p.free) !! p.live && p.freeCount + |p.live| == total
      && NoLostWakeup(p.waiters, p.freeCount)
  {
    FreshInv(total);
    if Legal(Fresh(total), es) {
      var p := After(Fresh(total), es);
      ElemsSize(p.free);
      RangeSize(total, Elems(p.free) + p.live);
    }
  }

  // ---------- where rt_mp_init writes ----------

  /** The number of addresses, and of values of rt_size_t. */
  const SPACE: nat := 0x1_0000_0000

  function AlignUp(n: nat): nat { (n + 7) / 8 * 8 }
  function AlignDown(n: nat): nat { n / 8 * 8 }

  /** From one block to the next: the aligned block and the word in front of it. */
  function Stride(blockSize: nat, pointer: nat): nat { AlignUp(blockSize) + pointer }

  function BlockCount(size: nat, stride: nat): nat
    requires stride > 0
  {
    AlignDown(size) / stride
  }

  /** block_ptr + offset * stride, in the arithmetic of the target. */
  function BlockAddress(start: nat, offset: nat, stride: nat): nat { (start + offset * stride) % SPACE }

  /** offset - 1 as an unsigned number */
  function Before(offset: nat): nat { if offset == 0 then SPACE - 1 else offset - 1 }

  /** The addresses of the words rt_mp_init writes, in order. */
  function InitWrites(start: nat, size: nat, stride: nat): (r: seq<nat>)
    requires stride > 0
    ensures |r| == BlockCount(size, stride) + 1
  {
    var n := BlockCount(size, stride);
    seq(n, k requires 0 <= k < n => BlockAddress(start, k, stride)) + [BlockAddress(start, Before(n), stride)]
  }

  /** The loop and the final store of rt_mp_init, as far as addresses go. */
  method InitStores(start: nat, size: nat, blockSize: nat, pointer: nat) returns (writes: seq<nat>)
    requires pointer > 0
    ensures writes == InitWrites(start, size, Stride(blockSize, pointer))
  {
    var stride := Stride(blockSize, pointer);
    var n := BlockCount(size, stride);
    var offset := 0;
    writes := [];
    while offset < n
      invariant 0 <= offset <= n && |writes| == offset
      invariant forall k :: 0 <= k < offset ==> writes[k] == BlockAddress(start, k, stride)
    {
      writes := writes + [BlockAddress(start, offset, stride)];
      offset := offset + 1;
    }
    writes := writes + [BlockAddress(start, Before(offset), stride)];
  }

  /** A word at a lies within the region. */
  predicate Inside(a: nat, pointer: nat, start: nat, size: nat) { start <= a && a + pointer <= start + size }

  ghost predicate AllInside(writes: seq<nat>, pointer: nat, start: nat, size: nat) {
    forall i :: 0 <= i < |writes| ==> Inside(writes[i], pointer, start, size)
  }

  lemma BlockInside(start: nat, size: nat, stride: nat, pointer: nat, k: nat)
    requires 0 < pointer <= stride && start + size <= SPACE && k < BlockCount(size, stride)
    ensures Inside(BlockAddress(start, k, stride), pointer, start, size)
  {
    var n := BlockCount(size, stride);
    assert n * stride <= AlignDown(size) <= size;
    assert (k + 1) * stride <= n * stride;
    assert (k + 1) * stride == k * stride + stride;
  }

  lemma CountPositive(size: nat, stride: nat)
    requires stride > 0
    ensures BlockCount(size, stride) > 0 <==> AlignDown(size) >= stride
  {
    DivPositive(AlignDown(size), stride);
  }

  lemma DivPositive(d: nat, s: nat)
    requires s > 0
    ensures d / s > 0 <==> d >= s
  {
    if d < s {
      DivUnique(d, s, 0, d);
    } else {
      var q, r := Quotient(d - s, s);
      Shift(q, s);
      DivUnique(d, s, q + 1, r);
    }
  }

  lemma Quotient(d: nat, s: nat) returns (q: nat, r: nat)
    requires s > 0
    ensures d == q * s + r && r < s
  {
    q, r := d / s, d % s;
  }

  lemma Shift(q: nat, s: nat)
    ensures (q + 1) * s == q * s + s
  {
  }

  lemma DivUnique(d: nat, s: nat, q: nat, r: nat)
    requires s > 0 && d == q * s + r && r < s
    ensures d / s == q
  {
    var p, t := d / s, d % s;
    assert d == p * s + t && t < s;
    if p < q {
      Grow(p, q, s);
    } else if q < p {
      Grow(q, p, s);
    }
  }

  /** Multiples of s lie at least s apart. */
  lemma Grow(p: nat, q: nat, s: nat)
    requires p < q
    ensures p * s + s <= q * s
  {
    Shift(p, s);
    Distribute(p + 1, q - (p + 1), s);
  }

  lemma Distribute(a: nat, b: nat, s: nat)
    ensures (a + b) * s == a * s + b * s && b * s >= 0
  {
  }

  /** Without a block the terminator goes one stride in front of the region. */
  lemma TerminatorInFront(start: nat, stride: nat)
    requires start < SPACE && stride < SPACE
    ensures BlockAddress(start, Before(0), stride) == if start >= stride then start - stride else start + SPACE - stride
  {
    var a := if start >= stride then start - stride else start + SPACE - stride;
    var q := if start >= stride then stride else stride - 1;
    assert start + (SPACE - 1) * stride == q * SPACE + a;
  }

  /**
   rt_mp_init writes inside its region if and only if that holds at least one block, or block
   and region are together larger than the address space, so that the stray store wraps into it.
   */
  lemma InitInside(start: nat, size: nat, blockSize: nat, pointer: nat)
    requires pointer > 0 && start + size <= SPACE && start < SPACE && Stride(blockSize, pointer) < SPACE
    ensures AllInside(InitWrites(start, size, Stride(blockSize, pointer)), pointer, start, size) <==>
      AlignDown(size) >= Stride(blockSize, pointer) || Stride(blockSize, pointer) + size >= SPACE + pointer
  {
    var stride := Stride(blockSize, pointer);
    var n, w := BlockCount(size, stride), InitWrites(start, size, stride);
    CountPositive(size, stride);
    if n > 0 {
      forall i | 0 <= i < |w| ensures Inside(w[i], pointer, start, size) {
        BlockInside(start, size, stride, pointer, if i < n then i else n - 1);
      }
    } else {
      TerminatorInFront(start, stride);
      assert |w| == 1 && w[0] == BlockAddress(start, Before(0), stride);
    }
  }

  /** The usual case: block and region fit the address space together. */
  lemma InitInsideUsual(start: nat, size: nat, blockSize: nat, pointer: nat)
    requires pointer > 0 && start + size <= SPACE && start < SPACE && Stride(blockSize, pointer) + size < SPACE + pointer
    requires Stride(blockSize, pointer) < SPACE
    ensures AllInside(InitWrites(start, size, Stride(blockSize, pointer)), pointer, start, size) <==>
      AlignDown(size) >= AlignUp(blockSize) + pointer
  {
    InitInside(start, size, blockSize, pointer);
  }

  /** A region of 16 bytes for blocks of 16: the one store goes 20 bytes in front of it. */
  lemma TooSmallRegion()
    ensures InitWrites(0x2000_0000, 16, Stride(16, 4)) == [0x2000_0000 - 20]
    ensures !AllInside(InitWrites(0x2000_0000, 16, Stride(16, 4)), 4, 0x2000_0000, 16)
  {
    assert Stride(16, 4) == 20 && BlockCount(16, 20) == 0;
    TerminatorInFront(0x2000_0000, 20);
    assert InitWrites(0x2000_0000, 16, 20)[0] == 0x2000_0000 - 20;
  }

  // ---------- struct rt_mempool ----------

  /** The value of the first word of a block in use: the address of the pool object. */
  const OWNER: Node := -2

  lemma {:induction false} RangeChain(word: map<Node, Node>, total: nat, k: nat)
    requires k < total && forall b :: 0 <= b < total ==> b in word && word[b] == if b == total - 1 then NULL else b + 1
    ensures Chain(word, k, InitialFree(total)[k..])
    decreases total - k
  {
    var s := InitialFree(total);
    assert s[k..][1..] == s[k + 1..];
    if k + 1 < total { RangeChain(word, total, k + 1); } else { assert s[total..] == []; }
  }

  class Object {
    const total: nat
    var word: map<Node, Node>    // first word of each block
    var blockList: Node
    var freeCount: nat
    var waiters: Waiters
    ghost var free: seq<Node>
    ghost var live: set<Node>

    ghost function Abs(): Pool
      reads this
    {
      Pool(total, free, live, freeCount, waiters)
    }

    ghost predicate Valid()
      reads this
    {
      && Inv(Abs()) && (total > 0 ==> Chain(word, blockList, free))
      && forall b :: b in live ==> b in word && word[b] == OWNER
    }

    /** rt_mp_init; a pool without blocks keeps a block_list that nobody ever follows. */
    constructor (size: nat, blockSize: nat, pointer: nat)
      requires pointer > 0
      ensures Valid() && total == BlockCount(size, Stride(blockSize, pointer))
      ensures Abs() == Fresh(total)
    {
      var n := BlockCount(size, Stride(blockSize, pointer));
      total := n;
      freeCount := n;
      waiters := NoWaiters;
      word := map[];
      blockList := 0;
      free := InitialFree(n);
      live := {};
      new;
      var offset: int := 0;
      while offset < n
        invariant 0 <= offset <= n
        invariant forall b :: 0 <= b < offset ==> b in word && word[b] == b + 1
        invariant Abs() == Fresh(n) && blockList == 0
      {
        word := word[offset := offset + 1];
        offset := offset + 1;
      }
      word := word[offset - 1 := NULL];
      if n > 0 { RangeChain(word, n, 0); }
      assert free[0..] == free;
      FreshInv(n);
    }

    method Unlink() returns (b: Node)
      requires Chain(word, blockList, free) && NoDuplicates(free) && free != [] && Elems(free) !! live
      requires forall b :: b in live ==> b in word && word[b] == OWNER
      modifies this`word, this`blockList, this`free, this`live
      ensures b == old(free)[0] && free == old(free)[1..] && live == old(live) + {b}
      ensures Chain(word, blockList, free) && forall b :: b in live ==> b in word && word[b] == OWNER
    {
      b := blockList;
      ElemsTail(free);
      ChainFrame(word, word[b], free[1..], b, OWNER);
      blockList := word[b];
      word := word[b := OWNER];
      free := free[1..];
      live := live + {b};
    }

    /** rt_mp_alloc from one look at the counter to the next wait or the return. */
    method Alloc(t: Tid, waits: bool) returns (r: Option<Node>)
      requires Valid() && Enabled(Abs(), Event.Alloc(t, waits))
      modifies this
      ensures Valid() && Abs() == AllocStep(old(Abs()), t, waits)
      ensures r == if old(freeCount) == 0 then None else Some(old(free)[0])
    {
      AllocInv(Abs(), t, waits);
      waiters := Look(waiters, t);
      if freeCount == 0 {
        if waits {
          ghost var w := waiters;
          waiters := waiters.(suspended := [t] + waiters.suspended);
          assert waiters.suspended == Inserted(w.suspended, 0, t);
        }
        return None;
      }
      InElems(free, free[0]);
      freeCount := freeCount - 1;
      var b := Unlink();
      r := Some(b);
    }

    /** rt_mp_free */
    method Free(b: Node)
      requires Valid() && b in live
      modifies this
      ensures Valid() && Abs() == FreeStep(old(Abs()), b)
    {
      FreeInv(Abs(), b);
      ChainPush(word, blockList, free, b);
      freeCount := freeCount + 1;
      word := word[b := blockList];
      blockList := b;
      free := [b] + free;
      live := live - {b};
      waiters := WakeFirst(waiters);
    }
  }
}
