/**
 What rt_memheap (memheap.c) does to its blocks, free of pointers: a heap is the ascending
 sequence of its header addresses, the set of used blocks and the free list.  A block reaches
 from its header to the next one; the last header is the used tailer that stops merging.
 */
module HeapBlocks {
  import opened Wrappers
  import opened RtList

  const ALIGN_SIZE: nat := 8
  const HEADER: nat := 24     // RT_MEMHEAP_SIZE on the 32-bit target, without RT_USING_MEMTRACE
  const MINI_ALLOC: nat := 16 // RT_MEMHEAP_MINIALLOC

  type Addr = int

  datatype Heap = Heap(
    start: Addr,
    poolSize: nat,
    blocks: seq<Addr>,
    used: set<Addr>,
    free: seq<Addr>,
    available: int,
    maxUsed: int)
  {
    /** MEMITEM_SIZE of the block at position i. */
    function Size(i: nat): int
      requires i + 1 < |blocks|
    {
      blocks[i + 1] - blocks[i] - HEADER
    }

    ghost predicate IsFree(i: nat)
      requires i < |blocks|
    {
      blocks[i] !in used
    }
  }

  function AlignUp(n: nat): nat { (n + ALIGN_SIZE - 1) / ALIGN_SIZE * ALIGN_SIZE }

  function AlignDown(n: nat): nat { n / ALIGN_SIZE * ALIGN_SIZE }

  /** The number of payload bytes a request of n bytes is served with. */
  function RequestSize(n: nat): nat {
    if AlignUp(n) < MINI_ALLOC then MINI_ALLOC else AlignUp(n)
  }

  function Max(a: int, b: int): int { if a < b then b else a }

  function IndexOf(s: seq<Addr>, a: Addr): (i: nat)
    requires a in s
    ensures i < |s| && s[i] == a
  {
    if s[0] == a then 0 else 1 + IndexOf(s[1..], a)
  }

  // ---------- the invariant ----------

  /** Neighbours in b are at least d apart, in ascending order. */
  ghost predicate Spaced(b: seq<Addr>, d: nat) {
    |b| >= 2 ==> b[|b| - 2] + d <= b[|b| - 1] && Spaced(b[..|b| - 1], d)
  }

  lemma {:induction false} SpacedPair(b: seq<Addr>, d: nat, i: nat, j: nat)
    requires Spaced(b, d) && i < j < |b|
    ensures b[i] + d <= b[j]
  {
    if j < |b| - 1 {
      SpacedPair(b[..|b| - 1], d, i, j);
    } else if i < j - 1 {
      SpacedPair(b[..|b| - 1], d, i, j - 1);
    }
  }

  lemma {:induction false} SpacedAll(b: seq<Addr>, d: nat)
    requires forall i, j :: 0 <= i < j < |b| && j == i + 1 ==> b[i] + d <= b[j]
    ensures Spaced(b, d)
  {
    if |b| >= 2 { SpacedAll(b[..|b| - 1], d); }
  }

  function Words(k: int): int { 8 * k }

  /** n is a multiple of RT_ALIGN_SIZE. */
  ghost predicate IsAligned(n: int) { exists k :: Words(k) == n }

  lemma AlignedSum(x: int, y: int)
    requires IsAligned(x) && IsAligned(y)
    ensures IsAligned(x + y)
  {
    var j :| Words(j) == x;
    var k :| Words(k) == y;
    assert Words(j + k) == x + y;
  }

  /** Every header is at an aligned distance from the start of the pool. */
  ghost predicate Aligned(b: seq<Addr>, start: Addr) {
    b != [] ==> IsAligned(b[|b| - 1] - start) && Aligned(b[..|b| - 1], start)
  }

  lemma {:induction false} AlignedAt(b: seq<Addr>, start: Addr, i: nat)
    requires Aligned(b, start) && i < |b|
    ensures IsAligned(b[i] - start)
  {
    if i < |b| - 1 { AlignedAt(b[..|b| - 1], start, i); }
  }

  lemma {:induction false} AlignedAll(b: seq<Addr>, start: Addr)
    requires forall i :: 0 <= i < |b| ==> IsAligned(b[i] - start)
    ensures Aligned(b, start)
  {
    if b != [] { AlignedAll(b[..|b| - 1], start); }
  }

  /** A pool too small for one minimal block can never serve a request. */
  function MinBlock(poolSize: nat): nat {
    if poolSize < 2 * HEADER + MINI_ALLOC then 0 else MINI_ALLOC
  }

  /** The headers b tile a pool: first at its start, last just before its end, enough room between. */
  ghost predicate Tiling(start: Addr, poolSize: nat, b: seq<Addr>) {
    && |b| >= 2
    && poolSize >= 2 * HEADER
    && b[0] == start
    && b[|b| - 1] == start + poolSize - HEADER
    && Spaced(b, HEADER + MinBlock(poolSize))
  }

  ghost predicate Tiled(h: Heap) {
    Tiling(h.start, h.poolSize, h.blocks)
  }

  /** Used blocks are blocks; the tailer is one of them; free neighbours have been merged. */
  ghost predicate Coalesced(h: Heap) {
    && |h.blocks| >= 2
    && h.used <= Elems(h.blocks)
    && h.blocks[|h.blocks| - 1] in h.used
    && Separated(h.blocks, h.used)
  }

  /** No two neighbours in b are both free. */
  ghost predicate Separated(b: seq<Addr>, used: set<Addr>) {
    |b| >= 2 ==> (b[|b| - 2] in used || b[|b| - 1] in used) && Separated(b[..|b| - 1], used)
  }

  lemma {:induction false} SeparatedPairs(b: seq<Addr>, used: set<Addr>)
    ensures Separated(b, used) <==> NoFreePair(b, used)
  {
    if |b| >= 2 {
      var c := b[..|b| - 1];
      SeparatedPairs(c, used);
      if Separated(b, used) {
        forall i, j | 0 <= i < j < |b| && j == i + 1 ensures b[i] in used || b[j] in used {
          if j < |b| - 1 { assert c[i] in used || c[j] in used; }
        }
      }
      if NoFreePair(b, used) {
        assert b[|b| - 2] in used || b[|b| - 1] in used;
        forall i, j | 0 <= i < j < |c| && j == i + 1 ensures c[i] in used || c[j] in used {
          assert b[i] in used || b[j] in used;
        }
      }
    }
  }

  ghost predicate NoFreePair(b: seq<Addr>, used: set<Addr>) {
    forall i, j :: 0 <= i < j < |b| && j == i + 1 ==> b[i] in used || b[j] in used
  }

  /** The free list holds every free block exactly once. */
  ghost predicate Listed(h: Heap) {
    && NoDuplicates(h.free)
    && Elems(h.free) == Elems(h.blocks) - h.used
  }

  /** Sum of the payload sizes of the free blocks. */
  ghost function FreeBytes(b: seq<Addr>, used: set<Addr>): int {
    if |b| < 2 then 0
    else (if b[0] in used then 0 else b[1] - b[0] - HEADER) + FreeBytes(b[1..], used)
  }

  ghost predicate Accounted(h: Heap) {
    && h.available == FreeBytes(h.blocks, h.used)
    && h.poolSize - h.available <= h.maxUsed
  }

  ghost predicate Inv(h: Heap) {
    Tiled(h) && Aligned(h.blocks, h.start) && Coalesced(h) && Listed(h) && Accounted(h)
  }

  // ---------- sums of free bytes ----------

  lemma {:induction false} FreeBytesSplit(b: seq<Addr>, used: set<Addr>, i: nat)
    requires i < |b|
    ensures FreeBytes(b, used) == FreeBytes(b[..i + 1], used) + FreeBytes(b[i..], used)
  {
    if i > 0 {
      FreeBytesSplit(b[1..], used, i - 1);
      assert b[1..][..i] == b[..i + 1][1..];
      assert b[1..][i - 1..] == b[i..];
    } else {
      assert b[0..] == b;
    }
  }

  lemma {:induction false} FreeBytesAgree(b: seq<Addr>, u: set<Addr>, v: set<Addr>)
    requires forall k :: 0 <= k < |b| - 1 ==> (b[k] in u <==> b[k] in v)
    ensures FreeBytes(b, u) == FreeBytes(b, v)
  {
    if |b| >= 2 { FreeBytesAgree(b[1..], u, v); }
  }

  lemma FreeBytesOne(b: seq<Addr>, used: set<Addr>)
    requires |b| >= 2
    ensures FreeBytes(b, used) == (if b[0] in used then 0 else b[1] - b[0] - HEADER) + FreeBytes(b[1..], used)
  {
  }

  /** Putting a block into use takes its bytes out of the sum. */
  lemma FreeBytesMark(b: seq<Addr>, used: set<Addr>, i: nat)
    requires i + 1 < |b| && NoDuplicates(b) && b[i] !in used
    ensures FreeBytes(b, used + {b[i]}) == FreeBytes(b, used) - (b[i + 1] - b[i] - HEADER)
  {
    var u := used + {b[i]};
    FreeBytesSplit(b, used, i);
    FreeBytesSplit(b, u, i);
    FreeBytesAgree(b[..i + 1], used, u);
    FreeBytesOne(b[i..], used);
    FreeBytesOne(b[i..], u);
    assert b[i..][1..] == b[i + 1..];
    FreeBytesAgree(b[i + 1..], used, u);
  }

  /** Cutting a block by a new free header. */
  lemma FreeBytesCut(b: seq<Addr>, used: set<Addr>, i: nat, c: Addr)
    requires i + 1 < |b| && c !in used
    ensures FreeBytes(Inserted(b, i + 1, c), used)
         == FreeBytes(b, used) + (if b[i] in used then b[i + 1] - c - HEADER else 0 - HEADER)
  {
    var r := Inserted(b, i + 1, c);
    FreeBytesSplit(b, used, i);
    FreeBytesSplit(r, used, i);
    assert r[..i + 1] == b[..i + 1];
    FreeBytesOne(b[i..], used);
    FreeBytesOne(r[i..], used);
    assert r[i..][1..] == [c] + b[i + 1..];
    FreeBytesOne([c] + b[i + 1..], used);
    assert ([c] + b[i + 1..])[1..] == b[i + 1..];
    assert b[i..][1..] == b[i + 1..];
  }

  lemma InsertRemoved<T>(s: seq<T>, i: nat)
    requires i < |s|
    ensures Inserted(Removed(s, i), i, s[i]) == s
  {
  }

  lemma SpacedDistinct(b: seq<Addr>, d: nat)
    requires Spaced(b, d) && d > 0
    ensures NoDuplicates(b)
  {
    forall i, j | 0 <= i < j < |b| ensures b[i] != b[j] { SpacedPair(b, d, i, j); }
  }

  lemma SpacedInsert(b: seq<Addr>, i: nat, c: Addr, d: nat)
    requires Spaced(b, d) && i + 1 < |b|
    requires b[i] + d <= c && c + d <= b[i + 1]
    ensures Spaced(Inserted(b, i + 1, c), d)
  {
    var r := Inserted(b, i + 1, c);
    forall j, k | 0 <= j < k < |r| && k == j + 1 ensures r[j] + d <= r[k] {
      if j < i { SpacedPair(b, d, j, k); } else if j > i + 1 { SpacedPair(b, d, j - 1, j); }
    }
    SpacedAll(r, d);
  }

  lemma SpacedRemove(b: seq<Addr>, i: nat, d: nat)
    requires Spaced(b, d) && i < |b|
    ensures Spaced(Removed(b, i), d)
  {
    var r := Removed(b, i);
    forall j, k | 0 <= j < k < |r| && k == j + 1 ensures r[j] + d <= r[k] {
      SpacedPair(b, d, if j < i then j else j + 1, if k < i then k else k + 1);
    }
    SpacedAll(r, d);
  }

  /** Taking out the header between two free blocks. */
  lemma FreeBytesJoin(b: seq<Addr>, used: set<Addr>, i: nat)
    requires 1 <= i && i + 1 < |b| && b[i - 1] !in used && b[i] !in used
    ensures FreeBytes(Removed(b, i), used) == FreeBytes(b, used) + HEADER
  {
    InsertRemoved(b, i);
    FreeBytesCut(Removed(b, i), used, i - 1, b[i]);
  }

  /** Giving a free block's room to the used block before it. */
  lemma FreeBytesAbsorb(b: seq<Addr>, used: set<Addr>, i: nat)
    requires 1 <= i && i + 1 < |b| && b[i - 1] in used && b[i] !in used
    ensures FreeBytes(Removed(b, i), used) == FreeBytes(b, used) - (b[i + 1] - b[i] - HEADER)
  {
    InsertRemoved(b, i);
    FreeBytesCut(Removed(b, i), used, i - 1, b[i]);
    assert Removed(b, i)[i] == b[i + 1];
  }

  lemma {:induction false} IndexOfUnique(s: seq<Addr>, i: nat)
    requires NoDuplicates(s) && i < |s|
    ensures IndexOf(s, s[i]) == i
  {
    if i > 0 {
      assert s[1..][i - 1] == s[i];
      IndexOfUnique(s[1..], i - 1);
    }
  }

  // ---------- rt_memheap_init ----------

  function Init(start: Addr, size: nat): Heap
    requires AlignDown(size) >= 2 * HEADER
  {
    var pool := AlignDown(size);
    var available := pool - 2 * HEADER;
    var tail := start + available + HEADER;
    Heap(start, pool, [start, tail], {tail}, [start], available, pool - available)
  }

  lemma InitInv(start: Addr, size: nat)
    requires AlignDown(size) >= 2 * HEADER
    ensures Inv(Init(start, size))
  {
    var h := Init(start, size);
    assert Words(0) == 0 && Words(size / 8 - 3) == h.blocks[1] - start;
    AlignedAll(h.blocks, start);
    assert h.blocks[1..] == [h.blocks[1]];
    assert Elems(h.blocks) == {h.start} + Elems([h.blocks[1]]);
    assert Elems([h.start]) == {h.start};
    assert FreeBytes(h.blocks[1..], h.used) == 0;
  }

  /** The number of addresses of the 32-bit target. */
  const SPACE: nat := 0x1_0000_0000

  /** Where rt_memheap_init puts the tailer, in the unsigned arithmetic of the target. */
  function TailAddress(start: nat, size: nat): nat {
    (start + (AlignDown(size) + SPACE - 2 * HEADER) % SPACE + HEADER) % SPACE
  }

  /** The two headers it writes lie in the region, one behind the other. */
  predicate HeadersApart(start: nat, size: nat) {
    var tail := TailAddress(start, size);
    start + HEADER <= tail && tail + HEADER <= start + size
  }

  /** rt_memheap_init makes sense of a region if and only if that holds two headers; it does not check. */
  lemma InitFits(start: nat, size: nat)
    requires start + size <= SPACE
    ensures HeadersApart(start, size) <==> AlignDown(size) >= 2 * HEADER
  {
    var pool := AlignDown(size);
    assert pool <= size;
    if pool >= 2 * HEADER {
      assert (pool + SPACE - 2 * HEADER) % SPACE == pool - 2 * HEADER;
    } else {
      assert (pool + SPACE - 2 * HEADER) % SPACE == pool + SPACE - 2 * HEADER;
    }
  }

  /** A region of 40 bytes: the tailer overlaps the first header. */
  lemma InitTooSmall()
    ensures TailAddress(0x2000_0000, 40) == 0x2000_0000 + 16 && !HeadersApart(0x2000_0000, 40)
  {
    assert AlignDown(40) == 40;
  }

  // ---------- rt_memheap_alloc ----------

  function BlockSize(h: Heap, a: Addr): int {
    if a in h.blocks && IndexOf(h.blocks, a) + 1 < |h.blocks| then h.Size(IndexOf(h.blocks, a)) else 0
  }

  /** Position of the first block in the free list, from k on, that holds size bytes. */
  function FirstFit(h: Heap, size: nat, k: nat): nat
    requires k <= |h.free|
    decreases |h.free| - k
  {
    if k == |h.free| || BlockSize(h, h.free[k]) >= size then k else FirstFit(h, size, k + 1)
  }

  /** Cut size bytes off the free block at position i (position k of the free list). */
  ghost function SplitAt(h: Heap, i: nat, k: nat, size: nat): Heap
    requires i + 1 < |h.blocks| && k < |h.free|
  {
    var a := h.blocks[i];
    var c := a + HEADER + size;
    var available := h.available - size - HEADER;
    h.(blocks := Inserted(h.blocks, i + 1, c),
       used := h.used + {a},
       free := [c] + Removed(h.free, k),
       available := available,
       maxUsed := Max(h.maxUsed, h.poolSize - available))
  }

  /** Use the whole free block at position i. */
  ghost function TakeWhole(h: Heap, i: nat, k: nat): Heap
    requires i + 1 < |h.blocks| && k < |h.free|
  {
    var available := h.available - h.Size(i);
    h.(used := h.used + {h.blocks[i]},
       free := Removed(h.free, k),
       available := available,
       maxUsed := Max(h.maxUsed, h.poolSize - available))
  }

  ghost function AllocAt(h: Heap, k: nat, size: nat): Heap
    requires k < |h.free| && h.free[k] in h.blocks && IndexOf(h.blocks, h.free[k]) + 1 < |h.blocks|
  {
    var i := IndexOf(h.blocks, h.free[k]);
    if h.Size(i) >= size + HEADER + MINI_ALLOC then SplitAt(h, i, k, size) else TakeWhole(h, i, k)
  }

  /** The free block at position i, listed at position k, is about to be given out. */
  ghost predicate Fits(h: Heap, i: nat, k: nat, size: nat) {
    && Inv(h)
    && i + 1 < |h.blocks| && k < |h.free| && h.free[k] == h.blocks[i]
    && MINI_ALLOC <= size <= h.Size(i)
    && IsAligned(size)
  }

  lemma DistinctBlocks(h: Heap)
    requires Tiled(h)
    ensures NoDuplicates(h.blocks)
  {
    SpacedDistinct(h.blocks, HEADER + MinBlock(h.poolSize));
  }

  lemma FreeIndex(h: Heap, k: nat) returns (i: nat)
    requires Inv(h) && k < |h.free|
    ensures i + 1 < |h.blocks| && h.blocks[i] == h.free[k] && IndexOf(h.blocks, h.free[k]) == i
    ensures h.IsFree(i) && BlockSize(h, h.free[k]) == h.Size(i)
  {
    InElems(h.free, h.free[k]);
    InElems(h.blocks, h.free[k]);
    DistinctBlocks(h);
    i := IndexOf(h.blocks, h.free[k]);
  }

  lemma AlignedInsertAt(b: seq<Addr>, start: Addr, i: nat, c: Addr)
    requires Aligned(b, start) && i <= |b| && IsAligned(c - start)
    ensures Aligned(Inserted(b, i, c), start)
  {
    var r := Inserted(b, i, c);
    forall j | 0 <= j < |r| ensures IsAligned(r[j] - start) {
      if j != i {
        var k := if j < i then j else j - 1;
        assert r[j] == b[k];
        AlignedAt(b, start, k);
      }
    }
    AlignedAll(r, start);
  }

  lemma AlignedInsert(b: seq<Addr>, start: Addr, i: nat, size: nat)
    requires Aligned(b, start) && i < |b| && IsAligned(size)
    ensures Aligned(Inserted(b, i + 1, b[i] + HEADER + size), start)
  {
    AlignedAt(b, start, i);
    assert IsAligned(HEADER) by { assert Words(3) == HEADER; }
    AlignedSum(b[i] - start, HEADER);
    AlignedSum(b[i] - start + HEADER, size);
    AlignedInsertAt(b, start, i + 1, b[i] + HEADER + size);
  }

  lemma AlignedRemove(b: seq<Addr>, start: Addr, i: nat)
    requires Aligned(b, start) && i < |b|
    ensures Aligned(Removed(b, i), start)
  {
    var r := Removed(b, i);
    forall j | 0 <= j < |r| ensures IsAligned(r[j] - start) {
      AlignedAt(b, start, if j < i then j else j + 1);
    }
    AlignedAll(r, start);
  }

  /** A header size bytes into block i keeps the tiling when both parts are large enough. */
  lemma TilingInsert(start: Addr, poolSize: nat, b: seq<Addr>, i: nat, size: nat)
    requires Tiling(start, poolSize, b) && i + 1 < |b|
    requires MINI_ALLOC <= size && size + HEADER + MINI_ALLOC <= b[i + 1] - b[i] - HEADER
    ensures Tiling(start, poolSize, Inserted(b, i + 1, b[i] + HEADER + size))
  {
    SpacedInsert(b, i, b[i] + HEADER + size, HEADER + MinBlock(poolSize));
  }

  lemma SplitInv(h: Heap, i: nat, k: nat, size: nat)
    requires Fits(h, i, k, size) && h.Size(i) >= size + HEADER + MINI_ALLOC
    ensures Inv(SplitAt(h, i, k, size))
  {
    var r := SplitAt(h, i, k, size);
    var c := h.blocks[i] + HEADER + size;
    TilingInsert(h.start, h.poolSize, h.blocks, i, size);
    AlignedInsert(h.blocks, h.start, i, size);
    InElems(h.free, h.free[k]);
    SplitCoalesced(h, i, k, size);
    NewHeader(h, i, c);
    DistinctBlocks(h);
    SplitListed(h, i, k, size);
    SplitAccounted(h, i, k, size);
  }

  lemma NewHeader(h: Heap, i: nat, c: Addr)
    requires Tiled(h) && i + 1 < |h.blocks|
    requires h.blocks[i] + HEADER <= c && c + HEADER <= h.blocks[i + 1]
    ensures c !in Elems(h.blocks)
  {
    InElems(h.blocks, c);
    forall j | 0 <= j < |h.blocks| ensures h.blocks[j] != c {
      if j < i { SpacedPair(h.blocks, HEADER + MinBlock(h.poolSize), j, i); }
      if i + 1 < j { SpacedPair(h.blocks, HEADER + MinBlock(h.poolSize), i + 1, j); }
    }
  }

  lemma SplitAccounted(h: Heap, i: nat, k: nat, size: nat)
    requires Coalesced(h) && Accounted(h) && NoDuplicates(h.blocks)
    requires i + 1 < |h.blocks| && k < |h.free| && h.IsFree(i)
    requires h.blocks[i] + HEADER + size !in Elems(h.blocks)
    ensures Accounted(SplitAt(h, i, k, size))
  {
    FreeBytesMark(h.blocks, h.used, i);
    FreeBytesCut(h.blocks, h.used + {h.blocks[i]}, i, h.blocks[i] + HEADER + size);
  }

  lemma SplitNoFreePair(b: seq<Addr>, used: set<Addr>, i: nat, c: Addr)
    requires NoFreePair(b, used) && i + 1 < |b| && b[i + 1] in used
    ensures NoFreePair(Inserted(b, i + 1, c), used + {b[i]})
  {
    var r := Inserted(b, i + 1, c);
    forall j, k | 0 <= j < k < |r| && k == j + 1 ensures r[j] in used + {b[i]} || r[k] in used + {b[i]} {
      if j < i {
        assert r[j] == b[j] && r[k] == b[k];
      } else if j == i + 1 {
        assert r[k] == b[i + 1];
      } else if j > i + 1 {
        assert r[j] == b[j - 1] && r[k] == b[k - 1];
      }
    }
  }

  lemma SplitCoalesced(h: Heap, i: nat, k: nat, size: nat)
    requires Coalesced(h) && i + 1 < |h.blocks| && k < |h.free| && h.IsFree(i)
    ensures Coalesced(SplitAt(h, i, k, size))
  {
    var c := h.blocks[i] + HEADER + size;
    SeparatedPairs(h.blocks, h.used);
    assert h.blocks[i] in h.used || h.blocks[i + 1] in h.used;
    SplitNoFreePair(h.blocks, h.used, i, c);
    SeparatedPairs(Inserted(h.blocks, i + 1, c), h.used + {h.blocks[i]});
    InsertedElems(h.blocks, i + 1, c);
    InElems(h.blocks, h.blocks[i]);
    assert Inserted(h.blocks, i + 1, c)[|h.blocks|] == h.blocks[|h.blocks| - 1];
  }

  lemma Prepend(c: Addr, s: seq<Addr>)
    requires NoDuplicates(s) && c !in Elems(s)
    ensures NoDuplicates([c] + s) && Elems([c] + s) == {c} + Elems(s)
  {
    InElems(s, c);
    assert ([c] + s)[1..] == s;
  }

  lemma SplitSets(free: set<Addr>, blocks: set<Addr>, used: set<Addr>, a: Addr, c: Addr)
    requires free == blocks - used && c !in blocks && used <= blocks && a in blocks
    ensures {c} + (free - {a}) == blocks + {c} - (used + {a})
  {
  }

  lemma SplitListed(h: Heap, i: nat, k: nat, size: nat)
    requires h.used <= Elems(h.blocks) && Listed(h)
    requires i + 1 < |h.blocks| && k < |h.free| && h.free[k] == h.blocks[i]
    requires h.blocks[i] + HEADER + size !in Elems(h.blocks)
    ensures Listed(SplitAt(h, i, k, size))
  {
    var c := h.blocks[i] + HEADER + size;
    InElems(h.free, h.free[k]);
    SplitFreeList(h.free, k, c);
    InsertedElems(h.blocks, i + 1, c);
    SplitSets(Elems(h.free), Elems(h.blocks), h.used, h.blocks[i], c);
  }

  lemma SplitFreeList(free: seq<Addr>, k: nat, c: Addr)
    requires NoDuplicates(free) && k < |free| && c !in Elems(free)
    ensures NoDuplicates([c] + Removed(free, k))
    ensures Elems([c] + Removed(free, k)) == {c} + (Elems(free) - {free[k]})
  {
    RemovedElems(free, k);
    Prepend(c, Removed(free, k));
  }

  lemma {:induction false} SeparatedMore(b: seq<Addr>, used: set<Addr>, more: set<Addr>)
    requires Separated(b, used) && used <= more
    ensures Separated(b, more)
  {
    if |b| >= 2 { SeparatedMore(b[..|b| - 1], used, more); }
  }

  lemma WholeInv(h: Heap, i: nat, k: nat, size: nat)
    requires Fits(h, i, k, size)
    ensures Inv(TakeWhole(h, i, k))
  {
    DistinctBlocks(h);
    InElems(h.free, h.free[k]);
    RemovedElems(h.free, k);
    FreeBytesMark(h.blocks, h.used, i);
    SeparatedMore(h.blocks, h.used, h.used + {h.blocks[i]});
  }

  // ---------- rt_memheap_free ----------

  /** s without a. */
  ghost function Drop(s: seq<Addr>, a: Addr): seq<Addr> {
    if a in s then Removed(s, IndexOf(s, a)) else s
  }

  lemma DropElems(s: seq<Addr>, a: Addr)
    requires NoDuplicates(s)
    ensures NoDuplicates(Drop(s, a)) && Elems(Drop(s, a)) == Elems(s) - {a}
  {
    InElems(s, a);
    if a in s { RemovedElems(s, IndexOf(s, a)); }
  }

  ghost predicate LeftFree(h: Heap, i: nat)
    requires i + 1 < |h.blocks|
  {
    i > 0 && h.blocks[i - 1] !in h.used
  }

  /** The headers after a possible left merge, and the position of the freed room among them. */
  ghost function MergedLeft(h: Heap, i: nat): seq<Addr>
    requires i + 1 < |h.blocks|
  {
    if i > 0 && h.blocks[i - 1] !in h.used then Removed(h.blocks, i) else h.blocks
  }

  ghost function FreedAt(h: Heap, i: nat): (j: nat)
    requires i + 1 < |h.blocks|
    ensures j + 1 < |MergedLeft(h, i)|
  {
    if i > 0 && h.blocks[i - 1] !in h.used then i - 1 else i
  }

  /** The headers after both merges. */
  ghost function FreedBlocks(h: Heap, i: nat): seq<Addr>
    requires i + 1 < |h.blocks|
  {
    var b, j := MergedLeft(h, i), FreedAt(h, i);
    if b[j + 1] !in h.used then Removed(b, j + 1) else b
  }

  /** The free list after both merges. */
  ghost function FreedList(h: Heap, i: nat): seq<Addr>
    requires i + 1 < |h.blocks|
  {
    var n := h.blocks[i + 1];
    var rest := if n !in h.used then Drop(h.free, n) else h.free;
    if i > 0 && h.blocks[i - 1] !in h.used then rest else [h.blocks[i]] + rest
  }

  /** The block at position i becomes free and is merged with its free neighbours. */
  ghost function FreeAt(h: Heap, i: nat): Heap
    requires i + 1 < |h.blocks|
  {
    h.(blocks := FreedBlocks(h, i),
       used := h.used - {h.blocks[i]},
       free := FreedList(h, i),
       available := h.available + h.Size(i)
         + (if i > 0 && h.blocks[i - 1] !in h.used then HEADER else 0)
         + (if h.blocks[i + 1] !in h.used then HEADER else 0))
  }

  /** The block at position i is in use and is not the tailer. */
  ghost predicate Live(h: Heap, i: nat) {
    Inv(h) && i + 1 < |h.blocks| && h.blocks[i] in h.used
  }

  lemma TilingRemove(start: Addr, poolSize: nat, b: seq<Addr>, i: nat)
    requires Tiling(start, poolSize, b) && 0 < i && i + 1 < |b|
    ensures Tiling(start, poolSize, Removed(b, i))
  {
    SpacedRemove(b, i, HEADER + MinBlock(poolSize));
  }

  /** As NoFreePair, but pairs with position j do not count. */
  ghost predicate NoFreePairBut(b: seq<Addr>, used: set<Addr>, j: nat) {
    forall i, k :: 0 <= i < k < |b| && k == i + 1 && i != j && k != j ==> b[i] in used || b[k] in used
  }

  lemma PairMark(b: seq<Addr>, used: set<Addr>, i: nat)
    requires NoFreePair(b, used) && NoDuplicates(b) && i < |b|
    ensures NoFreePairBut(b, used - {b[i]}, i)
  {
  }

  lemma PairBut(b: seq<Addr>, used: set<Addr>, j: nat, i: nat)
    requires NoFreePairBut(b, used, j) && i + 1 < |b| && i != j && i + 1 != j
    ensures b[i] in used || b[i + 1] in used
  {
  }

  lemma PairRemoveSelf(b: seq<Addr>, used: set<Addr>, i: nat)
    requires NoFreePairBut(b, used, i) && 0 < i < |b| && b[i - 1] !in used
    ensures NoFreePairBut(Removed(b, i), used, i - 1)
    ensures i >= 2 ==> b[i - 2] in used
  {
    if i >= 2 { PairBut(b, used, i, i - 2); }
  }

  lemma PairRemoveNext(b: seq<Addr>, used: set<Addr>, j: nat)
    requires NoFreePairBut(b, used, j) && j + 2 < |b| && b[j + 1] !in used
    ensures NoFreePairBut(Removed(b, j + 1), used, j)
    ensures b[j + 2] in used
  {
    PairBut(b, used, j, j + 1);
  }

  lemma PairClose(b: seq<Addr>, used: set<Addr>, j: nat)
    requires NoFreePairBut(b, used, j)
    requires j > 0 && j - 1 < |b| ==> b[j - 1] in used
    requires j + 1 < |b| ==> b[j + 1] in used
    ensures NoFreePair(b, used)
  {
  }

  lemma MergedLeftShape(h: Heap, i: nat)
    requires i + 1 < |h.blocks|
    ensures var b, j := MergedLeft(h, i), FreedAt(h, i);
      && j + 1 < |b| && b[j + 1] == h.blocks[i + 1]
      && b[|b| - 1] == h.blocks[|h.blocks| - 1]
      && |b| - (j + 1) == |h.blocks| - (i + 1)
      && (LeftFree(h, i) ==> b[j] == h.blocks[i - 1])
      && (!LeftFree(h, i) ==> b[j] == h.blocks[i])
  {
  }

  lemma FreeTiled(h: Heap, i: nat)
    requires Tiled(h) && i + 1 < |h.blocks| && h.blocks[|h.blocks| - 1] in h.used
    ensures Tiled(FreeAt(h, i))
  {
    MergedLeftShape(h, i);
    var b, j := MergedLeft(h, i), FreedAt(h, i);
    if LeftFree(h, i) { TilingRemove(h.start, h.poolSize, h.blocks, i); }
    if b[j + 1] !in h.used { TilingRemove(h.start, h.poolSize, b, j + 1); }
  }

  lemma FreeAligned(h: Heap, i: nat)
    requires Aligned(h.blocks, h.start) && i + 1 < |h.blocks|
    ensures Aligned(FreedBlocks(h, i), h.start)
  {
    var b, j := MergedLeft(h, i), FreedAt(h, i);
    if LeftFree(h, i) { AlignedRemove(h.blocks, h.start, i); }
    if b[j + 1] !in h.used { AlignedRemove(b, h.start, j + 1); }
  }

  lemma FreePairsLeft(h: Heap, i: nat)
    requires Tiled(h) && Coalesced(h) && i + 1 < |h.blocks|
    ensures var b, j, used := MergedLeft(h, i), FreedAt(h, i), h.used - {h.blocks[i]};
      && NoFreePairBut(b, used, j)
      && (j > 0 ==> b[j - 1] in used)
      && h.blocks[|h.blocks| - 1] in used
  {
    DistinctBlocks(h);
    SeparatedPairs(h.blocks, h.used);
    var used := h.used - {h.blocks[i]};
    PairMark(h.blocks, h.used, i);
    if LeftFree(h, i) { PairRemoveSelf(h.blocks, used, i); }
  }

  lemma PairMergeRight(b: seq<Addr>, used: set<Addr>, j: nat)
    requires NoFreePairBut(b, used, j) && j + 1 < |b| && b[|b| - 1] in used
    requires j > 0 ==> b[j - 1] in used
    ensures var r := if b[j + 1] !in used then Removed(b, j + 1) else b;
      |r| >= 2 && NoFreePair(r, used) && r[|r| - 1] in used
  {
    if b[j + 1] !in used {
      PairRemoveNext(b, used, j);
      PairClose(Removed(b, j + 1), used, j);
    } else {
      PairClose(b, used, j);
    }
  }

  lemma FreePairs(h: Heap, i: nat)
    requires Tiled(h) && Coalesced(h) && i + 1 < |h.blocks|
    ensures |FreedBlocks(h, i)| >= 2
    ensures Separated(FreedBlocks(h, i), h.used - {h.blocks[i]})
    ensures FreedBlocks(h, i)[|FreedBlocks(h, i)| - 1] in h.used - {h.blocks[i]}
  {
    MergedLeftShape(h, i);
    FreePairsLeft(h, i);
    SpacedPair(h.blocks, HEADER + MinBlock(h.poolSize), i, i + 1);
    PairMergeRight(MergedLeft(h, i), h.used - {h.blocks[i]}, FreedAt(h, i));
    SeparatedPairs(FreedBlocks(h, i), h.used - {h.blocks[i]});
  }

  lemma FreeElems(h: Heap, i: nat)
    requires NoDuplicates(h.blocks) && i + 1 < |h.blocks|
    ensures Elems(FreedBlocks(h, i)) ==
      Elems(h.blocks) - (if LeftFree(h, i) then {h.blocks[i]} else {}) - (if h.blocks[i + 1] !in h.used then {h.blocks[i + 1]} else {})
  {
    MergedLeftShape(h, i);
    var b, j := MergedLeft(h, i), FreedAt(h, i);
    if LeftFree(h, i) { RemovedElems(h.blocks, i); }
    if b[j + 1] !in h.used { RemovedElems(b, j + 1); }
  }

  lemma FreeListElems(h: Heap, i: nat)
    requires NoDuplicates(h.free) && i + 1 < |h.blocks| && h.blocks[i] !in Elems(h.free)
    ensures NoDuplicates(FreedList(h, i))
    ensures Elems(FreedList(h, i)) ==
      (if LeftFree(h, i) then {} else {h.blocks[i]}) + (Elems(h.free) - (if h.blocks[i + 1] !in h.used then {h.blocks[i + 1]} else {}))
  {
    var n := h.blocks[i + 1];
    DropElems(h.free, n);
    var rest := if n !in h.used then Drop(h.free, n) else h.free;
    if !LeftFree(h, i) { Prepend(h.blocks[i], rest); }
  }

  lemma FreeListed(h: Heap, i: nat)
    requires Tiled(h) && Coalesced(h) && Listed(h) && i + 1 < |h.blocks| && h.blocks[i] in h.used
    ensures Listed(FreeAt(h, i)) && FreeAt(h, i).used <= Elems(FreeAt(h, i).blocks)
  {
    var a, n := h.blocks[i], h.blocks[i + 1];
    DistinctBlocks(h);
    FreeElems(h, i);
    InElems(h.blocks, n);
    FreeListElems(h, i);
    assert a != n;
    FreeSets(Elems(h.free), Elems(h.blocks), h.used, a, n, LeftFree(h, i), n !in h.used);
  }

  lemma FreeSets(free: set<Addr>, blocks: set<Addr>, used: set<Addr>, a: Addr, n: Addr, left: bool, right: bool)
    requires free == blocks - used && used <= blocks && a in used && a != n && n in blocks
    requires right <==> n !in used
    ensures (if left then {} else {a}) + (free - (if right then {n} else {}))
         == blocks - (if left then {a} else {}) - (if right then {n} else {}) - (used - {a})
    ensures used - {a} <= blocks - (if left then {a} else {}) - (if right then {n} else {})
  {
  }

  lemma FreeAccounted(h: Heap, i: nat)
    requires Accounted(h) && Tiled(h) && i + 1 < |h.blocks| && h.blocks[i] in h.used
    requires h.blocks[|h.blocks| - 1] in h.used
    ensures Accounted(FreeAt(h, i))
  {
    DistinctBlocks(h);
    SpacedPair(h.blocks, HEADER + MinBlock(h.poolSize), i, i + 1);
    var used := h.used - {h.blocks[i]};
    assert used + {h.blocks[i]} == h.used;
    FreeBytesMark(h.blocks, used, i);
    MergedLeftShape(h, i);
    var b, j := MergedLeft(h, i), FreedAt(h, i);
    if LeftFree(h, i) { FreeBytesJoin(h.blocks, used, i); }
    if b[j + 1] !in h.used { FreeBytesJoin(b, used, j + 1); }
  }

  lemma FreeInv(h: Heap, i: nat)
    requires Live(h, i)
    ensures Inv(FreeAt(h, i))
  {
    FreeTiled(h, i);
    FreeAligned(h, i);
    FreePairs(h, i);
    FreeListed(h, i);
    FreeAccounted(h, i);
  }

  // ---------- rt_memheap_realloc in place ----------

  /** The free block after block i is large enough to grow into. */
  predicate CanGrow(h: Heap, i: nat, size: nat) {
    && i + 2 < |h.blocks| && h.blocks[i + 1] !in h.used
    && h.Size(i) < size && size + MINI_ALLOC < h.Size(i + 1) + h.Size(i)
  }

  /** The header of the free block that follows moves up. */
  ghost function GrowAt(h: Heap, i: nat, size: nat): Heap
    requires i + 2 < |h.blocks|
  {
    var c := h.blocks[i] + HEADER + size;
    var available := h.available - (size - h.Size(i));
    h.(blocks := Inserted(Removed(h.blocks, i + 1), i + 1, c),
       free := [c] + Drop(h.free, h.blocks[i + 1]),
       available := available,
       maxUsed := Max(h.maxUsed, h.poolSize - available))
  }

  lemma GrowPairs(b: seq<Addr>, used: set<Addr>, i: nat, c: Addr)
    requires Separated(b, used) && i + 2 < |b| && b[i] in used && b[i + 1] !in used && b[|b| - 1] in used
    ensures var r := Inserted(Removed(b, i + 1), i + 1, c);
      Separated(r, used) && r[|r| - 1] in used
  {
    SeparatedPairs(b, used);
    SeparatedPairs(Inserted(Removed(b, i + 1), i + 1, c), used);
    var m := Removed(b, i + 1);
    assert b[i + 1] in used || b[i + 2] in used;
    assert m[i + 1] == b[i + 2] && m[i] == b[i];
    assert m[|m| - 1] == b[|b| - 1];
    assert NoFreePair(m, used);
    SplitNoFreePair(m, used, i, c);
    assert used + {b[i]} == used;
  }

  lemma GrowListed(h: Heap, i: nat, c: Addr)
    requires Listed(h) && h.used <= Elems(h.blocks) && Tiled(h)
    requires i + 2 < |h.blocks| && h.blocks[i + 1] !in h.used && c !in Elems(Removed(h.blocks, i + 1))
    ensures var b, f := Inserted(Removed(h.blocks, i + 1), i + 1, c), [c] + Drop(h.free, h.blocks[i + 1]);
      NoDuplicates(f) && Elems(f) == Elems(b) - h.used && h.used <= Elems(b)
  {
    var n := h.blocks[i + 1];
    DistinctBlocks(h);
    RemovedElems(h.blocks, i + 1);
    InsertedElems(Removed(h.blocks, i + 1), i + 1, c);
    DropElems(h.free, n);
    Prepend(c, Drop(h.free, n));
    InElems(h.blocks, n);
    GrowSets(Elems(h.free), Elems(h.blocks), h.used, n, c);
  }

  lemma GrowSets(free: set<Addr>, blocks: set<Addr>, used: set<Addr>, n: Addr, c: Addr)
    requires free == blocks - used && used <= blocks && n in blocks && n !in used && c !in blocks - {n}
    ensures {c} + (free - {n}) == blocks - {n} + {c} - used
    ensures used <= blocks - {n} + {c}
  {
  }

  lemma GrowTiled(h: Heap, i: nat, size: nat)
    requires Tiled(h) && CanGrow(h, i, size) && size >= MINI_ALLOC
    ensures Tiled(GrowAt(h, i, size))
    ensures h.blocks[i] + HEADER + size !in Elems(Removed(h.blocks, i + 1))
  {
    var b := Removed(h.blocks, i + 1);
    TilingRemove(h.start, h.poolSize, h.blocks, i + 1);
    assert b[i] == h.blocks[i] && b[i + 1] == h.blocks[i + 2];
    TilingInsert(h.start, h.poolSize, b, i, size);
    NewHeader(h.(blocks := b), i, h.blocks[i] + HEADER + size);
    GrownBlocks(h, i, size, b);
  }

  lemma GrownBlocks(h: Heap, i: nat, size: nat, b: seq<Addr>)
    requires i + 2 < |h.blocks| && b == Removed(h.blocks, i + 1)
    ensures GrowAt(h, i, size).blocks == Inserted(b, i + 1, h.blocks[i] + HEADER + size)
    ensures GrowAt(h, i, size).start == h.start && GrowAt(h, i, size).poolSize == h.poolSize
  {
  }

  lemma GrowAligned(h: Heap, i: nat, size: nat)
    requires Aligned(h.blocks, h.start) && i + 2 < |h.blocks| && IsAligned(size)
    ensures Aligned(GrowAt(h, i, size).blocks, h.start)
  {
    AlignedRemove(h.blocks, h.start, i + 1);
    AlignedInsert(Removed(h.blocks, i + 1), h.start, i, size);
  }

  lemma GrowAccounted(h: Heap, i: nat, size: nat)
    requires Accounted(h) && i + 2 < |h.blocks| && h.blocks[i] in h.used && h.blocks[i + 1] !in h.used
    requires h.blocks[i] + HEADER + size !in h.used
    ensures Accounted(GrowAt(h, i, size))
  {
    var b := Removed(h.blocks, i + 1);
    FreeBytesAbsorb(h.blocks, h.used, i + 1);
    assert b[i] == h.blocks[i] && b[i + 1] == h.blocks[i + 2];
    FreeBytesCut(b, h.used, i, h.blocks[i] + HEADER + size);
  }

  lemma GrowInv(h: Heap, i: nat, size: nat)
    requires Live(h, i) && CanGrow(h, i, size) && IsAligned(size) && size >= MINI_ALLOC
    ensures Inv(GrowAt(h, i, size))
  {
    var c := h.blocks[i] + HEADER + size;
    GrowTiled(h, i, size);
    GrowAligned(h, i, size);
    GrowPairs(h.blocks, h.used, i, c);
    GrowListed(h, i, c);
    GrowNotUsed(h, i, c);
    GrowAccounted(h, i, size);
    var r := GrowAt(h, i, size);
    assert r.used == h.used && r.blocks == Inserted(Removed(h.blocks, i + 1), i + 1, c);
    InvParts(r);
  }

  lemma InvParts(h: Heap)
    requires Tiled(h) && Aligned(h.blocks, h.start) && Accounted(h)
    requires Separated(h.blocks, h.used) && h.blocks[|h.blocks| - 1] in h.used && h.used <= Elems(h.blocks)
    requires NoDuplicates(h.free) && Elems(h.free) == Elems(h.blocks) - h.used
    ensures Inv(h)
  {
  }

  lemma GrowNotUsed(h: Heap, i: nat, c: Addr)
    requires Tiled(h) && h.used <= Elems(h.blocks) && i + 2 < |h.blocks| && h.blocks[i + 1] !in h.used
    requires c !in Elems(Removed(h.blocks, i + 1))
    ensures c !in h.used
  {
    DistinctBlocks(h);
    RemovedElems(h.blocks, i + 1);
  }

  /** The block gives its end back, merged with the free block that may follow. */
  ghost function ShrinkAt(h: Heap, i: nat, size: nat): Heap
    requires i + 1 < |h.blocks|
  {
    var c := h.blocks[i] + HEADER + size;
    var b := Inserted(h.blocks, i + 1, c);
    var n := h.blocks[i + 1];
    if n !in h.used && i + 2 < |h.blocks| then
      h.(blocks := Removed(b, i + 2),
         free := [c] + Drop(h.free, n),
         available := h.available - h.Size(i + 1) + (h.blocks[i + 2] - c - HEADER))
    else
      h.(blocks := b, free := [c] + h.free, available := h.available + (n - c - HEADER))
  }

  /** Shrinking, before the cut-off end c joins the free list. */
  ghost function TailCut(h: Heap, i: nat, c: Addr): (r: Heap)
    requires i + 1 < |h.blocks|
    ensures i + 2 < |r.blocks|
  {
    var b := Inserted(h.blocks, i + 1, c);
    var n := h.blocks[i + 1];
    if n !in h.used && i + 2 < |h.blocks| then
      h.(blocks := Removed(b, i + 2), free := Drop(h.free, n), available := h.available - h.Size(i + 1))
    else h.(blocks := b)
  }

  lemma ShrinkByTail(h: Heap, i: nat, size: nat)
    requires i + 1 < |h.blocks|
    ensures var c := h.blocks[i] + HEADER + size;
      var r := TailCut(h, i, c);
      ShrinkAt(h, i, size) == r.(free := [c] + r.free, available := r.available + (r.blocks[i + 2] - c - HEADER))
  {
  }

  lemma ShrinkPairs(b: seq<Addr>, used: set<Addr>, i: nat, c: Addr)
    requires Separated(b, used) && i + 1 < |b| && b[i] in used && b[|b| - 1] in used
    ensures var r := Inserted(b, i + 1, c);
      var t := if r[i + 2] !in used then Removed(r, i + 2) else r;
      |t| >= 2 && Separated(t, used) && t[|t| - 1] in used
  {
    var r := Inserted(b, i + 1, c);
    SeparatedPairs(b, used);
    SeparatedPairs(if r[i + 2] !in used then Removed(r, i + 2) else r, used);
    assert r[|r| - 1] == b[|b| - 1];
    forall j, k | 0 <= j < k < |r| && k == j + 1 && j != i + 1 && k != i + 1 ensures r[j] in used || r[k] in used {
      if j <= i { assert r[j] == b[j] && r[k] == b[k]; } else { assert r[j] == b[j - 1] && r[k] == b[k - 1]; }
    }
    PairMergeRight(r, used, i + 1);
  }

  lemma ShrinkElems(b: seq<Addr>, i: nat, c: Addr)
    requires NoDuplicates(b) && i + 1 < |b| && c !in Elems(b)
    ensures Elems(Removed(Inserted(b, i + 1, c), i + 2)) == Elems(b) + {c} - {b[i + 1]}
  {
    InsertedElems(b, i + 1, c);
    RemovedElems(Inserted(b, i + 1, c), i + 2);
  }

  lemma SwapElems(free: seq<Addr>, n: Addr, c: Addr)
    requires NoDuplicates(free) && c !in Elems(free)
    ensures NoDuplicates([c] + Drop(free, n)) && Elems([c] + Drop(free, n)) == {c} + (Elems(free) - {n})
  {
    DropElems(free, n);
    Prepend(c, Drop(free, n));
  }

  lemma ShrinkListed(h: Heap, i: nat, size: nat)
    requires Listed(h) && h.used <= Elems(h.blocks) && Tiled(h)
    requires i + 1 < |h.blocks| && h.blocks[i] + HEADER + size !in Elems(h.blocks)
    ensures Listed(ShrinkAt(h, i, size)) && h.used <= Elems(ShrinkAt(h, i, size).blocks)
  {
    var c := h.blocks[i] + HEADER + size;
    var n := h.blocks[i + 1];
    InElems(h.blocks, n);
    var r := ShrinkAt(h, i, size);
    if n !in h.used && i + 2 < |h.blocks| {
      DistinctBlocks(h);
      ShrinkElems(h.blocks, i, c);
      SwapElems(h.free, n, c);
      ShrinkSets(Elems(h.free), Elems(h.blocks), h.used, n, c);
      assert r.free == [c] + Drop(h.free, n) && r.blocks == Removed(Inserted(h.blocks, i + 1, c), i + 2);
    } else {
      InsertedElems(h.blocks, i + 1, c);
      Prepend(c, h.free);
      assert r.free == [c] + h.free && r.blocks == Inserted(h.blocks, i + 1, c);
    }
  }

  lemma ShrinkSets(free: set<Addr>, blocks: set<Addr>, used: set<Addr>, n: Addr, c: Addr)
    requires free == blocks - used && used <= blocks && n in blocks && n !in used && c !in blocks
    ensures {c} + (free - {n}) == blocks + {c} - {n} - used
    ensures used <= blocks + {c} - {n}
  {
  }

  lemma ShrinkTiled(h: Heap, i: nat, size: nat)
    requires Tiled(h) && i + 1 < |h.blocks|
    requires MINI_ALLOC <= size && size + HEADER + MINI_ALLOC <= h.Size(i)
    ensures Tiled(ShrinkAt(h, i, size))
  {
    TilingInsert(h.start, h.poolSize, h.blocks, i, size);
    if h.blocks[i + 1] !in h.used && i + 2 < |h.blocks| {
      TilingRemove(h.start, h.poolSize, Inserted(h.blocks, i + 1, h.blocks[i] + HEADER + size), i + 2);
    }
  }

  lemma ShrinkAligned(h: Heap, i: nat, size: nat)
    requires Aligned(h.blocks, h.start) && i + 1 < |h.blocks| && IsAligned(size)
    ensures Aligned(ShrinkAt(h, i, size).blocks, h.start)
  {
    AlignedInsert(h.blocks, h.start, i, size);
    if h.blocks[i + 1] !in h.used && i + 2 < |h.blocks| {
      AlignedRemove(Inserted(h.blocks, i + 1, h.blocks[i] + HEADER + size), h.start, i + 2);
    }
  }

  lemma ShrinkAccounted(h: Heap, i: nat, size: nat)
    requires Accounted(h) && i + 1 < |h.blocks| && h.blocks[i] in h.used
    requires h.blocks[i] + HEADER + size !in h.used && size + HEADER <= h.Size(i)
    ensures Accounted(ShrinkAt(h, i, size))
  {
    var c := h.blocks[i] + HEADER + size;
    var b := Inserted(h.blocks, i + 1, c);
    FreeBytesCut(h.blocks, h.used, i, c);
    if h.blocks[i + 1] !in h.used && i + 2 < |h.blocks| {
      assert b[i + 1] == c && b[i + 2] == h.blocks[i + 1];
      FreeBytesJoin(b, h.used, i + 2);
    }
  }

  lemma ShrinkCoalesced(h: Heap, i: nat, size: nat)
    requires Coalesced(h) && i + 1 < |h.blocks| && h.blocks[i] in h.used
    requires h.used <= Elems(ShrinkAt(h, i, size).blocks)
    ensures Coalesced(ShrinkAt(h, i, size))
  {
    ShrinkPairs(h.blocks, h.used, i, h.blocks[i] + HEADER + size);
    assert Inserted(h.blocks, i + 1, h.blocks[i] + HEADER + size)[i + 2] == h.blocks[i + 1];
  }

  lemma ShrinkInv(h: Heap, i: nat, size: nat)
    requires Live(h, i) && IsAligned(size) && size >= MINI_ALLOC
    requires size + HEADER + MINI_ALLOC < h.Size(i)
    ensures Inv(ShrinkAt(h, i, size))
  {
    var c := h.blocks[i] + HEADER + size;
    ShrinkTiled(h, i, size);
    ShrinkAligned(h, i, size);
    NewHeader(h, i, c);
    ShrinkListed(h, i, size);
    ShrinkCoalesced(h, i, size);
    ShrinkAccounted(h, i, size);
  }

  // ---------- all blocks freed ----------

  lemma FirstPair(b: seq<Addr>, used: set<Addr>)
    requires NoFreePair(b, used) && |b| > 2
    ensures b[0] in used || b[1] in used
  {
  }

  /** Coalescing is total: with nothing in use the pool is one free block again. */
  lemma AllFree(h: Heap)
    requires Inv(h) && h.used == {h.blocks[|h.blocks| - 1]}
    ensures h.blocks == [h.start, h.start + h.poolSize - HEADER]
    ensures h.free == [h.start] && h.available == h.poolSize - 2 * HEADER
  {
    DistinctBlocks(h);
    SeparatedPairs(h.blocks, h.used);
    assert |h.blocks| == 2 by {
      if |h.blocks| > 2 { FirstPair(h.blocks, h.used); }
    }
    var a, t := h.start, h.start + h.poolSize - HEADER;
    assert h.blocks == [a, t];
    assert h.blocks[1..] == [t] && FreeBytes([t], h.used) == 0;
    assert Elems([t]) == {t} + Elems([]) && Elems([a, t]) == {a} + Elems([a, t][1..]);
    forall k | 0 <= k < |h.free| ensures h.free[k] == a { InElems(h.free, h.free[k]); }
    InElems(h.free, a);
  }

  // ---------- the allocation search ----------

  /** FirstFit finds a fitting free block exactly when there is one. */
  lemma {:induction false} FirstFitExact(h: Heap, size: nat, k: nat)
    requires k <= |h.free|
    ensures k <= FirstFit(h, size, k) <= |h.free|
    ensures FirstFit(h, size, k) < |h.free| ==> BlockSize(h, h.free[FirstFit(h, size, k)]) >= size
    ensures forall j :: k <= j < FirstFit(h, size, k) ==> BlockSize(h, h.free[j]) < size
    decreases |h.free| - k
  {
    if k < |h.free| && BlockSize(h, h.free[k]) < size { FirstFitExact(h, size, k + 1); }
  }

  /** Some free block holds size bytes. */
  ghost predicate SomeFits(h: Heap, size: nat) {
    exists i :: 0 <= i < |h.blocks| - 1 && h.blocks[i] !in h.used && h.blocks[i + 1] - h.blocks[i] - HEADER >= size
  }

  lemma SomeFitsFree(h: Heap, size: nat)
    requires Inv(h)
    ensures SomeFits(h, size) <==> FirstFit(h, size, 0) < |h.free|
  {
    FirstFitExact(h, size, 0);
    var f := FirstFit(h, size, 0);
    if f < |h.free| {
      var i := FreeIndex(h, f);
    }
    if SomeFits(h, size) {
      var i: nat :| i < |h.blocks| - 1 && h.blocks[i] !in h.used && h.blocks[i + 1] - h.blocks[i] - HEADER >= size;
      InElems(h.blocks, h.blocks[i]);
      InElems(h.free, h.blocks[i]);
      var k :| 0 <= k < |h.free| && h.free[k] == h.blocks[i];
      var j := FreeIndex(h, k);
      DistinctBlocks(h);
    }
  }

  lemma AllocAtInv(h: Heap, k: nat, size: nat)
    requires Inv(h) && k < |h.free| && BlockSize(h, h.free[k]) >= size >= MINI_ALLOC && IsAligned(size)
    ensures h.free[k] in h.blocks && IndexOf(h.blocks, h.free[k]) + 1 < |h.blocks|
    ensures Inv(AllocAt(h, k, size))
  {
    var i := FreeIndex(h, k);
    if h.Size(i) >= size + HEADER + MINI_ALLOC { SplitInv(h, i, k, size); } else { WholeInv(h, i, k, size); }
  }

  /** A request is served with the least aligned size that holds it and 12 bytes. */
  lemma RequestLeast(n: nat, m: nat)
    requires IsAligned(m) && m >= n && m >= 12
    ensures n <= RequestSize(n) <= m && IsAligned(RequestSize(n)) && RequestSize(n) >= 12
  {
    RequestAligned(n);
    var k :| Words(k) == m;
  }

  lemma RequestAligned(n: nat)
    ensures IsAligned(RequestSize(n)) && RequestSize(n) >= MINI_ALLOC && RequestSize(n) >= n
  {
    assert Words(2) == MINI_ALLOC;
    assert Words((n + ALIGN_SIZE - 1) / 8) == AlignUp(n);
  }
}
