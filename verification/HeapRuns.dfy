/** Every run of heap operations: what memheap.c keeps whatever is allocated, resized and freed. */
module HeapRuns {
  import opened Wrappers
  import opened RtList
  import opened HeapBlocks
  import opened HeapMemory

  /** A realloc that has to move a block is an Alloc followed by a Free. */
  datatype Op = Alloc(request: nat) | Free(a: Addr) | Resize(a: Addr, request: nat)

  /** rt_memheap_alloc with the size already adjusted */
  ghost function AllocStep(h: Heap, size: nat): (r: Heap)
    requires Inv(h) && IsAligned(size) && size >= MINI_ALLOC
    ensures Inv(r) && r.start == h.start && r.poolSize == h.poolSize
  {
    FirstFitExact(h, size, 0);
    var k := FirstFit(h, size, 0);
    if size < h.available && k < |h.free| then
      AllocAtInv(h, k, size);
      AllocAt(h, k, size)
    else h
  }

  /** rt_memheap_realloc where it works in place */
  ghost function ResizeStep(h: Heap, i: nat, size: nat): (r: Heap)
    requires Live(h, i) && IsAligned(size) && size >= MINI_ALLOC
    ensures Inv(r) && r.start == h.start && r.poolSize == h.poolSize
  {
    if CanGrow(h, i, size) then
      GrowInv(h, i, size);
      GrowAt(h, i, size)
    else if size + HEADER + MINI_ALLOC < h.Size(i) then
      ShrinkInv(h, i, size);
      ShrinkAt(h, i, size)
    else h
  }

  /** A request of the adjusted size can be met. */
  ghost predicate Served(h: Heap, size: nat) {
    size < h.available && SomeFits(h, size)
  }

  /** The block such a request gets. */
  ghost function AllocAddr(h: Heap, size: nat): Addr
    requires Inv(h) && IsAligned(size) && size >= MINI_ALLOC && Served(h, size)
  {
    ServedAt(h, size);
    h.free[FirstFit(h, size, 0)]
  }

  lemma ServedAt(h: Heap, size: nat)
    requires Inv(h) && IsAligned(size) && size >= MINI_ALLOC
    ensures Served(h, size) <==> size < h.available && FirstFit(h, size, 0) < |h.free|
    ensures !Served(h, size) ==> AllocStep(h, size) == h
  {
    SomeFitsFree(h, size);
    FirstFitExact(h, size, 0);
  }

  /** An allocation leaves every live block live. */
  lemma AllocKeepsLive(h: Heap, size: nat, a: Addr)
    requires Inv(h) && IsAligned(size) && size >= MINI_ALLOC && LiveAt(h, a)
    ensures LiveAt(AllocStep(h, size), a)
  {
    LiveIff(h, a);
    LiveIff(AllocStep(h, size), a);
  }

  ghost function FreeStep(h: Heap, a: Addr): (r: Heap)
    requires Inv(h) && LiveAt(h, a)
    ensures Inv(r) && r.start == h.start && r.poolSize == h.poolSize
  {
    LiveIff(h, a);
    FreeInv(h, IndexOf(h.blocks, a));
    FreeAt(h, IndexOf(h.blocks, a))
  }

  /** rt_memheap_realloc of a live block to an adjusted size: in place, by moving, or not at all. */
  ghost function ReallocStep(h: Heap, a: Addr, size: nat): (r: (Heap, Option<Addr>))
    requires Inv(h) && LiveAt(h, a) && IsAligned(size) && size >= MINI_ALLOC
    ensures Inv(r.0) && r.0.start == h.start && r.0.poolSize == h.poolSize
  {
    LiveIff(h, a);
    var i := IndexOf(h.blocks, a);
    if size <= h.Size(i) || CanGrow(h, i, size) then (ResizeStep(h, i, size), Some(a + HEADER))
    else MoveStep(h, a, size)
  }

  /** Allocate and free, if the allocation succeeds. */
  ghost function MoveStep(h: Heap, a: Addr, size: nat): (r: (Heap, Option<Addr>))
    requires Inv(h) && LiveAt(h, a) && IsAligned(size) && size >= MINI_ALLOC
    ensures Inv(r.0) && r.0.start == h.start && r.0.poolSize == h.poolSize
  {
    if Served(h, size) then
      AllocKeepsLive(h, size, a);
      (FreeStep(AllocStep(h, size), a), Some(AllocAddr(h, size) + HEADER))
    else (h, None)
  }

  lemma MoveBy(h: Heap, a: Addr, size: nat, r: Heap, ptr: Option<Addr>)
    requires Inv(h) && LiveAt(h, a) && IsAligned(size) && size >= MINI_ALLOC
    requires ptr.Some? <==> Served(h, size)
    requires ptr.None? ==> r == h
    requires ptr.Some? ==> ptr.value - HEADER == AllocAddr(h, size)
    requires ptr.Some? ==> LiveAt(AllocStep(h, size), a) && r == FreeStep(AllocStep(h, size), a)
    ensures (r, ptr) == MoveStep(h, a, size)
  {
  }

  /** A realloc of a live block fails exactly when it neither fits where it is nor can be met elsewhere. */
  lemma ReallocFails(h: Heap, a: Addr, size: nat)
    requires Inv(h) && LiveAt(h, a) && IsAligned(size) && size >= MINI_ALLOC
    ensures ReallocStep(h, a, size).1.None? <==>
      BlockSize(h, a) < size && !CanGrow(h, IndexOf(h.blocks, a), size) && !Served(h, size)
  {
    LiveIff(h, a);
  }

  /** A realloc is a Resize, or an Alloc and a Free; so the runs below cover it. */
  lemma ReallocIsSteps(h: Heap, a: Addr, n: nat)
    requires Inv(h) && LiveAt(h, a)
    ensures IsAligned(RequestSize(n)) && RequestSize(n) >= MINI_ALLOC
    ensures var r := ReallocStep(h, a, RequestSize(n)).0;
      r == h || r == Step(h, Resize(a, n)) || r == Step(Step(h, Alloc(n)), Free(a))
  {
    RequestAligned(n);
    AllocKeepsLive(h, RequestSize(n), a);
  }

  ghost function Step(h: Heap, op: Op): (r: Heap)
    requires Inv(h)
    ensures Inv(r) && r.start == h.start && r.poolSize == h.poolSize
  {
    match op
    case Alloc(n) =>
      RequestAligned(n);
      AllocStep(h, RequestSize(n))
    case Free(a) =>
      if LiveAt(h, a) then FreeStep(h, a) else h
    case Resize(a, n) =>
      RequestAligned(n);
      LiveIff(h, a);
      if LiveAt(h, a) then ResizeStep(h, IndexOf(h.blocks, a), RequestSize(n)) else h
  }

  ghost function After(h: Heap, ops: seq<Op>): (r: Heap)
    requires Inv(h)
    ensures Inv(r) && r.start == h.start && r.poolSize == h.poolSize
    decreases |ops|
  {
    if ops == [] then h else Step(After(h, ops[..|ops| - 1]), ops[|ops| - 1])
  }

  /** The most bytes that were ever in use. */
  ghost function Peak(h: Heap, ops: seq<Op>): int
    requires Inv(h)
    decreases |ops|
  {
    var inUse := h.poolSize - After(h, ops).available;
    if ops == [] then inUse else Max(Peak(h, ops[..|ops| - 1]), inUse)
  }

  lemma FreeReturns(h: Heap, i: nat)
    requires Live(h, i)
    ensures FreeAt(h, i).available >= h.available
  {
    SpacedPair(h.blocks, HEADER + MinBlock(h.poolSize), i, i + 1);
  }

  lemma ShrinkReturns(h: Heap, i: nat, size: nat)
    requires Live(h, i) && size + HEADER + MINI_ALLOC < h.Size(i)
    ensures ShrinkAt(h, i, size).available >= h.available
  {
  }

  /** Every step updates the high-water mark. */
  lemma StepPeak(h: Heap, op: Op)
    requires Inv(h)
    ensures Step(h, op).maxUsed == Max(h.maxUsed, h.poolSize - Step(h, op).available)
  {
    match op
    case Alloc(n) =>
    case Free(a) =>
      LiveIff(h, a);
      if LiveAt(h, a) { FreeReturns(h, IndexOf(h.blocks, a)); }
    case Resize(a, n) =>
      LiveIff(h, a);
      if LiveAt(h, a) {
        var i, size := IndexOf(h.blocks, a), RequestSize(n);
        if !CanGrow(h, i, size) && size + HEADER + MINI_ALLOC < h.Size(i) { ShrinkReturns(h, i, size); }
      }
  }

  lemma {:induction false} RunPeak(start: Addr, size: nat, ops: seq<Op>)
    requires AlignDown(size) >= 2 * HEADER && Inv(HeapBlocks.Init(start, size))
    ensures After(HeapBlocks.Init(start, size), ops).maxUsed == Peak(HeapBlocks.Init(start, size), ops)
  {
    var h := HeapBlocks.Init(start, size);
    if ops != [] {
      RunPeak(start, size, ops[..|ops| - 1]);
      StepPeak(After(h, ops[..|ops| - 1]), ops[|ops| - 1]);
    }
  }

  /** The whole pool, less the first header and the tailer, is one free block. */
  ghost predicate OneFreeBlock(h: Heap) {
    && h.blocks == [h.start, h.start + h.poolSize - HEADER]
    && h.free == [h.start] && h.available == h.poolSize - 2 * HEADER
  }

  /**
   In every run from initialisation the heap invariant holds, max_used_size is the running
   maximum, and whenever nothing is live the pool is one free block again.
   */
  lemma EveryRun(start: Addr, size: nat, ops: seq<Op>)
    requires AlignDown(size) >= 2 * HEADER
    ensures Inv(HeapBlocks.Init(start, size))
    ensures var h := After(HeapBlocks.Init(start, size), ops);
      && Inv(h)
      && h.maxUsed == Peak(HeapBlocks.Init(start, size), ops)
      && h.start == start && h.poolSize == AlignDown(size)
      && ((forall a :: !LiveAt(h, a)) ==> OneFreeBlock(h))
  {
    InitInv(start, size);
    RunPeak(start, size, ops);
    NothingLive(After(HeapBlocks.Init(start, size), ops));
  }

  lemma NothingLive(h: Heap)
    requires Inv(h)
    ensures (forall a :: !LiveAt(h, a)) ==> OneFreeBlock(h)
  {
    if forall a :: !LiveAt(h, a) {
      forall a ensures a in h.used <==> a == Tail(h) { LiveIff(h, a); }
      AllFree(h);
    }
  }

  /**
   An allocation succeeds exactly when the adjusted size is below the free total and some free
   block holds it; the block given out is at most a header and a minimal block too large.
   */
  lemma AllocExact(h: Heap, n: nat)
    requires Inv(h)
    ensures Step(h, Alloc(n)) != h <==> RequestSize(n) < h.available && SomeFits(h, RequestSize(n))
    ensures Step(h, Alloc(n)) != h ==>
      exists a :: !LiveAt(h, a) && LiveAt(Step(h, Alloc(n)), a) && n <= RequestSize(n) <= BlockSize(Step(h, Alloc(n)), a) < RequestSize(n) + HEADER + MINI_ALLOC
        && OthersSame(h, Step(h, Alloc(n)), a)
  {
    var size := RequestSize(n);
    RequestAligned(n);
    SomeFitsFree(h, size);
    FirstFitExact(h, size, 0);
    var k := FirstFit(h, size, 0);
    if size < h.available && k < |h.free| {
      var i := FreeIndex(h, k);
      AllocAtInv(h, k, size);
      AllocOthers(h, i, k, size);
      AllocLive(h, i, k, size);
      assert OthersSame(h, Step(h, Alloc(n)), h.blocks[i]);
    }
  }

  lemma AllocLive(h: Heap, i: nat, k: nat, size: nat)
    requires Fits(h, i, k, size) && h.free[k] in h.blocks && IndexOf(h.blocks, h.free[k]) == i
    requires Inv(AllocAt(h, k, size))
    ensures !LiveAt(h, h.blocks[i]) && LiveAt(AllocAt(h, k, size), h.blocks[i])
    ensures size <= BlockSize(AllocAt(h, k, size), h.blocks[i]) < size + HEADER + MINI_ALLOC
    ensures AllocAt(h, k, size) != h
  {
    var r := AllocAt(h, k, size);
    InElems(h.free, h.free[k]);
    DistinctBlocks(r);
    assert r.blocks[i] == h.blocks[i];
    IndexOfUnique(r.blocks, i);
    assert h.blocks[i] in r.used && h.blocks[i] !in h.used;
  }
}
