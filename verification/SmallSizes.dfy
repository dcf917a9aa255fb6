/** How large the blocks are that mem.c gives out, what becomes of the rest, and what `max` records. */
module SmallSizes {
  import opened Wrappers
  import HeapBlocks
  import opened SmallBlocks
  import opened SmallRuns

  /** What allocating size bytes from the free block of s from a up to e leaves. */
  ghost predicate Allotted(s: Small, r: Small, a: Addr, e: Addr, size: nat) {
    && a !in s.used && Extent(s.blocks, a, e) && e - a - STRUCT_MEM >= size
    && (if e - a - STRUCT_MEM >= size + STRUCT_MEM + MIN_SIZE_ALIGNED then
          var c := a + STRUCT_MEM + size;
          && Holds(r, a, c) && c !in r.used && Extent(r.blocks, c, e) && r.usedBytes == s.usedBytes + STRUCT_MEM + size
        else Holds(r, a, e) && r.blocks == s.blocks && r.usedBytes == s.usedBytes + (e - a))
  }

  lemma AllotsAt(s: Small, i: nat, size: nat)
    requires Inv(s) && FitsAt(s.blocks, s.used, size, i) && HeapBlocks.IsAligned(size) && size >= MIN_SIZE_ALIGNED
    ensures Allotted(s, AllocAt(s, i, size), s.blocks[i], s.blocks[i + 1], size)
  {
    var r, c := AllocAt(s, i, size), s.blocks[i] + STRUCT_MEM + size;
    AllocBlocksCases(s, i, size);
    ExtentBy(s.blocks, i);
    ExtentBy(r.blocks, i);
    if Splits(s, i, size) {
      assert r.blocks[i + 1] == c && r.blocks[i + 2] == s.blocks[i + 1];
      ExtentBy(r.blocks, i + 1);
      NewHeader(s, i, c);
    }
  }

  /**
   The block given out is the first in the heap that fits.  It has exactly the adjusted size, with
   the rest behind it free, if that is enough for a header and a minimal block; else it is given
   whole.  `used` grows by the block and its header.
   */
  lemma AllocSizes(s: Small, n: nat) returns (e: Addr)
    requires Inv(s) && AllocStep(s, n).1.Some?
    ensures Allotted(s, AllocStep(s, n).0, AllocStep(s, n).1.value - STRUCT_MEM, e, DataSize(n))
    ensures forall x, y :: x < AllocStep(s, n).1.value - STRUCT_MEM && x !in s.used && Extent(s.blocks, x, y) ==>
      y - x - STRUCT_MEM < DataSize(n)
  {
    var size := DataSize(n);
    DataSizeAligned(n);
    var i := FirstFit(s.blocks, s.used, size, 0);
    AllotsAt(s, i, size);
    e := s.blocks[i + 1];
    forall x, y | x < s.blocks[i] && x !in s.used && Extent(s.blocks, x, y) ensures y - x - STRUCT_MEM < size {
      var k := ExtentAt(s.blocks, x, y);
      Ascending(s, k, i);
      FirstFitNone(s.blocks, s.used, size, 0, k);
    }
  }

  lemma Ascending(s: Small, k: nat, i: nat)
    requires Inv(s) && k < |s.blocks| && i < |s.blocks| && s.blocks[k] < s.blocks[i]
    ensures k < i
  {
    if i < k { HeapBlocks.SpacedPair(s.blocks, STRUCT_MEM + MinData(s.memSize), i, k); }
  }

  /** So it is less than a header and a minimal block too large. */
  lemma AllocTight(s: Small, n: nat) returns (a: Addr, x: Addr)
    requires Inv(s) && AllocStep(s, n).1.Some?
    ensures a == AllocStep(s, n).1.value - STRUCT_MEM && Holds(AllocStep(s, n).0, a, x)
    ensures DataSize(n) <= x - a - STRUCT_MEM < DataSize(n) + STRUCT_MEM + MIN_SIZE_ALIGNED
  {
    var e := AllocSizes(s, n);
    a := AllocStep(s, n).1.value - STRUCT_MEM;
    x := if e - a - STRUCT_MEM >= DataSize(n) + STRUCT_MEM + MIN_SIZE_ALIGNED then a + STRUCT_MEM + DataSize(n) else e;
  }

  /** A live block resized in place holds exactly the aligned size. */
  lemma InPlaceExact(s: Small, p: Addr, size: nat)
    requires Inv(s) && LiveAt(s, p) && HeapBlocks.IsAligned(size) && size >= 8 && InPlace(s, p, size)
    ensures ResizeStep(s, p, size).1 == Some(p) && Holds(ResizeStep(s, p, size).0, p - STRUCT_MEM, p + size)
  {
    var i := Position(s, p);
    if HeldSize(s, p) == size { ExtentBy(s.blocks, i); } else { ShrinkOthers(s, i, size); }
  }

  // ---------- the high-water mark ----------

  /** The most bytes in use during a step: a realloc that moves has both blocks for a while. */
  ghost function Top(s: Small, op: Op): int
    requires Inv(s)
  {
    match op
    case Alloc(n) => AllocStep(s, n).0.usedBytes
    case Realloc(p, n) =>
      DataSizeAligned(n);
      var size := HeapBlocks.AlignUp(n);
      if 0 < size <= s.memSize && (p.Some? ==> LiveAt(s, p.value) && !InPlace(s, p.value, size))
      then AllocStep(s, size).0.usedBytes else s.usedBytes
    case Free(_) => s.usedBytes
  }

  ghost function Peak(s: Small, ops: seq<Op>): int
    requires Inv(s)
    decreases |ops|
  {
    if ops == [] then s.usedBytes
    else HeapBlocks.Max(Peak(s, ops[..|ops| - 1]), Top(After(s, ops[..|ops| - 1]), ops[|ops| - 1]))
  }

  lemma StepPeak(s: Small, op: Op)
    requires Inv(s) && s.usedBytes <= s.maxBytes
    ensures Step(s, op).maxBytes == HeapBlocks.Max(s.maxBytes, Top(s, op))
  {
    match op
    case Alloc(n) => AllocTop(s, n);
    case Realloc(p, n) => ReallocTop(s, p, n);
    case Free(p) => if LiveAt(s, p) { FreeKeepsMax(s, p); }
  }

  lemma AllocTop(s: Small, n: nat)
    requires Inv(s) && s.usedBytes <= s.maxBytes
    ensures AllocStep(s, n).0.maxBytes == HeapBlocks.Max(s.maxBytes, AllocStep(s, n).0.usedBytes)
  {
  }

  lemma ReallocTop(s: Small, p: Option<Addr>, n: nat)
    requires Inv(s) && s.usedBytes <= s.maxBytes
    ensures Step(s, Realloc(p, n)).maxBytes == HeapBlocks.Max(s.maxBytes, Top(s, Realloc(p, n)))
  {
    DataSizeAligned(n);
    AllocTop(s, HeapBlocks.AlignUp(n));
    if p.Some? && LiveAt(s, p.value) { LiveMax(s, p.value, n); }
  }

  lemma LiveMax(s: Small, p: Addr, n: nat)
    requires Inv(s) && LiveAt(s, p)
    ensures var size := HeapBlocks.AlignUp(n);
      HeapBlocks.IsAligned(size)
      && ReallocStep(s, Some(p), n).0.maxBytes ==
           if 0 < size <= s.memSize && !InPlace(s, p, size) then AllocStep(s, size).0.maxBytes else s.maxBytes
  {
    DataSizeAligned(n);
    var size := HeapBlocks.AlignUp(n);
    KeepsMax(s, p, size);
    if 0 < size <= s.memSize { assert ReallocStep(s, Some(p), n) == ResizeStep(s, p, size); }
  }

  lemma BaseOf(s: Small)
    requires Inv(s)
    ensures s.usedBytes <= s.maxBytes
  {
  }

  lemma FreeKeepsMax(s: Small, p: Addr)
    requires Inv(s) && LiveAt(s, p)
    ensures FreeStep(s, p).maxBytes == s.maxBytes
  {
  }

  lemma KeepsMax(s: Small, p: Addr, size: nat)
    requires Inv(s) && LiveAt(s, p) && HeapBlocks.IsAligned(size)
    ensures FreeStep(s, p).maxBytes == s.maxBytes
    ensures size >= 8 ==>
      ResizeStep(s, p, size).0.maxBytes == (if InPlace(s, p, size) then s.maxBytes else AllocStep(s, size).0.maxBytes)
  {
  }

  /** In every run `max` is the running maximum of `used`, the moments inside a moving realloc included. */
  lemma {:induction false} RunPeak(memSize: nat, ops: seq<Op>)
    requires HeapBlocks.IsAligned(memSize) && Inv(SmallBlocks.Init(memSize))
    ensures After(SmallBlocks.Init(memSize), ops).maxBytes == Peak(SmallBlocks.Init(memSize), ops)
  {
    var s := SmallBlocks.Init(memSize);
    if ops != [] {
      RunPeak(memSize, ops[..|ops| - 1]);
      BaseOf(After(s, ops[..|ops| - 1]));
      StepPeak(After(s, ops[..|ops| - 1]), ops[|ops| - 1]);
    }
  }
}
