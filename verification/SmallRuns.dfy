/** Every run of mem.c: rt_smem_alloc, rt_smem_realloc and rt_smem_free as steps over pointers. */
module SmallRuns {
  import opened Wrappers
  import opened RtList
  import HeapBlocks
  import opened SmallBlocks

  type Addr = HeapBlocks.Addr

  /** The p of the caller: just behind the header of a used block. */
  ghost predicate LiveAt(s: Small, p: Addr) {
    p - STRUCT_MEM in s.used && p - STRUCT_MEM != s.memSize + STRUCT_MEM
  }

  /** The block with header a reaches up to the header e. */
  ghost predicate Extent(b: seq<Addr>, a: Addr, e: Addr) {
    |b| >= 2 && ((b[0] == a && b[1] == e) || Extent(b[1..], a, e))
  }

  lemma {:induction false} ExtentAt(b: seq<Addr>, a: Addr, e: Addr) returns (k: nat)
    requires Extent(b, a, e)
    ensures k + 1 < |b| && b[k] == a && b[k + 1] == e
  {
    if b[0] == a && b[1] == e {
      k := 0;
    } else {
      k := ExtentAt(b[1..], a, e);
      k := k + 1;
    }
  }

  lemma {:induction false} ExtentBy(b: seq<Addr>, k: nat)
    requires k + 1 < |b|
    ensures Extent(b, b[k], b[k + 1])
  {
    if k > 0 { ExtentBy(b[1..], k - 1); }
  }

  ghost function Position(s: Small, p: Addr): (i: nat)
    requires Inv(s) && LiveAt(s, p)
    ensures SmallBlocks.Live(s, i) && s.blocks[i] == p - STRUCT_MEM
  {
    InElems(s.blocks, p - STRUCT_MEM);
    HeapBlocks.IndexOf(s.blocks, p - STRUCT_MEM)
  }

  ghost function AllocStep(s: Small, n: nat): (r: (Small, Option<Addr>))
    requires Inv(s)
    ensures Inv(r.0) && r.0.memSize == s.memSize
  {
    DataSizeAligned(n);
    var size := DataSize(n);
    if n == 0 || size > s.memSize then (s, None)
    else
      var i := FirstFit(s.blocks, s.used, size, 0);
      if i + 1 < |s.blocks| then
        AllocInv(s, i, size);
        (AllocAt(s, i, size), Some(s.blocks[i] + STRUCT_MEM))
      else (s, None)
  }

  ghost function FreeStep(s: Small, p: Addr): (r: Small)
    requires Inv(s) && LiveAt(s, p)
    ensures Inv(r) && r.memSize == s.memSize
  {
    FreeInv(s, Position(s, p));
    FreeAt(s, Position(s, p))
  }

  ghost function ReallocStep(s: Small, p: Option<Addr>, n: nat): (r: (Small, Option<Addr>))
    requires Inv(s) && (p.Some? ==> LiveAt(s, p.value))
    ensures Inv(r.0) && r.0.memSize == s.memSize
  {
    DataSizeAligned(n);
    var size := HeapBlocks.AlignUp(n);
    if size > s.memSize then (s, None)
    else if size == 0 then (if p.Some? then FreeStep(s, p.value) else s, None)
    else if p.None? then AllocStep(s, size)
    else ResizeStep(s, p.value, size)
  }

  /** rt_smem_realloc of a live block to an aligned size */
  ghost function ResizeStep(s: Small, p: Addr, size: nat): (r: (Small, Option<Addr>))
    requires Inv(s) && LiveAt(s, p) && HeapBlocks.IsAligned(size) && size >= 8
    ensures Inv(r.0) && r.0.memSize == s.memSize
  {
    var i := Position(s, p);
    if s.blocks[i + 1] - s.blocks[i] - STRUCT_MEM == size then (s, Some(p))
    else if CanShrink(s, i, size) then
      ShrinkInv(s, i, size);
      (ShrinkAt(s, i, size), Some(p))
    else MoveStep(s, p, size)
  }

  ghost function MoveStep(s: Small, p: Addr, size: nat): (r: (Small, Option<Addr>))
    requires Inv(s) && LiveAt(s, p)
    ensures Inv(r.0) && r.0.memSize == s.memSize
  {
    AllocKeeps(s, size);
    var r := AllocStep(s, size);
    if r.1.Some? then (FreeStep(r.0, p), r.1) else (s, None)
  }

  /** A request other than 0 fails exactly when no free block holds the aligned size. */
  lemma AllocComplete(s: Small, n: nat)
    requires Inv(s) && n > 0
    ensures AllocStep(s, n).1.None? <==> !SomeFits(s, DataSize(n))
  {
    SomeFitsIff(s, DataSize(n));
    var i := FirstFit(s.blocks, s.used, DataSize(n), 0);
    if i + 1 < |s.blocks| {
      FitsBound(s, DataSize(n), i);
      if i > 0 { HeapBlocks.SpacedPair(s.blocks, STRUCT_MEM + MinData(s.memSize), 0, i); }
    }
  }

  /** The number of bytes the live block at p holds. */
  ghost function HeldSize(s: Small, p: Addr): int
    requires Inv(s) && LiveAt(s, p)
  {
    s.blocks[Position(s, p) + 1] - s.blocks[Position(s, p)] - STRUCT_MEM
  }

  /** The live block at p gets size bytes where it is: it has exactly so many, or enough more to cut a block off. */
  ghost predicate InPlace(s: Small, p: Addr, size: nat)
    requires Inv(s) && LiveAt(s, p)
  {
    HeldSize(s, p) == size || size + STRUCT_MEM + MIN_SIZE < HeldSize(s, p)
  }

  /**
   Resizing a live block fails exactly when it is not done in place and no free block holds the
   size, so also when the block is larger than that by too little to be cut.
   */
  lemma ResizeFails(s: Small, p: Addr, size: nat)
    requires Inv(s) && LiveAt(s, p) && HeapBlocks.IsAligned(size) && size >= 8
    ensures ResizeStep(s, p, size).1.None? <==> !InPlace(s, p, size) && !SomeFits(s, DataSize(size))
  {
    AllocComplete(s, size);
  }

  /** When rt_smem_realloc returns null. */
  lemma ReallocFails(s: Small, p: Option<Addr>, n: nat)
    requires Inv(s) && (p.Some? ==> LiveAt(s, p.value))
    ensures var size := HeapBlocks.AlignUp(n);
      ReallocStep(s, p, n).1.None? <==>
        size > s.memSize || size == 0 || ((p.Some? ==> !InPlace(s, p.value, size)) && !SomeFits(s, DataSize(size)))
  {
    DataSizeAligned(n);
    var size := HeapBlocks.AlignUp(n);
    if 0 < size <= s.memSize {
      if p.Some? { ResizeFails(s, p.value, size); } else { AllocComplete(s, size); }
    }
  }

  /** A heap of 32 bytes with all of them given out. */
  ghost function FullHeap(): Small
    requires Inv(SmallBlocks.Init(32))
  {
    After(SmallBlocks.Init(32), [Alloc(32)])
  }

  lemma FullHeapIs()
    ensures Inv(SmallBlocks.Init(32)) && FullHeap().blocks == [0, 48] && FullHeap().used == {0, 48} && FullHeap().memSize == 32
  {
    assert HeapBlocks.Words(4) == 32;
    SmallBlocks.InitInv(32);
    var s := SmallBlocks.Init(32);
    assert [Alloc(32)][..0] == [];
    assert FullHeap() == Step(s, Alloc(32));
    assert DataSize(32) == 32 && FitsAt(s.blocks, s.used, 32, 0);
    assert FirstFit(s.blocks, s.used, 32, 0) == 0;
  }

  /** There a request to shrink the block from 32 to 24 bytes is refused. */
  lemma ShrinkRefused()
    ensures Inv(SmallBlocks.Init(32)) && LiveAt(FullHeap(), 16) && HeldSize(FullHeap(), 16) == 32
    ensures ReallocStep(FullHeap(), Some(16), 24).1.None?
  {
    FullHeapIs();
    var s := FullHeap();
    assert Position(s, 16) == 0;
    ReallocFails(s, Some(16), 24);
    assert HeapBlocks.AlignUp(24) == 24;
    forall i: nat ensures !FitsAt(s.blocks, s.used, DataSize(24), i) { }
  }

  // ---------- what happens to the live blocks ----------

  lemma JoinExtents(b: seq<Addr>, j: nat, a: Addr, e: Addr)
    requires 1 <= j && j + 1 < |b| && a != b[j - 1] && a != b[j]
    ensures Extent(b, a, e) <==> Extent(Removed(b, j), a, e)
  {
    var r := Removed(b, j);
    if Extent(b, a, e) {
      var k := ExtentAt(b, a, e);
      var m := if k < j then k else k - 1;
      ExtentBy(r, m);
    }
    if Extent(r, a, e) {
      var k := ExtentAt(r, a, e);
      var m := if k < j then k else k + 1;
      ExtentBy(b, m);
    }
  }

  lemma CutExtents(b: seq<Addr>, i: nat, c: Addr, a: Addr, e: Addr)
    requires i + 1 < |b| && a != b[i] && a != c
    ensures Extent(b, a, e) <==> Extent(Inserted(b, i + 1, c), a, e)
  {
    var r := Inserted(b, i + 1, c);
    if Extent(b, a, e) {
      var k := ExtentAt(b, a, e);
      var m := if k < i then k else k + 1;
      ExtentBy(r, m);
    }
    if Extent(r, a, e) {
      var k := ExtentAt(r, a, e);
      var m := if k < i then k else k - 1;
      ExtentBy(b, m);
    }
  }

  /** Merging free blocks moves no used one. */
  lemma PlugExtents(s: Small, i: nat, a: Addr, e: Addr)
    requires i + 1 < |s.blocks| && s.blocks[i] !in s.used && a in s.used
    requires s.blocks[|s.blocks| - 1] in s.used
    ensures Extent(s.blocks, a, e) <==> Extent(Plug(s, i).blocks, a, e)
  {
    var r := PlugForward(s, i);
    if r.blocks != s.blocks { JoinExtents(s.blocks, i + 1, a, e); }
    if PlugBackward(r, i).blocks != r.blocks { JoinExtents(r.blocks, i, a, e); }
  }

  /** Header a is used and reaches up to e. */
  ghost predicate Holds(s: Small, a: Addr, e: Addr) {
    a in s.used && Extent(s.blocks, a, e)
  }

  /** The used block with header a holds at least n bytes. */
  ghost predicate HasRoom(s: Small, a: Addr, n: nat) {
    exists e :: Holds(s, a, e) && e - a - STRUCT_MEM >= n
  }

  /** The live blocks of s and r are the same, apart from a. */
  ghost predicate OthersSame(s: Small, r: Small, a: Addr) {
    forall x, e :: x != a ==> (Holds(s, x, e) <==> Holds(r, x, e))
  }

  lemma AllocOthers(s: Small, i: nat, size: nat)
    requires Inv(s) && FitsAt(s.blocks, s.used, size, i) && size >= MIN_SIZE_ALIGNED
    ensures OthersSame(s, AllocAt(s, i, size), s.blocks[i])
    ensures HasRoom(AllocAt(s, i, size), s.blocks[i], size)
  {
    var r, c := AllocAt(s, i, size), s.blocks[i] + STRUCT_MEM + size;
    if Splits(s, i, size) { NewHeader(s, i, c); }
    forall x, e | x != s.blocks[i] ensures Holds(s, x, e) <==> Holds(r, x, e) {
      if Splits(s, i, size) && x in s.used { CutExtents(s.blocks, i, c, x, e); }
    }
    ExtentBy(r.blocks, i);
    assert Holds(r, s.blocks[i], r.blocks[i + 1]);
  }

  lemma FreeOthers(s: Small, i: nat)
    requires SmallBlocks.Live(s, i)
    ensures OthersSame(s, FreeAt(s, i), s.blocks[i]) && FreeAt(s, i).used == s.used - {s.blocks[i]}
  {
    var u := Unmark(s, i);
    TilesDistinct(s);
    forall x, e | x != s.blocks[i] ensures Holds(s, x, e) <==> Holds(FreeAt(s, i), x, e) {
      if x in u.used { PlugExtents(u, i, x, e); }
    }
  }

  lemma ShrinkOthers(s: Small, i: nat, size: nat)
    requires SmallBlocks.Live(s, i) && size >= 8 && CanShrink(s, i, size)
    ensures OthersSame(s, ShrinkAt(s, i, size), s.blocks[i])
    ensures Holds(ShrinkAt(s, i, size), s.blocks[i], s.blocks[i] + STRUCT_MEM + size)
  {
    var u, c := CutAt(s, i, size), s.blocks[i] + STRUCT_MEM + size;
    NewHeader(s, i, c);
    assert u.blocks[|u.blocks| - 1] == s.blocks[|s.blocks| - 1];
    forall x, e | x != s.blocks[i] ensures Holds(s, x, e) <==> Holds(ShrinkAt(s, i, size), x, e) {
      if x in s.used {
        CutExtents(s.blocks, i, c, x, e);
        PlugExtents(u, i + 1, x, e);
      }
    }
    ExtentBy(u.blocks, i);
    PlugExtents(u, i + 1, s.blocks[i], c);
  }

  /** An allocation leaves every live pointer live. */
  lemma AllocKeeps(s: Small, n: nat)
    requires Inv(s)
    ensures s.used <= AllocStep(s, n).0.used
  {
  }

  /** A successful allocation returns a fresh block of at least n bytes and touches no other. */
  lemma AllocFresh(s: Small, n: nat)
    requires Inv(s) && AllocStep(s, n).1.Some?
    ensures var (r, p) := AllocStep(s, n);
      && !LiveAt(s, p.value) && LiveAt(r, p.value)
      && OthersSame(s, r, p.value - STRUCT_MEM) && HeapBlocks.IsAligned(p.value)
      && HasRoom(r, p.value - STRUCT_MEM, n)
  {
    var size := DataSize(n);
    DataSizeAligned(n);
    var i := FirstFit(s.blocks, s.used, size, 0);
    AllocOthers(s, i, size);
    HeapBlocks.AlignedAt(s.blocks, 0, i);
    assert HeapBlocks.IsAligned(STRUCT_MEM) by { assert HeapBlocks.Words(2) == STRUCT_MEM; }
    HeapBlocks.AlignedSum(s.blocks[i] - 0, STRUCT_MEM);
    HeapBlocks.SpacedPair(s.blocks, STRUCT_MEM + MinData(s.memSize), i, |s.blocks| - 1);
  }

  // ---------- runs ----------

  datatype Op = Alloc(n: nat) | Realloc(p: Option<Addr>, n: nat) | Free(ptr: Addr)

  /** A call with a pointer that is not live is refused by the assertions of the code. */
  ghost function Step(s: Small, op: Op): (r: Small)
    requires Inv(s)
    ensures Inv(r) && r.memSize == s.memSize
  {
    match op
    case Alloc(n) => AllocStep(s, n).0
    case Realloc(p, n) => if p.Some? && !LiveAt(s, p.value) then s else ReallocStep(s, p, n).0
    case Free(p) => if LiveAt(s, p) then FreeStep(s, p) else s
  }

  ghost function After(s: Small, ops: seq<Op>): (r: Small)
    requires Inv(s)
    ensures Inv(r) && r.memSize == s.memSize
    decreases |ops|
  {
    if ops == [] then s else Step(After(s, ops[..|ops| - 1]), ops[|ops| - 1])
  }

  /**
   In every run from initialisation: the blocks tile the heap, no two neighbours are free,
   lfree is the lowest free block or heap_end, and used is the sum over the used blocks.
   */
  lemma EveryRun(memSize: nat, ops: seq<Op>)
    requires HeapBlocks.IsAligned(memSize)
    ensures Inv(SmallBlocks.Init(memSize))
    ensures var s := After(SmallBlocks.Init(memSize), ops);
      && s.blocks != [] && s.blocks[0] == 0 && s.blocks[|s.blocks| - 1] == memSize + STRUCT_MEM
      && HeapBlocks.NoFreePair(s.blocks, s.used)
      && (exists i: nat :: IsLowest(s.blocks, s.used, i) && s.blocks[i] == s.lfree)
      && s.usedBytes == UsedBytes(s.blocks, s.used) <= s.maxBytes
      && ((forall p :: !LiveAt(s, p)) ==> s.blocks == [0, memSize + STRUCT_MEM] && s.usedBytes == 0)
  {
    SmallBlocks.InitInv(memSize);
    var s := After(SmallBlocks.Init(memSize), ops);
    HeapBlocks.SeparatedPairs(s.blocks, s.used);
    var i := LowestExists(s.blocks, s.used);
    NothingLive(s);
  }

  /** Once nothing is live the heap is one free block. */
  lemma NothingLive(s: Small)
    requires Inv(s)
    ensures (forall p :: !LiveAt(s, p)) ==> s.blocks == [0, s.memSize + STRUCT_MEM] && s.usedBytes == 0
  {
    if forall p :: !LiveAt(s, p) {
      TilesDistinct(s);
      HeapBlocks.SeparatedPairs(s.blocks, s.used);
      forall k | 0 <= k < |s.blocks| - 1 ensures s.blocks[k] !in s.used {
        assert !LiveAt(s, s.blocks[k] + STRUCT_MEM);
      }
      if |s.blocks| > 2 { HeapBlocks.FirstPair(s.blocks, s.used); }
      assert s.blocks == [0, s.memSize + STRUCT_MEM];
      assert UsedBytes(s.blocks[1..], s.used) == 0;
    }
  }
}
