/** How large the blocks are that memheap.c gives out, and what becomes of the rest. */
module HeapSizes {
  import opened Wrappers
  import opened RtList
  import opened HeapBlocks
  import opened HeapMemory
  import opened HeapRuns

  /** What allocating size bytes from the free block a of h leaves, in terms of the block list alone. */
  ghost predicate Allotted(h: Heap, r: Heap, a: Addr, size: nat) {
    var had := BlockSize(h, a);
    && a in h.free && a !in h.used && a in r.used && size <= BlockSize(r, a) < size + HEADER + MINI_ALLOC
    && (if had >= size + HEADER + MINI_ALLOC then
          var c := a + HEADER + size;
          && BlockSize(r, a) == size && r.available == h.available - size - HEADER
          && c in r.blocks && c !in r.used && r.free != [] && r.free[0] == c && BlockSize(r, c) == had - size - HEADER
        else BlockSize(r, a) == had && r.available == h.available - had && r.blocks == h.blocks)
  }

  lemma SplitSizes(h: Heap, i: nat, k: nat, size: nat)
    requires Fits(h, i, k, size) && h.Size(i) >= size + HEADER + MINI_ALLOC
    ensures Allotted(h, SplitAt(h, i, k, size), h.blocks[i], size)
  {
    var r, a, c := SplitAt(h, i, k, size), h.blocks[i], h.blocks[i] + HEADER + size;
    SplitInv(h, i, k, size);
    DistinctBlocks(h);
    DistinctBlocks(r);
    IndexOfUnique(h.blocks, i);
    assert r.blocks[i] == a && r.blocks[i + 1] == c && r.blocks[i + 2] == h.blocks[i + 1];
    IndexOfUnique(r.blocks, i);
    IndexOfUnique(r.blocks, i + 1);
    NewUnused(h, i, c);
    InElems(h.free, h.free[k]);
  }

  /** A header inside a block is none of the had ones, so it is not marked used. */
  lemma NewUnused(h: Heap, i: nat, c: Addr)
    requires Inv(h) && i + 1 < |h.blocks| && h.blocks[i] + HEADER <= c && c + HEADER <= h.blocks[i + 1]
    ensures c !in h.used
  {
    NewHeader(h, i, c);
    InElems(h.blocks, c);
  }

  lemma WholeSizes(h: Heap, i: nat, k: nat, size: nat)
    requires Fits(h, i, k, size) && h.Size(i) < size + HEADER + MINI_ALLOC
    ensures Allotted(h, TakeWhole(h, i, k), h.blocks[i], size)
  {
    DistinctBlocks(h);
    IndexOfUnique(h.blocks, i);
    InElems(h.free, h.free[k]);
  }

  /** The block given out is the first of the free list that fits. */
  lemma AllotsFirst(h: Heap, size: nat)
    requires Inv(h) && IsAligned(size) && size >= MINI_ALLOC && Served(h, size)
    ensures Allotted(h, AllocStep(h, size), AllocAddr(h, size), size)
  {
    ServedAt(h, size);
    FirstFitExact(h, size, 0);
    var k := FirstFit(h, size, 0);
    var i := FreeIndex(h, k);
    if h.Size(i) >= size + HEADER + MINI_ALLOC { SplitSizes(h, i, k, size); } else { WholeSizes(h, i, k, size); }
  }

  /**
   A successful allocation gives out less than a header and a minimal block more than was asked for.
   A free block with more room is cut: the block has exactly the adjusted size, the rest is free
   and first in the free list, and the free total falls by the adjusted size and one header.
   */
  lemma AllocSizes(h: Heap, n: nat)
    requires Inv(h) && Served(h, RequestSize(n))
    ensures IsAligned(RequestSize(n)) && RequestSize(n) >= MINI_ALLOC
    ensures Allotted(h, Step(h, Alloc(n)), AllocAddr(h, RequestSize(n)), RequestSize(n))
  {
    RequestAligned(n);
    AllotsFirst(h, RequestSize(n));
  }

  /** What a realloc leaves of a live block's size: exact when it had to change the block, and never much too large. */
  ghost predicate Refitted(h: Heap, r: Heap, a: Addr, q: Addr, size: nat) {
    && size <= BlockSize(r, q) <= size + HEADER + MINI_ALLOC
    && (q == a && BlockSize(r, a) != size ==> r == h)
  }

  /**
   Every successful realloc: the block holds the adjusted size and at most a header and a minimal
   block more; in place it holds exactly that size, unless nothing has been changed at all.
   */
  lemma ReallocSizes(h: Heap, a: Addr, size: nat) returns (r: Heap, p: Option<Addr>, q: Addr)
    requires Inv(h) && LiveAt(h, a) && IsAligned(size) && size >= MINI_ALLOC
    ensures (r, p) == ReallocStep(h, a, size)
    ensures p.Some? ==> p.value == q + HEADER && Refitted(h, r, a, q, size)
  {
    LiveIff(h, a);
    var i, ptr := IndexOf(h.blocks, a), a + HEADER;
    if size <= h.Size(i) || CanGrow(h, i, size) {
      r, p, q := ResizeStep(h, i, size), Some(ptr), a;
      StayBranch(h, a, i, size, ptr);
      InPlaceSizes(h, i, a, size);
    } else if Served(h, size) {
      r, q, ptr := MovedSizes(h, a, size);
      p := Some(ptr);
    } else {
      r, p, q := h, None, a;
    }
  }

  lemma StayBranch(h: Heap, a: Addr, i: nat, size: nat, ptr: Addr)
    requires LiveAt(h, a) && Live(h, i) && a == h.blocks[i] && i == IndexOf(h.blocks, a) && IsAligned(size) && size >= MINI_ALLOC
    requires (size <= h.Size(i) || CanGrow(h, i, size)) && ptr == a + HEADER
    ensures ReallocStep(h, a, size) == (ResizeStep(h, i, size), Some(ptr))
  {
  }

  /**
   A block that is large enough is never moved, and neither is one that is followed by a free block
   with which it has more than the size and MINIALLOC: it grows to exactly that size.
   */
  lemma StaysInPlace(h: Heap, a: Addr, c: Addr, size: nat)
    requires Inv(h) && LiveAt(h, a) && IsAligned(size) && size >= MINI_ALLOC
    ensures size <= BlockSize(h, a) ==> ReallocStep(h, a, size).1 == Some(a + HEADER)
    ensures BlockSize(h, a) < size && c == a + HEADER + BlockSize(h, a) && c !in h.used
            && size + MINI_ALLOC < BlockSize(h, a) + BlockSize(h, c) ==>
      ReallocStep(h, a, size).1 == Some(a + HEADER) && BlockSize(ReallocStep(h, a, size).0, a) == size
  {
    LiveIff(h, a);
    var i := IndexOf(h.blocks, a);
    DistinctBlocks(h);
    IndexOfUnique(h.blocks, i);
    if BlockSize(h, a) < size && c == a + HEADER + BlockSize(h, a) && c !in h.used && size + MINI_ALLOC < BlockSize(h, a) + BlockSize(h, c) {
      LastIsUsed(h, i);
      IndexOfUnique(h.blocks, i + 1);
      InPlaceSizes(h, i, a, size);
      GrowOthers(h, i, size);
    }
  }

  lemma InPlaceSizes(h: Heap, i: nat, a: Addr, size: nat)
    requires Live(h, i) && a == h.blocks[i] && IsAligned(size) && size >= MINI_ALLOC && (size <= h.Size(i) || CanGrow(h, i, size))
    ensures Refitted(h, ResizeStep(h, i, size), a, a, size)
  {
    DistinctBlocks(h);
    IndexOfUnique(h.blocks, i);
    if CanGrow(h, i, size) {
      GrowOthers(h, i, size);
    } else if size + HEADER + MINI_ALLOC < h.Size(i) {
      ShrinkOthers(h, i, size);
    }
  }

  lemma MovedSizes(h: Heap, a: Addr, size: nat) returns (r: Heap, q: Addr, ptr: Addr)
    requires Inv(h) && LiveAt(h, a) && IsAligned(size) && size >= MINI_ALLOC && Served(h, size)
    ensures ptr == q + HEADER && (r, Some(ptr)) == MoveStep(h, a, size)
    ensures q != a && size <= BlockSize(r, q) < size + HEADER + MINI_ALLOC
  {
    q := AllocAddr(h, size);
    ptr := q + HEADER;
    var m := AllocStep(h, size);
    AllotsFirst(h, size);
    AllocKeepsLive(h, size, a);
    r := FreeStep(m, a);
    MovedLive(h, m, a, q);
    FreedElsewhere(m, a, q);
    MovedStep(h, a, size, q, ptr, r);
  }

  lemma MovedLive(h: Heap, m: Heap, a: Addr, q: Addr)
    requires Inv(h) && Inv(m) && LiveAt(h, a) && q !in h.used && q in m.used && BlockSize(m, q) > 0
    ensures q != a && LiveAt(m, q)
  {
  }

  lemma MovedStep(h: Heap, a: Addr, size: nat, q: Addr, ptr: Addr, r: Heap)
    requires Inv(h) && LiveAt(h, a) && IsAligned(size) && size >= MINI_ALLOC && Served(h, size)
    requires q == AllocAddr(h, size) && ptr == q + HEADER && LiveAt(AllocStep(h, size), a) && r == FreeStep(AllocStep(h, size), a)
    ensures (r, Some(ptr)) == MoveStep(h, a, size)
  {
    MoveBy(h, a, size, r, Some(ptr));
  }

  lemma FreedElsewhere(m: Heap, a: Addr, q: Addr)
    requires Inv(m) && LiveAt(m, a) && LiveAt(m, q) && q != a
    ensures BlockSize(FreeStep(m, a), q) == BlockSize(m, q)
  {
    LiveIff(m, a);
    LiveIff(m, q);
    FreeOthers(m, IndexOf(m.blocks, a));
  }

  /** What growing and shrinking in place do to the free total. */
  lemma ResizeAccounts(h: Heap, a: Addr, size: nat)
    requires Inv(h) && LiveAt(h, a) && IsAligned(size) && size >= MINI_ALLOC
    ensures var i, r := IndexOf(h.blocks, a), ReallocStep(h, a, size).0;
      var had := BlockSize(h, a);
      && i + 1 < |h.blocks|
      && (CanGrow(h, i, size) ==> r.available == h.available - (size - had))
      && (size + HEADER + MINI_ALLOC < had ==>
            r.available == h.available + (had - size) - (if h.blocks[i + 1] !in h.used then 0 else HEADER))
  {
    LiveIff(h, a);
    var i := IndexOf(h.blocks, a);
    if size + HEADER + MINI_ALLOC < h.Size(i) && h.blocks[i + 1] !in h.used { LastIsUsed(h, i); }
  }

  /** A free block is not the tailer, so it has a successor. */
  lemma LastIsUsed(h: Heap, i: nat)
    requires Inv(h) && i + 1 < |h.blocks| && h.blocks[i + 1] !in h.used
    ensures i + 2 < |h.blocks|
  {
  }

  // ---------- the order of the free list ----------

  /** A block freed behind a used one heads the free list and is given out next, if it is large enough. */
  lemma FreedIsNext(h: Heap, a: Addr, n: nat)
    requires Inv(h) && LiveAt(h, a)
    requires IsAligned(RequestSize(n)) && RequestSize(n) >= MINI_ALLOC && BlockSize(h, a) >= RequestSize(n)
    requires IndexOf(h.blocks, a) == 0 || h.blocks[IndexOf(h.blocks, a) - 1] in h.used
    ensures Served(FreeStep(h, a), RequestSize(n)) ==> AllocAddr(FreeStep(h, a), RequestSize(n)) == a
  {
    LiveIff(h, a);
    var i := IndexOf(h.blocks, a);
    var r := FreeStep(h, a);
    FreeInv(h, i);
    assert r.free[0] == a;
    FreedSize(h, i);
  }

  lemma FreedSize(h: Heap, i: nat)
    requires BehindUsed(h, i)
    ensures BlockSize(FreeAt(h, i), h.blocks[i]) >= h.Size(i)
  {
    var r := FreeAt(h, i);
    DistinctBlocks(r);
    FreedBlocks(h, i, r.blocks);
    IndexOfUnique(r.blocks, i);
  }

  /** The block freed stays where it is and ends no earlier. */
  lemma FreedBlocks(h: Heap, i: nat, b: seq<Addr>)
    requires BehindUsed(h, i) && b == FreeAt(h, i).blocks
    ensures i + 1 < |b| && b[i] == h.blocks[i] && b[i + 1] >= h.blocks[i + 1]
  {
    if h.blocks[i + 1] !in h.used {
      SpacedPair(h.blocks, HEADER + MinBlock(h.poolSize), i + 1, i + 2);
      assert b[i + 1] == h.blocks[i + 2];
    } else {
      assert b[i + 1] == h.blocks[i + 1];
    }
  }

  ghost predicate BehindUsed(h: Heap, i: nat) {
    Live(h, i) && Inv(FreeAt(h, i)) && (i == 0 || h.blocks[i - 1] in h.used)
  }
}
