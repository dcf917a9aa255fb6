/**
 rt_memheap as memheap.c implements it: every block header carries the links of the block
 ring and of the free list, and the operations rewrite those links in place.
 */
module MemHeap {
  import opened Wrappers
  import opened RtList
  import opened HeapBlocks
  import opened HeapMemory
  import Runs = HeapRuns

  /** The free_header inside struct rt_memheap; it lies outside the pool. */
  const LIST_HEAD: Addr := -1

  lemma HeadRemoved(s: seq<Addr>, k: nat)
    requires k < |s|
    ensures Removed([LIST_HEAD] + s, k + 1) == [LIST_HEAD] + Removed(s, k)
  {
  }

  lemma HeadInserted(s: seq<Addr>, c: Addr)
    ensures Inserted([LIST_HEAD] + s, 1, c) == [LIST_HEAD] + ([c] + s)
  {
  }

  /** Links of a ring lead to nodes of the ring. */
  lemma RingNeighbours(l: Links, s: seq<Node>, i: nat)
    requires Ring(l, s) && i < |s|
    ensures s[i] in l.next && s[i] in l.prev
    ensures l.next[s[i]] == After(s, i) && l.next[s[i]] in s && l.prev[s[i]] in s
    ensures i > 0 ==> l.prev[s[i]] == s[i - 1]
    ensures i == 0 ==> l.prev[s[i]] == s[|s| - 1]
  {
    RingEdge(l, s, i);
    RingEdge(l, s, if i == 0 then |s| - 1 else i - 1);
  }

  /** Both lists have the shape the code relies on. */
  ghost predicate Chained(blk: Links, blocks: seq<Addr>, fre: Links, free: seq<Addr>) {
    Ring(blk, blocks) && Ring(fre, [LIST_HEAD] + free)
  }

  class RtMemHeap {
    const start: nat
    const poolSize: nat
    var available: int
    var maxUsed: int
    var blk: Links
    var fre: Links
    var used: set<Addr>
    var bytes: seq<Byte>
    ghost var blocks: seq<Addr>
    ghost var free: seq<Addr>

    ghost function Abs(): Heap
      reads this
    {
      Heap(start, poolSize, blocks, used, free, available, maxUsed)
    }

    ghost predicate Valid()
      reads this
    {
      Inv(Abs()) && Chained(blk, blocks, fre, free) && |bytes| == poolSize
    }

    ghost predicate InPool(hs: set<Addr>) {
      forall a :: a in hs ==> start <= a && a + HEADER <= start + poolSize
    }

    /** rt_memheap_init */
    constructor (startAddr: nat, size: nat)
      requires AlignDown(size) >= 2 * HEADER
      ensures Valid()
      ensures Abs() == HeapBlocks.Init(startAddr, size)
    {
      var pool := AlignDown(size);
      var tail := startAddr + pool - HEADER;
      start := startAddr;
      poolSize := pool;
      available := pool - 2 * HEADER;
      maxUsed := pool - (pool - 2 * HEADER);
      blk := Links(map[startAddr := tail, tail := startAddr], map[startAddr := tail, tail := startAddr]);
      fre := InsertAfter(RtList.Init(Links(map[], map[]), LIST_HEAD), LIST_HEAD, startAddr);
      used := {tail};
      bytes := seq(pool, _ => 0);
      blocks := [startAddr, tail];
      free := [startAddr];
      new;
      InitInv(startAddr, size);
      RingIff(blk, blocks);
      RingIff(fre, [LIST_HEAD] + free);
    }

    /** Writing a header overwrites its bytes; the list head is not in the pool. */
    method Touch(a: Addr, ghost hs: set<Addr>, ghost b0: seq<Byte>)
      requires |bytes| == poolSize && OnlyHeaders(start, b0, bytes, hs)
      requires (a == LIST_HEAD || a in hs) && InPool(hs)
      modifies this`bytes
      ensures |bytes| == poolSize && OnlyHeaders(start, b0, bytes, hs)
    {
      if a != LIST_HEAD {
        var k := 0;
        while k < HEADER
          invariant 0 <= k <= HEADER
          invariant |bytes| == poolSize && OnlyHeaders(start, b0, bytes, hs)
        {
          var v: Byte := *;
          assert InHeader(a, start + (a + k - start));
          bytes := bytes[a + k - start := v];
          k := k + 1;
        }
      }
    }

    /** Take the free block x, at position k of the free list, off the free list. */
    method FreeUnlink(x: Addr, ghost k: nat, ghost hs: set<Addr>, ghost b0: seq<Byte>)
      requires |bytes| == poolSize && OnlyHeaders(start, b0, bytes, hs)
      requires Ring(fre, [LIST_HEAD] + free) && k < |free| && free[k] == x
      requires Elems(free) <= hs && InPool(hs)
      modifies this`fre, this`free, this`bytes
      ensures Ring(fre, [LIST_HEAD] + free) && free == Removed(old(free), k)
      ensures |bytes| == poolSize && OnlyHeaders(start, b0, bytes, hs)
    {
      ghost var ring := [LIST_HEAD] + free;
      RingNeighbours(fre, ring, k + 1);
      UnlinkRing(fre, ring, k + 1);
      HeadRemoved(free, k);
      var n, p := fre.next[x], fre.prev[x];
      ListMember(free, n);
      ListMember(free, p);
      fre := Unlink(fre, x);
      free := Removed(free, k);
      Touch(n, hs, b0);
      Touch(p, hs, b0);
    }

    /** Put x at the front of the free list. */
    method FreePush(x: Addr, ghost hs: set<Addr>, ghost b0: seq<Byte>)
      requires |bytes| == poolSize && OnlyHeaders(start, b0, bytes, hs)
      requires Ring(fre, [LIST_HEAD] + free) && x !in Elems(free) && x != LIST_HEAD
      requires Elems(free) <= hs && x in hs && InPool(hs)
      modifies this`fre, this`free, this`bytes
      ensures Ring(fre, [LIST_HEAD] + free) && free == [x] + old(free)
      ensures |bytes| == poolSize && OnlyHeaders(start, b0, bytes, hs)
    {
      ghost var ring := [LIST_HEAD] + free;
      RingNeighbours(fre, ring, 0);
      InElems(free, x);
      InsertAfterRing(fre, ring, 0, x);
      HeadInserted(free, x);
      var n := fre.next[LIST_HEAD];
      ListMember(free, n);
      fre := InsertAfter(fre, LIST_HEAD, x);
      free := [x] + free;
      Touch(n, hs, b0);
      Touch(x, hs, b0);
    }

    /** Put the new header c after block a, at position i of the block ring. */
    method BlockInsert(a: Addr, c: Addr, ghost i: nat, ghost hs: set<Addr>, ghost b0: seq<Byte>)
      requires |bytes| == poolSize && OnlyHeaders(start, b0, bytes, hs)
      requires Ring(blk, blocks) && i < |blocks| && blocks[i] == a && c !in Elems(blocks)
      requires Elems(blocks) <= hs && c in hs && InPool(hs)
      modifies this`blk, this`blocks, this`bytes
      ensures Ring(blk, blocks) && blocks == Inserted(old(blocks), i + 1, c)
      ensures |bytes| == poolSize && OnlyHeaders(start, b0, bytes, hs)
    {
      RingNeighbours(blk, blocks, i);
      InElems(blocks, c);
      InsertAfterRing(blk, blocks, i, c);
      var n := blk.next[a];
      InElems(blocks, n);
      InElems(blocks, a);
      blk := InsertAfter(blk, a, c);
      blocks := Inserted(blocks, i + 1, c);
      Touch(c, hs, b0);
      Touch(n, hs, b0);
      Touch(a, hs, b0);
    }

    /** Take the header x, at position i, out of the block ring. */
    method BlockUnlink(x: Addr, ghost i: nat, ghost hs: set<Addr>, ghost b0: seq<Byte>)
      requires |bytes| == poolSize && OnlyHeaders(start, b0, bytes, hs)
      requires Ring(blk, blocks) && 0 < i < |blocks| && blocks[i] == x
      requires Elems(blocks) <= hs && InPool(hs)
      modifies this`blk, this`blocks, this`bytes
      ensures Ring(blk, blocks) && blocks == Removed(old(blocks), i)
      ensures |bytes| == poolSize && OnlyHeaders(start, b0, bytes, hs)
    {
      RingNeighbours(blk, blocks, i);
      UnlinkRing(blk, blocks, i);
      var n, p := blk.next[x], blk.prev[x];
      InElems(blocks, n);
      InElems(blocks, p);
      blk := Unlink(blk, x);
      blocks := Removed(blocks, i);
      Touch(n, hs, b0);
      Touch(p, hs, b0);
    }

    /** Set the used or freed mark of the header a. */
    method SetMagic(a: Addr, isUsed: bool, ghost hs: set<Addr>, ghost b0: seq<Byte>)
      requires |bytes| == poolSize && OnlyHeaders(start, b0, bytes, hs)
      requires a in hs && InPool(hs) && a != LIST_HEAD
      modifies this`used, this`bytes
      ensures used == if isUsed then old(used) + {a} else old(used) - {a}
      ensures |bytes| == poolSize && OnlyHeaders(start, b0, bytes, hs)
    {
      used := if isUsed then used + {a} else used - {a};
      Touch(a, hs, b0);
    }

    /** decrement the available byte count and keep the high-water mark */
    method Consume(n: int)
      modifies this`available, this`maxUsed
      ensures available == old(available) - n
      ensures maxUsed == Max(old(maxUsed), poolSize - available)
    {
      available := available - n;
      if poolSize - available > maxUsed { maxUsed := poolSize - available; }
    }

    /** Cut size bytes off the free block a; the rest becomes a free block of its own. */
    method SplitBlock(a: Addr, size: nat, ghost i: nat, ghost k: nat, ghost hs: set<Addr>)
      requires Chained(blk, blocks, fre, free) && |bytes| == poolSize
      requires i + 1 < |blocks| && blocks[i] == a && k < |free| && free[k] == a
      requires NoDuplicates(free) && Elems(free) <= Elems(blocks) && a in Elems(blocks) && a != LIST_HEAD
      requires a + HEADER + size !in Elems(blocks) && a + HEADER + size != LIST_HEAD
      requires hs == Elems(blocks) + {a + HEADER + size} && InPool(hs)
      modifies this
      ensures Chained(blk, blocks, fre, free) && |bytes| == poolSize
      ensures Abs() == SplitAt(old(Abs()), i, k, size)
      ensures OnlyHeaders(start, old(bytes), bytes, hs)
    {
      ghost var b0 := bytes;
      SplitLinks(a, a + HEADER + size, i, k, hs, b0);
      Consume(size + HEADER);
      SetMagic(a, true, hs, b0);
    }

    /** The header c joins the block ring behind a and takes the place of a in the free list. */
    method SplitLinks(a: Addr, c: Addr, ghost i: nat, ghost k: nat, ghost hs: set<Addr>, ghost b0: seq<Byte>)
      requires Chained(blk, blocks, fre, free) && |bytes| == poolSize && OnlyHeaders(start, b0, bytes, hs)
      requires i < |blocks| && blocks[i] == a && k < |free| && free[k] == a
      requires NoDuplicates(free) && Elems(free) <= Elems(blocks) <= hs && c !in Elems(blocks) && c != LIST_HEAD && c in hs && InPool(hs)
      modifies this`blk, this`blocks, this`fre, this`free, this`bytes
      ensures Chained(blk, blocks, fre, free) && |bytes| == poolSize && OnlyHeaders(start, b0, bytes, hs)
      ensures blocks == Inserted(old(blocks), i + 1, c) && free == [c] + Removed(old(free), k)
    {
      RemovedElems(free, k);
      BlockInsert(a, c, i, hs, b0);
      FreeUnlink(a, k, hs, b0);
      FreePush(c, hs, b0);
    }

    /** Use the whole free block a. */
    method WholeBlock(a: Addr, freeSize: int, ghost i: nat, ghost k: nat)
      requires Chained(blk, blocks, fre, free) && |bytes| == poolSize
      requires i + 1 < |blocks| && blocks[i] == a && k < |free| && free[k] == a && freeSize == Abs().Size(i)
      requires Elems(free) <= Elems(blocks) && a in Elems(blocks) && a != LIST_HEAD && InPool(Elems(blocks))
      modifies this
      ensures Chained(blk, blocks, fre, free) && |bytes| == poolSize
      ensures Abs() == TakeWhole(old(Abs()), i, k)
      ensures OnlyHeaders(start, old(bytes), bytes, Elems(blocks))
    {
      ghost var hs, b0 := Elems(blocks), bytes;
      Consume(freeSize);
      FreeUnlink(a, k, hs, b0);
      SetMagic(a, true, hs, b0);
    }

    /** The part of rt_memheap_alloc after the search: split the block or take it whole. */
    method TakeBlock(a: Addr, freeSize: int, size: nat, ghost i: nat, ghost k: nat)
      requires Chained(blk, blocks, fre, free) && |bytes| == poolSize
      requires CanTake(Abs(), i, k, size) && blocks[i] == a && freeSize == Abs().Size(i)
      modifies this
      ensures Chained(blk, blocks, fre, free) && |bytes| == poolSize
      ensures Abs() == if freeSize >= size + HEADER + MINI_ALLOC then SplitAt(old(Abs()), i, k, size) else TakeWhole(old(Abs()), i, k)
      ensures OnlyHeaders(start, old(bytes), bytes, Elems(old(blocks)) + Elems(blocks))
    {
      ghost var h := Abs();
      if freeSize >= size + HEADER + MINI_ALLOC {
        InsertedElems(blocks, i + 1, a + HEADER + size);
        ghost var hs := Elems(blocks) + {a + HEADER + size};
        SplitBlock(a, size, i, k, hs);
        assert hs == Elems(h.blocks) + Elems(blocks);
      } else {
        WholeBlock(a, freeSize, i, k);
        assert Elems(h.blocks) + Elems(blocks) == Elems(h.blocks);
      }
    }

    /** rt_memheap_alloc */
    method Alloc(request: nat) returns (ptr: Option<Addr>)
      requires Valid()
      modifies this
      ensures Valid() && IsAligned(RequestSize(request)) && RequestSize(request) >= MINI_ALLOC
      ensures Abs() == Runs.Step(old(Abs()), Runs.Alloc(request))
      ensures Allocated(old(Abs()), old(bytes), Abs(), bytes, RequestSize(request), ptr)
    {
      RequestAligned(request);
      ptr := AllocSize(RequestSize(request));
    }

    /** rt_memheap_alloc with the size already adjusted */
    method AllocSize(size: nat) returns (ptr: Option<Addr>)
      requires Valid() && IsAligned(size) && size >= MINI_ALLOC
      modifies this
      ensures Valid() && Allocated(old(Abs()), old(bytes), Abs(), bytes, size, ptr)
    {
      ghost var h := Abs();
      Runs.ServedAt(h, size);
      ptr := None;
      if size < available {
        var a, freeSize, k := Search(size);
        if freeSize >= size {
          ghost var i := FreeIndex(h, k);
          TakeReady(h, i, k, size);
          TakeBlock(a, freeSize, size, i, k);
          AllocEffect(h, Abs(), i, k, size, old(bytes), bytes);
          ptr := Some(a + HEADER);
        }
      }
    }

    /** The search loop of rt_memheap_alloc: the first block of the free list that is large enough. */
    method Search(size: nat) returns (header: Addr, freeSize: int, ghost k: nat)
      requires Valid() && size > 0
      ensures k == FirstFit(Abs(), size, 0) <= |free|
      ensures freeSize >= size <==> k < |free|
      ensures k < |free| ==> header == free[k] && freeSize == BlockSize(Abs(), header)
    {
      freeSize := 0;
      k := 0;
      ghost var ring := [LIST_HEAD] + free;
      RingNeighbours(fre, ring, 0);
      header := fre.next[LIST_HEAD];
      while header != LIST_HEAD && freeSize < size
        invariant 0 <= k <= |free|
        invariant header == if k < |free| then free[k] else LIST_HEAD
        invariant FirstFit(Abs(), size, 0) == FirstFit(Abs(), size, k)
        invariant freeSize >= size ==> k < |free| && freeSize == BlockSize(Abs(), free[k])
        decreases |free| - k, if freeSize < size then 1 else 0
      {
        ghost var i := FreeIndex(Abs(), k);
        RingNeighbours(blk, blocks, i);
        freeSize := blk.next[header] - header - HEADER;
        if freeSize < size {
          RingNeighbours(fre, ring, k + 1);
          header := fre.next[header];
          k := k + 1;
        }
      }
      if k < |free| { ListHeadOutside(Abs(), k); }
    }

    /** rt_memheap_free: merge with the block before, if that is free. */
    method MergeLeft(a: Addr, ghost i: nat, ghost hs: set<Addr>, ghost b0: seq<Byte>) returns (header: Addr, merged: bool)
      requires Ring(blk, blocks) && i + 1 < |blocks| && blocks[i] == a && NoDuplicates(blocks)
      requires blocks[|blocks| - 1] in used
      requires Elems(blocks) <= hs && InPool(hs) && |bytes| == poolSize && OnlyHeaders(start, b0, bytes, hs)
      modifies this`blk, this`blocks, this`bytes, this`available
      ensures merged <==> i > 0 && old(blocks)[i - 1] !in used
      ensures Ring(blk, blocks) && blocks == if merged then Removed(old(blocks), i) else old(blocks)
      ensures header == if merged then old(blocks)[i - 1] else a
      ensures available == old(available) + if merged then HEADER else 0
      ensures |bytes| == poolSize && OnlyHeaders(start, b0, bytes, hs)
    {
      RingNeighbours(blk, blocks, i);
      header := a;
      merged := blk.prev[a] !in used;
      if merged {
        available := available + HEADER;
        header := blk.prev[a];
        BlockUnlink(a, i, hs, b0);
      }
    }

    /** rt_memheap_free: merge with the block after, if that is free. */
    method MergeRight(header: Addr, ghost j: nat, ghost hs: set<Addr>, ghost b0: seq<Byte>)
      requires Chained(blk, blocks, fre, free) && j + 1 < |blocks| && blocks[j] == header
      requires blocks[|blocks| - 1] in used && NoDuplicates(free)
      requires blocks[j + 1] !in used ==> blocks[j + 1] in free
      requires Elems(blocks) <= hs && Elems(free) <= hs && InPool(hs) && |bytes| == poolSize && OnlyHeaders(start, b0, bytes, hs)
      modifies this`blk, this`blocks, this`fre, this`free, this`bytes, this`available
      ensures Chained(blk, blocks, fre, free)
      ensures var n := old(blocks)[j + 1];
        if n !in used then
          blocks == Removed(old(blocks), j + 1) && free == Drop(old(free), n) && available == old(available) + HEADER
        else blocks == old(blocks) && free == old(free) && available == old(available)
      ensures |bytes| == poolSize && OnlyHeaders(start, b0, bytes, hs)
    {
      RingNeighbours(blk, blocks, j);
      var n := blk.next[header];
      if n !in used {
        available := available + HEADER;
        BlockUnlink(n, j + 1, hs, b0);
        FreeUnlink(n, IndexOf(free, n), hs, b0);
      }
    }

    /** rt_memheap_free, first half: mark the block and merge it to the left. */
    method FreeLeft(a: Addr, ghost i: nat, ghost h: Heap) returns (header: Addr, merged: bool)
      requires Ring(blk, blocks) && |bytes| == poolSize && h == Abs()
      requires CanFree(h, i) && blocks[i] == a && InPool(Elems(blocks))
      modifies this`blk, this`blocks, this`used, this`bytes, this`available
      ensures Ring(blk, blocks) && |bytes| == poolSize
      ensures blocks == MergedLeft(h, i) && used == h.used - {a}
      ensures merged == LeftFree(h, i) && header == MergedLeft(h, i)[FreedAt(h, i)]
      ensures available == h.available + h.Size(i) + (if merged then HEADER else 0)
      ensures OnlyHeaders(start, old(bytes), bytes, Elems(h.blocks))
    {
      ghost var hs, b0 := Elems(blocks), bytes;
      RingNeighbours(blk, blocks, i);
      var size := blk.next[a] - a - HEADER;
      SetMagic(a, false, hs, b0);
      available := available + size;
      header, merged := MergeLeft(a, i, hs, b0);
      MergedLeftShape(h, i);
    }

    /** rt_memheap_free, second half: merge to the right and put the block on the free list if it is not there yet. */
    method FreeRight(header: Addr, merged: bool, ghost i: nat, ghost h: Heap, ghost b0: seq<Byte>)
      requires Chained(blk, blocks, fre, free) && |bytes| == poolSize
      requires CanFree(h, i) && h.free == free && blocks == MergedLeft(h, i) && Elems(blocks) <= Elems(h.blocks)
      requires used == h.used - {h.blocks[i]} && InPool(Elems(h.blocks))
      requires merged == LeftFree(h, i) && header == blocks[FreedAt(h, i)]
      requires OnlyHeaders(start, b0, bytes, Elems(h.blocks))
      modifies this`blk, this`blocks, this`fre, this`free, this`bytes, this`available
      ensures Chained(blk, blocks, fre, free) && |bytes| == poolSize
      ensures blocks == FreedBlocks(h, i) && free == FreedList(h, i)
      ensures available == old(available) + (if h.blocks[i + 1] !in h.used then HEADER else 0)
      ensures OnlyHeaders(start, b0, bytes, Elems(h.blocks))
    {
      ghost var hs := Elems(h.blocks);
      MergedLeftShape(h, i);
      DropElems(h.free, h.blocks[i + 1]);
      MergeRight(header, FreedAt(h, i), hs, b0);
      if !merged { FreePush(header, hs, b0); }
    }

    /** rt_memheap_free on a block in use */
    method FreeBlock(a: Addr, ghost i: nat)
      requires Chained(blk, blocks, fre, free) && |bytes| == poolSize
      requires CanFree(Abs(), i) && blocks[i] == a && InPool(Elems(blocks))
      modifies this
      ensures Chained(blk, blocks, fre, free) && |bytes| == poolSize
      ensures Abs() == FreeAt(old(Abs()), i)
      ensures OnlyHeaders(start, old(bytes), bytes, Elems(old(blocks)))
    {
      ghost var h, b0 := Abs(), bytes;
      var header, merged := FreeLeft(a, i, h);
      MergedLeftElems(h, i);
      FreeRight(header, merged, i, h, b0);
    }

    /** rt_memheap_free */
    method Free(ptr: Option<Addr>)
      requires Valid() && (ptr.Some? ==> LiveAt(Abs(), ptr.value - HEADER))
      modifies this
      ensures Valid()
      ensures ptr.None? ==> Abs() == old(Abs()) && bytes == old(bytes)
      ensures ptr.Some? ==> Freed(old(Abs()), old(bytes), Abs(), bytes, ptr.value - HEADER)
    {
      if ptr.Some? {
        var a := ptr.value - HEADER;
        ghost var h := Abs();
        ghost var i := IndexOf(blocks, a);
        LiveIff(h, a);
        FreeReady(h, i);
        FreeBlock(a, i);
        FreeOthers(h, i);
        OnlyHeadersMore(start, old(bytes), bytes, Elems(h.blocks), Elems(h.blocks) + Elems(blocks));
        ContentsStep(h, Abs(), old(bytes), bytes, a);
      }
    }

    /** _remove_next_ptr */
    method RemoveNext(n: Addr, ghost i: nat, ghost k: nat, ghost hs: set<Addr>, ghost b0: seq<Byte>)
      requires Chained(blk, blocks, fre, free) && |bytes| == poolSize && OnlyHeaders(start, b0, bytes, hs)
      requires i + 1 < |blocks| && blocks[i + 1] == n && k < |free| && free[k] == n
      requires Elems(blocks) <= hs && Elems(free) <= hs && InPool(hs)
      modifies this`blk, this`blocks, this`fre, this`free, this`bytes
      ensures Chained(blk, blocks, fre, free) && |bytes| == poolSize && OnlyHeaders(start, b0, bytes, hs)
      ensures blocks == Removed(old(blocks), i + 1) && free == Removed(old(free), k)
    {
      FreeUnlink(n, k, hs, b0);
      BlockUnlink(n, i + 1, hs, b0);
    }

    /** Add a free block with header c after block a. */
    method AddFree(a: Addr, c: Addr, ghost i: nat, ghost hs: set<Addr>, ghost b0: seq<Byte>)
      requires Chained(blk, blocks, fre, free) && |bytes| == poolSize && OnlyHeaders(start, b0, bytes, hs)
      requires i < |blocks| && blocks[i] == a && c !in Elems(blocks) && c !in Elems(free) && c != LIST_HEAD
      requires Elems(blocks) <= hs && Elems(free) <= hs && c in hs && InPool(hs)
      modifies this`blk, this`blocks, this`fre, this`free, this`bytes
      ensures Chained(blk, blocks, fre, free) && |bytes| == poolSize && OnlyHeaders(start, b0, bytes, hs)
      ensures blocks == Inserted(old(blocks), i + 1, c) && free == [c] + old(free)
    {
      BlockInsert(a, c, i, hs, b0);
      FreePush(c, hs, b0);
    }

    /** rt_memheap_realloc: grow into the free block n that follows a. */
    method GrowBlock(a: Addr, n: Addr, size: nat, oldSize: int, ghost i: nat, ghost hs: set<Addr>)
      requires Chained(blk, blocks, fre, free) && |bytes| == poolSize
      requires i + 2 < |blocks| && blocks[i] == a && blocks[i + 1] == n && oldSize == Abs().Size(i)
      requires n in free && NoDuplicates(free) && NoDuplicates(blocks)
      requires Elems(free) <= Elems(blocks) && a + HEADER + size != LIST_HEAD
      requires a + HEADER + size !in Elems(Removed(blocks, i + 1))
      requires hs == Elems(blocks) + {a + HEADER + size} && InPool(hs)
      modifies this
      ensures Chained(blk, blocks, fre, free) && |bytes| == poolSize
      ensures Abs() == GrowAt(old(Abs()), i, size)
      ensures OnlyHeaders(start, old(bytes), bytes, hs)
    {
      ghost var b0 := bytes;
      Consume(size - oldSize);
      GrowLinks(a, n, a + HEADER + size, i, hs, b0);
    }

    /** The header c takes the place of the free block n behind a. */
    method GrowLinks(a: Addr, n: Addr, c: Addr, ghost i: nat, ghost hs: set<Addr>, ghost b0: seq<Byte>)
      requires Chained(blk, blocks, fre, free) && |bytes| == poolSize && OnlyHeaders(start, b0, bytes, hs)
      requires i + 2 < |blocks| && blocks[i] == a && blocks[i + 1] == n
      requires n in free && NoDuplicates(free) && NoDuplicates(blocks) && Elems(free) <= Elems(blocks) <= hs
      requires c != LIST_HEAD && c !in Elems(Removed(blocks, i + 1)) && c in hs && InPool(hs)
      modifies this`blk, this`blocks, this`fre, this`free, this`bytes
      ensures Chained(blk, blocks, fre, free) && |bytes| == poolSize && OnlyHeaders(start, b0, bytes, hs)
      ensures blocks == Inserted(Removed(old(blocks), i + 1), i + 1, c) && free == [c] + Drop(old(free), n)
    {
      DropElems(free, n);
      RemovedElems(blocks, i + 1);
      RemoveNext(n, i, IndexOf(free, n), hs, b0);
      AddFree(a, c, i, hs, b0);
    }

    /** rt_memheap_realloc: give the end of block a back. */
    method ShrinkBlock(a: Addr, size: nat, ghost i: nat, ghost hs: set<Addr>)
      requires Chained(blk, blocks, fre, free) && |bytes| == poolSize
      requires CanFree(Abs(), i) && blocks[i] == a
      requires a + HEADER + size !in Elems(blocks) && a + HEADER + size != LIST_HEAD && a + HEADER + size !in used
      requires hs == Elems(blocks) + {a + HEADER + size} && InPool(hs)
      modifies this
      ensures Chained(blk, blocks, fre, free) && |bytes| == poolSize
      ensures Abs() == ShrinkAt(old(Abs()), i, size)
      ensures OnlyHeaders(start, old(bytes), bytes, hs)
    {
      ghost var b0 := bytes;
      var c := a + HEADER + size;
      ShrinkByTail(Abs(), i, size);
      CutTail(a, c, i, hs, b0);
      ShrinkList(c, i, hs, b0);
    }

    /** A header c inside the block a, merged with the free block that may follow. */
    method CutTail(a: Addr, c: Addr, ghost i: nat, ghost hs: set<Addr>, ghost b0: seq<Byte>)
      requires Chained(blk, blocks, fre, free) && |bytes| == poolSize && OnlyHeaders(start, b0, bytes, hs)
      requires CanFree(Abs(), i) && blocks[i] == a
      requires c !in Elems(blocks) && c != LIST_HEAD && c !in used
      requires hs == Elems(blocks) + {c} && InPool(hs)
      modifies this`blk, this`blocks, this`fre, this`free, this`bytes, this`available
      ensures Chained(blk, blocks, fre, free) && |bytes| == poolSize && OnlyHeaders(start, b0, bytes, hs)
      ensures Abs() == TailCut(old(Abs()), i, c) && blocks[i + 1] == c
      ensures c !in Elems(free) && Elems(free) <= hs
    {
      ghost var h := Abs();
      InsertedElems(blocks, i + 1, c);
      BlockInsert(a, c, i, hs, b0);
      ShrinkMerge(c, i, h, hs, b0);
    }

    /** rt_memheap_realloc: the cut-off end c joins the free list. */
    method ShrinkList(c: Addr, ghost i: nat, ghost hs: set<Addr>, ghost b0: seq<Byte>)
      requires Chained(blk, blocks, fre, free) && |bytes| == poolSize && OnlyHeaders(start, b0, bytes, hs)
      requires i + 2 < |blocks| && blocks[i + 1] == c && c !in Elems(free) && c != LIST_HEAD
      requires Elems(free) <= hs && c in hs && InPool(hs)
      modifies this`fre, this`free, this`bytes, this`available
      ensures Chained(blk, blocks, fre, free) && |bytes| == poolSize && OnlyHeaders(start, b0, bytes, hs)
      ensures free == [c] + old(free) && available == old(available) + (blocks[i + 2] - c - HEADER)
    {
      RingNeighbours(blk, blocks, i + 1);
      FreePush(c, hs, b0);
      available := available + (blk.next[c] - c - HEADER);
    }

    /** rt_memheap_realloc: merge the cut-off end c with the free block that may follow it. */
    method ShrinkMerge(c: Addr, ghost i: nat, ghost h: Heap, ghost hs: set<Addr>, ghost b0: seq<Byte>)
      requires Chained(blk, blocks, fre, free) && |bytes| == poolSize
      requires CanFree(h, i) && blocks == Inserted(h.blocks, i + 1, c) && free == h.free && used == h.used
      requires Elems(blocks) <= hs && Elems(free) <= hs && c !in Elems(free) && InPool(hs) && OnlyHeaders(start, b0, bytes, hs)
      modifies this`blk, this`blocks, this`fre, this`free, this`bytes, this`available
      ensures Chained(blk, blocks, fre, free) && |bytes| == poolSize
      ensures OnlyHeaders(start, b0, bytes, hs)
      ensures c !in Elems(free) && Elems(free) <= hs && i + 2 < |blocks|
      ensures var n := h.blocks[i + 1];
        if n !in h.used && i + 2 < |h.blocks| then
          && blocks == Removed(old(blocks), i + 2) && free == Drop(h.free, n)
          && available == old(available) - h.Size(i + 1)
        else blocks == old(blocks) && free == h.free && available == old(available)
    {
      RingNeighbours(blk, blocks, i + 1);
      var n := blk.next[c];
      if n !in used {
        MergeTail(n, i, hs, b0);
      }
    }

    /** The free block n behind the cut-off end leaves both lists. */
    method MergeTail(n: Addr, ghost i: nat, ghost hs: set<Addr>, ghost b0: seq<Byte>)
      requires Chained(blk, blocks, fre, free) && |bytes| == poolSize && OnlyHeaders(start, b0, bytes, hs)
      requires i + 3 < |blocks| && blocks[i + 2] == n && n in free && NoDuplicates(free)
      requires Elems(blocks) <= hs && Elems(free) <= hs && InPool(hs)
      modifies this`blk, this`blocks, this`fre, this`free, this`bytes, this`available
      ensures Chained(blk, blocks, fre, free) && |bytes| == poolSize && OnlyHeaders(start, b0, bytes, hs)
      ensures blocks == Removed(old(blocks), i + 2) && free == Drop(old(free), n) && Elems(free) == Elems(old(free)) - {n}
      ensures available == old(available) - (old(blocks)[i + 3] - n - HEADER)
    {
      RingNeighbours(blk, blocks, i + 2);
      available := available - (blk.next[n] - n - HEADER);
      DropElems(free, n);
      RemoveNext(n, i + 1, IndexOf(free, n), hs, b0);
    }

    /** rt_memheap_realloc, growing in place */
    method ReallocGrow(a: Addr, size: nat, oldSize: int, ghost i: nat)
      requires Valid() && LiveAt(Abs(), a) && Live(Abs(), i) && blocks[i] == a && oldSize == Abs().Size(i)
      requires CanGrow(Abs(), i, size) && IsAligned(size) && size >= MINI_ALLOC
      modifies this
      ensures Valid() && Abs() == GrowAt(old(Abs()), i, size)
      ensures Resized(old(Abs()), old(bytes), Abs(), bytes, a, a, size)
    {
      ghost var h := Abs();
      RingNeighbours(blk, blocks, i);
      ghost var hs := Elems(blocks) + {a + HEADER + size};
      GrowReady(h, i, size);
      assert a + HEADER + size in hs;
      assert InPool(hs) by { assert forall x :: x in hs ==> HeaderFits(h, x); }
      GrowBlock(a, blk.next[a], size, oldSize, i, hs);
      GrowInv(h, i, size);
      OnlyHeadersMore(start, old(bytes), bytes, hs, Elems(h.blocks) + Elems(blocks));
      GrowEffect(h, i, size, old(bytes), bytes);
    }

    /** rt_memheap_realloc, shrinking in place */
    method ReallocShrink(a: Addr, size: nat, ghost i: nat)
      requires Valid() && Live(Abs(), i) && blocks[i] == a
      requires IsAligned(size) && size >= MINI_ALLOC && size + HEADER + MINI_ALLOC < Abs().Size(i)
      modifies this
      ensures Valid() && Abs() == ShrinkAt(old(Abs()), i, size)
      ensures OnlyHeaders(start, old(bytes), bytes, Elems(old(blocks)) + Elems(blocks))
    {
      ghost var h := Abs();
      ghost var hs := Elems(blocks) + {a + HEADER + size};
      ShrinkReady(h, i, size);
      assert a + HEADER + size in hs;
      assert InPool(hs) by { assert forall x :: x in hs ==> HeaderFits(h, x); }
      ShrinkBlock(a, size, i, hs);
      ShrinkInv(h, i, size);
      OnlyHeadersMore(start, old(bytes), bytes, hs, Elems(h.blocks) + Elems(blocks));
    }

    /** rt_memcpy between two payloads of the heap */
    method CopyPayload(a: Addr, q: Addr, n: nat)
      requires |bytes| == poolSize
      requires start <= a && a + HEADER + n <= start + poolSize && start <= q && q + HEADER + n <= start + poolSize
      requires a + HEADER + n <= q + HEADER || q + HEADER + n <= a + HEADER
      modifies this`bytes
      ensures Copied(start, old(bytes), bytes, q, old(bytes)[a + HEADER - start..a + HEADER + n - start])
    {
      ghost var b0 := bytes;
      var k, s, d := 0, a + HEADER - start, q + HEADER - start;
      while k < n
        invariant 0 <= k <= n && Copied(start, b0, bytes, q, b0[s..s + k])
      {
        CopyByte(start, b0, bytes, q, b0[s..s + k], bytes[s + k]);
        assert bytes[s + k] == b0[s + k];
        assert b0[s..s + k + 1] == b0[s..s + k] + [b0[s + k]];
        bytes := bytes[d + k := bytes[s + k]];
        k := k + 1;
      }
    }

    /** rt_memcpy from a payload of another heap */
    method CopyFrom(other: RtMemHeap, a: Addr, q: Addr, n: nat)
      requires other != this && |bytes| == poolSize && |other.bytes| == other.poolSize
      requires other.start <= a && a + HEADER + n <= other.start + other.poolSize
      requires start <= q && q + HEADER + n <= start + poolSize
      modifies this`bytes
      ensures Copied(start, old(bytes), bytes, q, other.bytes[a + HEADER - other.start..a + HEADER + n - other.start])
    {
      ghost var b0 := bytes;
      var k, s, d := 0, a + HEADER - other.start, q + HEADER - start;
      while k < n
        invariant 0 <= k <= n && Copied(start, b0, bytes, q, other.bytes[s..s + k])
      {
        CopyByte(start, b0, bytes, q, other.bytes[s..s + k], other.bytes[s + k]);
        assert other.bytes[s..s + k + 1] == other.bytes[s..s + k] + [other.bytes[s + k]];
        bytes := bytes[d + k := other.bytes[s + k]];
        k := k + 1;
      }
    }

    /** The first n bytes of block a of another heap go to block q of this one. */
    method CopyBlock(other: RtMemHeap, a: Addr, q: Addr, n: nat)
      requires other != this && Valid() && other.Valid()
      requires LiveAt(other.Abs(), a) && n <= BlockSize(other.Abs(), a) && LiveAt(Abs(), q) && n <= BlockSize(Abs(), q)
      modifies this
      ensures Valid() && BlockCopied(other.Abs(), other.bytes, a, old(Abs()), old(bytes), Abs(), bytes, q, n)
    {
      PayloadInPool(other.Abs(), a);
      PayloadInPool(Abs(), q);
      CopyFrom(other, a, q, n);
      assert Payload(other.Abs(), other.bytes, a)[..n] == other.bytes[a + HEADER - other.start..a + HEADER + n - other.start];
    }

    /** MEMITEM_SIZE */
    method ItemSize(a: Addr) returns (n: nat)
      requires Valid() && LiveAt(Abs(), a)
      ensures n == BlockSize(Abs(), a)
    {
      RingNeighbours(blk, blocks, IndexOf(blocks, a));
      PayloadInPool(Abs(), a);
      n := blk.next[a] - a - HEADER;
    }

    /** rt_memheap_realloc, moving to a new block */
    method ReallocMove(a: Addr, size: nat, oldSize: nat) returns (ptr: Option<Addr>)
      requires Valid() && LiveAt(Abs(), a) && oldSize == BlockSize(Abs(), a) < size
      requires IsAligned(size) && size >= MINI_ALLOC
      modifies this
      ensures Valid() && Moved(old(Abs()), old(bytes), Abs(), bytes, a, size, ptr)
    {
      ghost var h, b := Abs(), bytes;
      ptr := AllocSize(size);
      ghost var h1 := Abs();
      if ptr.Some? { CopyAndFree(a, ptr.value - HEADER, size, oldSize, h, b); }
      MovedBy(h, b, h1, Abs(), bytes, a, size, ptr);
    }

    /** The second half of a move: q is the new block, h and b the heap before. */
    method CopyAndFree(a: Addr, q: Addr, size: nat, oldSize: nat, ghost h: Heap, ghost b: seq<Byte>)
      requires Valid() && LiveAt(h, a) && oldSize == BlockSize(h, a) < size
      requires !LiveAt(h, q) && LiveAt(Abs(), q) && BlockSize(Abs(), q) >= size && SameBut(h, b, Abs(), bytes, q)
      modifies this
      ensures Valid() && LiveAt(old(Abs()), a) && Abs() == Runs.FreeStep(old(Abs()), a)
      ensures Resized(h, b, Abs(), bytes, a, q, size)
    {
      ghost var h1, b1 := Abs(), bytes;
      MoveKeeps(h, b, h1, b1, a, q);
      CopyWithin(a, q, oldSize);
      ghost var b2 := bytes;
      Free(Some(a + HEADER));
      MoveResult(h, b, h1, b1, b2, Abs(), bytes, a, q, size);
    }

    /** The bytes of block a go to the larger block q. */
    method CopyWithin(a: Addr, q: Addr, oldSize: nat)
      requires Valid() && LiveAt(Abs(), a) && LiveAt(Abs(), q) && a != q && oldSize == BlockSize(Abs(), a) <= BlockSize(Abs(), q)
      modifies this
      ensures Valid() && Abs() == old(Abs()) && SameBut(Abs(), old(bytes), Abs(), bytes, q)
      ensures Payload(Abs(), bytes, q)[..oldSize] == Payload(Abs(), old(bytes), a)
    {
      ghost var h, b := Abs(), bytes;
      MoveApart(h, a, q);
      CopyPayload(a, q, oldSize);
      CopyContents(h, b, bytes, q, Payload(h, b, a));
    }

    /** rt_memheap_realloc */
    method Realloc(ptr: Option<Addr>, request: nat) returns (r: Option<Addr>)
      requires Valid() && (ptr.Some? ==> LiveAt(Abs(), ptr.value - HEADER))
      modifies this
      ensures Valid() && IsAligned(RequestSize(request)) && RequestSize(request) >= MINI_ALLOC
      ensures Reallocated(old(Abs()), old(bytes), Abs(), bytes, ptr, request, r)
    {
      ghost var h, b := Abs(), bytes;
      RequestAligned(request);
      if request == 0 {
        Free(ptr);
        r := None;
      } else if ptr.None? {
        r := AllocSize(RequestSize(request));
      } else {
        r := ResizeBlock(ptr.value - HEADER, RequestSize(request));
        ReallocatedLess(h, b, Abs(), bytes, ptr.value - HEADER, request, r);
      }
    }

    /** rt_memheap_realloc on a live block, with the size already adjusted */
    method ResizeBlock(a: Addr, size: nat) returns (r: Option<Addr>)
      requires Valid() && LiveAt(Abs(), a) && IsAligned(size) && size >= MINI_ALLOC
      modifies this
      ensures Valid() && Sized(old(Abs()), old(bytes), Abs(), bytes, a, size, r)
    {
      ghost var h, b := Abs(), bytes;
      ghost var i := IndexOf(blocks, a);
      LiveIff(h, a);
      RingNeighbours(blk, blocks, i);
      PayloadInPool(h, a);
      var oldSize := blk.next[a] - a - HEADER;
      if size > oldSize {
        r := EnlargeBlock(a, size, oldSize, i);
      } else if size + HEADER + MINI_ALLOC >= oldSize {
        Untouched(h, bytes, a, size);
        r := Some(a + HEADER);
      } else {
        ReallocShrink(a, size, i);
        ShrinkEffect(h, i, size, b, bytes);
        r := Some(a + HEADER);
      }
    }

    /** rt_memheap_realloc when the block has to grow */
    method EnlargeBlock(a: Addr, size: nat, oldSize: nat, ghost i: nat) returns (r: Option<Addr>)
      requires Valid() && LiveAt(Abs(), a) && Live(Abs(), i) && blocks[i] == a && IsAligned(size) && size >= MINI_ALLOC
      requires oldSize == Abs().Size(i) == BlockSize(Abs(), a) < size && i == IndexOf(blocks, a)
      modifies this
      ensures Valid() && Sized(old(Abs()), old(bytes), Abs(), bytes, a, size, r)
    {
      ghost var h, b := Abs(), bytes;
      var fits := NextHasRoom(a, size, oldSize, i);
      if fits {
        ReallocGrow(a, size, oldSize, i);
        r := Some(a + HEADER);
        SizedByGrowing(h, b, Abs(), bytes, a, size);
      } else {
        r := ReallocMove(a, size, oldSize);
        SizedByMoving(h, b, Abs(), bytes, a, size, r);
      }
    }

    /** Whether the block after a is free and large enough to grow into. */
    method NextHasRoom(a: Addr, size: nat, oldSize: nat, ghost i: nat) returns (fits: bool)
      requires Ring(blk, blocks) && i + 1 < |blocks| && blocks[i] == a && blocks[|blocks| - 1] in used
      requires oldSize == Abs().Size(i) < size
      ensures fits <==> CanGrow(Abs(), i, size)
    {
      RingNeighbours(blk, blocks, i);
      var n := blk.next[a];
      fits := false;
      if n !in used {
        RingNeighbours(blk, blocks, i + 1);
        var nextSize := blk.next[n] - n - HEADER;
        fits := nextSize + oldSize > size + MINI_ALLOC;
      }
    }
  }

  // ---------- what the operations do to blocks and bytes ----------

  /**
   A request of the adjusted size: met exactly when the size is below the free total and some
   free block holds it, by the first such block of the free list; the block is new, and every
   other live block keeps its bytes.  Otherwise nothing changes.
   */
  ghost predicate Allocated(h: Heap, b: seq<Byte>, r: Heap, c: seq<Byte>, size: nat, ptr: Option<Addr>)
    requires Inv(h) && IsAligned(size) && size >= MINI_ALLOC
  {
    && r == Runs.AllocStep(h, size)
    && (ptr.Some? <==> size < h.available && SomeFits(h, size))
    && (if ptr.None? then r == h && c == b
        else
          var a := ptr.value - HEADER;
          && a == Runs.AllocAddr(h, size)
          && !LiveAt(h, a) && LiveAt(r, a) && BlockSize(r, a) >= size
          && SameBut(h, b, r, c, a))
  }

  /** Block a has ended and every other live block keeps its bytes. */
  ghost predicate Freed(h: Heap, b: seq<Byte>, r: Heap, c: seq<Byte>, a: Addr)
    requires Inv(h) && LiveAt(h, a)
  {
    r == Runs.FreeStep(h, a) && !LiveAt(r, a) && SameBut(h, b, r, c, a)
  }

  /** The first n bytes of block a of heap g were copied to block q of heap h. */
  ghost predicate BlockCopied(g: Heap, b0: seq<Byte>, a: Addr, h: Heap, b: seq<Byte>, r: Heap, c: seq<Byte>, q: Addr, n: nat) {
    && Inv(g) && |b0| == g.poolSize && LiveAt(g, a) && n <= BlockSize(g, a) && LiveAt(h, q) && n <= BlockSize(h, q)
    && r == h && Copied(h.start, b, c, q, Payload(g, b0, a)[..n])
  }

  /** Allocation, copy and free, or nothing. */
  ghost predicate Moved(h: Heap, b: seq<Byte>, r: Heap, c: seq<Byte>, a: Addr, size: nat, ptr: Option<Addr>)
    requires Inv(h) && LiveAt(h, a) && IsAligned(size) && size >= MINI_ALLOC
  {
    && (r, ptr) == Runs.MoveStep(h, a, size)
    && (if ptr.None? then r == h && c == b else Resized(h, b, r, c, a, ptr.value - HEADER, size))
  }

  /** A live block has got the adjusted size, in place or elsewhere, or nothing has happened. */
  ghost predicate Sized(h: Heap, b: seq<Byte>, r: Heap, c: seq<Byte>, a: Addr, size: nat, ptr: Option<Addr>)
    requires Inv(h) && LiveAt(h, a) && IsAligned(size) && size >= MINI_ALLOC
  {
    && (r, ptr) == Runs.ReallocStep(h, a, size)
    && (if ptr.None? then r == h && c == b else Resized(h, b, r, c, a, ptr.value - HEADER, size))
  }

  /** rt_memheap_realloc as a whole. */
  ghost predicate Reallocated(h: Heap, b: seq<Byte>, r: Heap, c: seq<Byte>, ptr: Option<Addr>, request: nat, q: Option<Addr>)
    requires Inv(h) && (ptr.Some? ==> LiveAt(h, ptr.value - HEADER))
    requires IsAligned(RequestSize(request)) && RequestSize(request) >= MINI_ALLOC
  {
    if request == 0 then
      && q.None?
      && (if ptr.None? then r == h && c == b
          else
            Freed(h, b, r, c, ptr.value - HEADER))
    else if ptr.None? then Allocated(h, b, r, c, RequestSize(request), q)
    else
      var a := ptr.value - HEADER;
      && (r, q) == Runs.ReallocStep(h, a, RequestSize(request))
      && (if q.None? then r == h && c == b else Resized(h, b, r, c, a, q.value - HEADER, request))
  }

  lemma MovedBy(h: Heap, b: seq<Byte>, h1: Heap, r: Heap, c: seq<Byte>, a: Addr, size: nat, ptr: Option<Addr>)
    requires Inv(h) && LiveAt(h, a) && IsAligned(size) && size >= MINI_ALLOC
    requires h1 == Runs.AllocStep(h, size) && (ptr.Some? <==> Runs.Served(h, size))
    requires ptr.None? ==> r == h && c == b
    requires ptr.Some? ==> ptr.value - HEADER == Runs.AllocAddr(h, size)
    requires ptr.Some? ==> LiveAt(h1, a) && r == Runs.FreeStep(h1, a) && Resized(h, b, r, c, a, ptr.value - HEADER, size)
    ensures Moved(h, b, r, c, a, size, ptr)
  {
    Runs.MoveBy(h, a, size, r, ptr);
  }

  lemma SizedByGrowing(h: Heap, b: seq<Byte>, r: Heap, c: seq<Byte>, a: Addr, size: nat)
    requires Inv(h) && LiveAt(h, a) && IsAligned(size) && size >= MINI_ALLOC
    requires CanGrow(h, IndexOf(h.blocks, a), size) && r == GrowAt(h, IndexOf(h.blocks, a), size)
    requires Resized(h, b, r, c, a, a, size)
    ensures Sized(h, b, r, c, a, size, Some(a + HEADER))
  {
    LiveIff(h, a);
  }

  lemma SizedByMoving(h: Heap, b: seq<Byte>, r: Heap, c: seq<Byte>, a: Addr, size: nat, ptr: Option<Addr>)
    requires Inv(h) && LiveAt(h, a) && IsAligned(size) && size >= MINI_ALLOC && BlockSize(h, a) < size
    requires !CanGrow(h, IndexOf(h.blocks, a), size) && Moved(h, b, r, c, a, size, ptr)
    ensures Sized(h, b, r, c, a, size, ptr)
  {
    LiveIff(h, a);
  }

  lemma ReallocatedLess(h: Heap, b: seq<Byte>, r: Heap, c: seq<Byte>, a: Addr, request: nat, q: Option<Addr>)
    requires Inv(h) && LiveAt(h, a) && request > 0 && IsAligned(RequestSize(request)) && RequestSize(request) >= MINI_ALLOC
    requires Sized(h, b, r, c, a, RequestSize(request), q)
    ensures Reallocated(h, b, r, c, Some(a + HEADER), request, q)
  {
    RequestAligned(request);
    if q.Some? { ResizedLess(h, b, r, c, a, q.value - HEADER, RequestSize(request), request); }
  }

  /** Reallocated, for a live block and a nonzero size. */
  ghost predicate LiveReallocated(h: Heap, b: seq<Byte>, r: Heap, c: seq<Byte>, a: Addr, request: nat, q: Option<Addr>)
    requires Inv(h) && LiveAt(h, a) && IsAligned(RequestSize(request)) && RequestSize(request) >= MINI_ALLOC
  {
    && (r, q) == Runs.ReallocStep(h, a, RequestSize(request))
    && (if q.None? then r == h && c == b else Resized(h, b, r, c, a, q.value - HEADER, request))
  }

  lemma ReallocatedLive(h: Heap, b: seq<Byte>, r: Heap, c: seq<Byte>, a: Addr, request: nat, q: Option<Addr>)
    requires Inv(h) && LiveAt(h, a) && request > 0 && IsAligned(RequestSize(request)) && RequestSize(request) >= MINI_ALLOC
    requires Reallocated(h, b, r, c, Some(a + HEADER), request, q)
    ensures LiveReallocated(h, b, r, c, a, request, q)
  {
    var ptr := Some(a + HEADER);
    var x := ptr.value - HEADER;
    assert x == a;
    ReallocatedAt(h, b, r, c, ptr, x, request, q);
  }

  lemma ReallocatedAt(h: Heap, b: seq<Byte>, r: Heap, c: seq<Byte>, ptr: Option<Addr>, a: Addr, request: nat, q: Option<Addr>)
    requires Inv(h) && ptr.Some? && LiveAt(h, ptr.value - HEADER) && request > 0
    requires IsAligned(RequestSize(request)) && RequestSize(request) >= MINI_ALLOC
    requires Reallocated(h, b, r, c, ptr, request, q) && a == ptr.value - HEADER
    ensures LiveReallocated(h, b, r, c, a, request, q)
  {
  }

  lemma ListMember(free: seq<Addr>, n: Addr)
    ensures n in [LIST_HEAD] + free ==> n == LIST_HEAD || n in Elems(free)
  {
    InElems(free, n);
  }

  lemma HeaderInPool(h: Heap, a: Addr)
    requires Tiled(h) && a in Elems(h.blocks)
    ensures h.start <= a && a + HEADER <= h.start + h.poolSize
  {
    InElems(h.blocks, a);
    var i := IndexOf(h.blocks, a);
    if 0 < i { SpacedPair(h.blocks, HEADER + MinBlock(h.poolSize), 0, i); }
    if i < |h.blocks| - 1 { SpacedPair(h.blocks, HEADER + MinBlock(h.poolSize), i, |h.blocks| - 1); }
  }

  lemma HeadersInPool(h: Heap)
    requires Tiled(h)
    ensures forall a :: a in Elems(h.blocks) ==> h.start <= a && a + HEADER <= h.start + h.poolSize
  {
    forall a | a in Elems(h.blocks) ensures h.start <= a && a + HEADER <= h.start + h.poolSize { HeaderInPool(h, a); }
  }

  lemma ListHeadOutside(h: Heap, k: nat)
    requires Inv(h) && h.start >= 0 && k < |h.free|
    ensures h.free[k] != LIST_HEAD
  {
    InElems(h.free, h.free[k]);
    HeaderInPool(h, h.free[k]);
  }

  ghost predicate HeaderFits(h: Heap, c: Addr) {
    h.start <= c && c + HEADER <= h.start + h.poolSize && c != LIST_HEAD
  }

  /** What the list operations of an allocation need. */
  ghost predicate CanTake(h: Heap, i: nat, k: nat, size: nat) {
    && i + 1 < |h.blocks| && k < |h.free| && h.free[k] == h.blocks[i] && NoDuplicates(h.free)
    && h.blocks[i] in Elems(h.blocks) && Elems(h.free) <= Elems(h.blocks)
    && (forall a :: a in Elems(h.blocks) ==> HeaderFits(h, a))
    && (h.Size(i) >= size + HEADER + MINI_ALLOC ==>
          h.blocks[i] + HEADER + size !in Elems(h.blocks) && HeaderFits(h, h.blocks[i] + HEADER + size))
  }

  lemma TakeReady(h: Heap, i: nat, k: nat, size: nat)
    requires Fits(h, i, k, size) && h.start >= 0
    ensures CanTake(h, i, k, size)
  {
    InElems(h.blocks, h.blocks[i]);
    HeadersInPool(h);
    if h.Size(i) >= size + HEADER + MINI_ALLOC { NewHeaderInPool(h, i, size); }
  }

  lemma NewHeaderInPool(h: Heap, i: nat, size: nat)
    requires Tiled(h) && h.start >= 0 && i + 1 < |h.blocks| && size + HEADER <= h.Size(i)
    ensures var c := h.blocks[i] + HEADER + size;
      c !in Elems(h.blocks) && h.start <= c && c + HEADER <= h.start + h.poolSize && c != LIST_HEAD
  {
    InElems(h.blocks, h.blocks[i]);
    InElems(h.blocks, h.blocks[i + 1]);
    HeaderInPool(h, h.blocks[i]);
    HeaderInPool(h, h.blocks[i + 1]);
    NewHeader(h, i, h.blocks[i] + HEADER + size);
  }

  /** The block given out was free, is live now and is large enough. */
  lemma AllocResult(h: Heap, i: nat, k: nat, size: nat)
    requires Fits(h, i, k, size)
    ensures !LiveAt(h, h.blocks[i])
    ensures var r := if h.Size(i) >= size + HEADER + MINI_ALLOC then SplitAt(h, i, k, size) else TakeWhole(h, i, k);
      Inv(r) && LiveAt(r, h.blocks[i]) && BlockSize(r, h.blocks[i]) >= size
  {
    InElems(h.free, h.free[k]);
    var split := h.Size(i) >= size + HEADER + MINI_ALLOC;
    if split { SplitInv(h, i, k, size); } else { WholeInv(h, i, k, size); }
    var r := if split then SplitAt(h, i, k, size) else TakeWhole(h, i, k);
    DistinctBlocks(r);
    assert r.blocks[i] == h.blocks[i];
    IndexOfUnique(r.blocks, i);
  }

  lemma AllocEffect(h: Heap, r: Heap, i: nat, k: nat, size: nat, b: seq<Byte>, b': seq<Byte>)
    requires Fits(h, i, k, size) && |b| == h.poolSize
    requires r == if h.Size(i) >= size + HEADER + MINI_ALLOC then SplitAt(h, i, k, size) else TakeWhole(h, i, k)
    requires OnlyHeaders(h.start, b, b', Elems(h.blocks) + Elems(r.blocks))
    ensures var a := h.blocks[i];
      && Inv(r) && !LiveAt(h, a) && LiveAt(r, a) && BlockSize(r, a) >= size
      && SameBut(h, b, r, b', a)
  {
    AllocOthers(h, i, k, size);
    AllocResult(h, i, k, size);
    ContentsStep(h, r, b, b', h.blocks[i]);
  }

  /** What the list operations of a free need. */
  ghost predicate CanFree(h: Heap, i: nat) {
    && i + 1 < |h.blocks| && h.blocks[|h.blocks| - 1] in h.used
    && NoDuplicates(h.blocks) && NoDuplicates(h.free)
    && h.blocks[i] in Elems(h.blocks) && h.blocks[i] != LIST_HEAD && h.blocks[i] !in Elems(h.free)
    && Elems(h.free) <= Elems(h.blocks)
    && (h.blocks[i + 1] !in h.used ==> h.blocks[i + 1] in h.free)
  }

  lemma MergedLeftElems(h: Heap, i: nat)
    requires i + 1 < |h.blocks| && NoDuplicates(h.blocks)
    ensures Elems(MergedLeft(h, i)) <= Elems(h.blocks)
  {
    if LeftFree(h, i) { RemovedElems(h.blocks, i); }
  }

  lemma FreeReady(h: Heap, i: nat)
    requires Live(h, i) && h.start >= 0
    ensures CanFree(h, i)
    ensures forall a :: a in Elems(h.blocks) ==> h.start <= a && a + HEADER <= h.start + h.poolSize
  {
    DistinctBlocks(h);
    HeadersInPool(h);
    InElems(h.blocks, h.blocks[i]);
    InElems(h.blocks, h.blocks[i + 1]);
    InElems(h.free, h.blocks[i + 1]);
  }

  /**
   Block a became block q of at least size bytes: q starts with the bytes a had, as many as fit,
   and all other live blocks are as they were.
   */
  ghost predicate Resized(h: Heap, b: seq<Byte>, r: Heap, b': seq<Byte>, a: Addr, q: Addr, size: nat) {
    && Tiled(h) && Tiled(r) && |b| == h.poolSize && |b'| == r.poolSize
    && LiveAt(h, a) && LiveAt(r, q) && BlockSize(r, q) >= size
    && (q != a ==> !LiveAt(h, q) && !LiveAt(r, a))
    && (forall x :: x != a && x != q ==> Same(h, b, r, b', x))
    && (forall k :: 0 <= k < BlockSize(h, a) && k < size ==> Payload(r, b', q)[k] == Payload(h, b, a)[k])
  }

  lemma ResizedLess(h: Heap, b: seq<Byte>, r: Heap, b': seq<Byte>, a: Addr, q: Addr, size: nat, less: nat)
    requires Resized(h, b, r, b', a, q, size) && less <= size
    ensures Resized(h, b, r, b', a, q, less)
  {
  }

  lemma ResizedInPlace(h: Heap, b: seq<Byte>, r: Heap, b': seq<Byte>, a: Addr, size: nat)
    requires LiveAt(h, a) && |b| == h.poolSize && OthersSame(h, r, a) && a in r.used
    requires OnlyHeaders(h.start, b, b', Elems(h.blocks) + Elems(r.blocks)) && BlockSize(r, a) >= size
    ensures Resized(h, b, r, b', a, a, size)
  {
    LiveIff(h, a);
    LiveIff(r, a);
    ContentsStep(h, r, b, b', a);
    PayloadKept(h, r, b, b', a);
  }

  lemma GrowHeader(h: Heap, i: nat, size: nat)
    requires Tiled(h) && h.start >= 0 && CanGrow(h, i, size) && size >= MINI_ALLOC
    ensures var c := h.blocks[i] + HEADER + size;
      HeaderFits(h, c) && c !in Elems(Removed(h.blocks, i + 1)) && c in Elems(GrowAt(h, i, size).blocks)
  {
    GrowTiled(h, i, size);
    var c := h.blocks[i] + HEADER + size;
    InsertedElems(Removed(h.blocks, i + 1), i + 1, c);
    HeaderInPool(GrowAt(h, i, size), c);
  }

  lemma GrowReady(h: Heap, i: nat, size: nat)
    requires Live(h, i) && h.start >= 0 && CanGrow(h, i, size) && size >= MINI_ALLOC
    ensures NoDuplicates(h.free) && NoDuplicates(h.blocks) && Elems(h.free) <= Elems(h.blocks) && h.blocks[i + 1] in h.free
    ensures h.blocks[i] + HEADER + size !in Elems(Removed(h.blocks, i + 1))
    ensures forall a :: a in Elems(h.blocks) + {h.blocks[i] + HEADER + size} ==> HeaderFits(h, a)
    ensures Elems(h.blocks) + {h.blocks[i] + HEADER + size} <= Elems(h.blocks) + Elems(GrowAt(h, i, size).blocks)
  {
    DistinctBlocks(h);
    HeadersInPool(h);
    GrowHeader(h, i, size);
    InElems(h.blocks, h.blocks[i + 1]);
    InElems(h.free, h.blocks[i + 1]);
  }

  lemma ShrinkReady(h: Heap, i: nat, size: nat)
    requires Live(h, i) && h.start >= 0 && size >= MINI_ALLOC && size + HEADER + MINI_ALLOC < h.Size(i)
    ensures CanFree(h, i)
    ensures var c := h.blocks[i] + HEADER + size;
      && c !in Elems(h.blocks) && c !in h.used
      && (forall a :: a in Elems(h.blocks) + {c} ==> HeaderFits(h, a))
      && Elems(h.blocks) + {c} <= Elems(h.blocks) + Elems(ShrinkAt(h, i, size).blocks)
  {
    var c := h.blocks[i] + HEADER + size;
    FreeReady(h, i);
    NewHeaderInPool(h, i, size);
    HeadersInPool(h);
    InsertedElems(h.blocks, i + 1, c);
    if h.blocks[i + 1] !in h.used && i + 2 < |h.blocks| { ShrinkElems(h.blocks, i, c); }
  }

  /** After the allocation of q, block a is still there with its bytes. */
  lemma MoveKeeps(h: Heap, b: seq<Byte>, r: Heap, b': seq<Byte>, a: Addr, q: Addr)
    requires LiveAt(h, a) && SameBut(h, b, r, b', q) && !LiveAt(h, q)
    ensures a != q && LiveAt(r, a) && Payload(r, b', a) == Payload(h, b, a) && BlockSize(r, a) == BlockSize(h, a)
  {
    assert Same(h, b, r, b', a);
  }

  lemma MoveApart(r: Heap, a: Addr, q: Addr)
    requires Tiled(r) && a != q && LiveAt(r, a) && LiveAt(r, q)
    ensures r.start <= a && a + HEADER + BlockSize(r, a) <= r.start + r.poolSize
    ensures r.start <= q && q + HEADER + BlockSize(r, q) <= r.start + r.poolSize
    ensures a + HEADER + BlockSize(r, a) <= q || q + HEADER + BlockSize(r, q) <= a
  {
    PayloadInPool(r, a);
    PayloadInPool(r, q);
    var i, j := IndexOf(r.blocks, a), IndexOf(r.blocks, q);
    var d := HEADER + MinBlock(r.poolSize);
    if i + 1 < j { SpacedPair(r.blocks, d, i + 1, j); }
    if j + 1 < i { SpacedPair(r.blocks, d, j + 1, i); }
  }

  /** Allocate, copy and free together move a block. */
  lemma MoveResult(h: Heap, b: seq<Byte>, h1: Heap, b1: seq<Byte>, b2: seq<Byte>, r: Heap, b3: seq<Byte>, a: Addr, q: Addr, size: nat)
    requires LiveAt(h, a) && !LiveAt(h, q) && LiveAt(h1, a) && LiveAt(h1, q) && a != q
    requires SameBut(h, b, h1, b1, q) && SameBut(h1, b1, h1, b2, q) && Inv(h1) && Freed(h1, b2, r, b3, a)
    requires BlockSize(h1, q) >= size > BlockSize(h, a) == BlockSize(h1, a)
    requires Payload(h1, b1, a) == Payload(h, b, a)
    requires Payload(h1, b2, q)[..BlockSize(h, a)] == Payload(h1, b1, a)
    ensures Resized(h, b, r, b3, a, q, size)
  {
    forall x | x != a && x != q ensures Same(h, b, r, b3, x) {
      assert Same(h, b, h1, b1, x) && Same(h1, b1, h1, b2, x) && Same(h1, b2, r, b3, x);
    }
    assert Same(h1, b2, r, b3, q);
    var n := BlockSize(h, a);
    forall k | 0 <= k < n && k < size ensures Payload(r, b3, q)[k] == Payload(h, b, a)[k] {
      assert Payload(h1, b2, q)[k] == Payload(h1, b2, q)[..n][k];
    }
  }

  lemma GrowEffect(h: Heap, i: nat, size: nat, b: seq<Byte>, b': seq<Byte>)
    requires Live(h, i) && CanGrow(h, i, size) && IsAligned(size) && size >= MINI_ALLOC && |b| == h.poolSize
    requires OnlyHeaders(h.start, b, b', Elems(h.blocks) + Elems(GrowAt(h, i, size).blocks))
    requires LiveAt(h, h.blocks[i])
    ensures Resized(h, b, GrowAt(h, i, size), b', h.blocks[i], h.blocks[i], size)
  {
    GrowOthers(h, i, size);
    ResizedInPlace(h, b, GrowAt(h, i, size), b', h.blocks[i], size);
  }

  lemma ShrinkEffect(h: Heap, i: nat, size: nat, b: seq<Byte>, b': seq<Byte>)
    requires Live(h, i) && IsAligned(size) && size >= MINI_ALLOC && size + HEADER + MINI_ALLOC < h.Size(i) && |b| == h.poolSize
    requires OnlyHeaders(h.start, b, b', Elems(h.blocks) + Elems(ShrinkAt(h, i, size).blocks))
    requires LiveAt(h, h.blocks[i])
    ensures Resized(h, b, ShrinkAt(h, i, size), b', h.blocks[i], h.blocks[i], size)
  {
    ShrinkOthers(h, i, size);
    ResizedInPlace(h, b, ShrinkAt(h, i, size), b', h.blocks[i], size);
  }

  lemma Untouched(h: Heap, b: seq<Byte>, a: Addr, size: nat)
    requires Tiled(h) && LiveAt(h, a) && |b| == h.poolSize && BlockSize(h, a) >= size
    ensures Resized(h, b, h, b, a, a, size)
  {
  }
}
