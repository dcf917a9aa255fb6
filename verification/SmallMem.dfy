/**
 The small-memory allocator as mem.c implements it: headers linked by offsets, a lowest-free
 pointer and a byte count, updated in place.
 */
module SmallMem {
  import opened Wrappers
  import opened RtList
  import HeapBlocks
  import opened SmallBlocks
  import opened SmallRuns
  import opened SmallBytes

  /** a is followed by n, and n leads back to a unless n is the last header. */
  ghost predicate Joined(l: Links, a: Addr, n: Addr, last: bool) {
    a in l.next && l.next[a] == n && (!last ==> n in l.prev && l.prev[n] == a)
  }

  /**
   next leads from each header to the following one and from heap_end to itself; prev leads
   back, except that nothing is promised about the prev of heap_end.
   */
  ghost predicate Linked(l: Links, b: seq<Addr>) {
    && b != []
    && (forall i, j :: 0 <= i < j < |b| && j == i + 1 ==> Joined(l, b[i], b[j], j == |b| - 1))
    && b[|b| - 1] in l.next && l.next[b[|b| - 1]] == b[|b| - 1]
    && (|b| >= 2 ==> b[0] in l.prev && l.prev[b[0]] == b[0])
  }

  lemma LinkedAt(l: Links, b: seq<Addr>, i: nat)
    requires Linked(l, b) && i + 1 < |b|
    ensures b[i] in l.next && l.next[b[i]] == b[i + 1]
    ensures b[i] in l.prev && l.prev[b[i]] == if i == 0 then b[0] else b[i - 1]
  {
    var n := i + 1;
    assert Joined(l, b[i], b[n], n == |b| - 1);
    if i > 0 { var j := i - 1; assert Joined(l, b[j], b[i], false); }
  }

  /** The links once header c has been put in behind header a. */
  function SpliceIn(l: Links, a: Addr, c: Addr, end: Addr): Links
    requires a in l.next
  {
    var n := l.next[a];
    Links(l.next[c := n][a := c], if n != end then l.prev[c := a][n := c] else l.prev[c := a])
  }

  /** The links once header n has been dropped from behind header a. */
  function SpliceOut(l: Links, a: Addr, n: Addr): Links
    requires n in l.next
  {
    Links(l.next[a := l.next[n]], l.prev[l.next[n] := a])
  }

  /** The two new neighbourhoods. */
  lemma SplicedNear(l: Links, b: seq<Addr>, i: nat, c: Addr)
    requires Linked(l, b) && NoDuplicates(b) && i + 1 < |b| && forall k :: 0 <= k < |b| ==> b[k] != c
    requires b[i] in l.next && l.next[b[i]] == b[i + 1]
    ensures var m := SpliceIn(l, b[i], c, b[|b| - 1]);
      Joined(m, b[i], c, false) && Joined(m, c, b[i + 1], i + 1 == |b| - 1)
  {
  }

  /** The old ones, away from the place where c went in. */
  lemma SplicedFar(l: Links, b: seq<Addr>, i: nat, c: Addr, x: nat, y: nat)
    requires Linked(l, b) && NoDuplicates(b) && i + 1 < |b| && forall k :: 0 <= k < |b| ==> b[k] != c
    requires x < y < |b| && y == x + 1 && x != i && b[i] in l.next && l.next[b[i]] == b[i + 1]
    ensures Joined(SpliceIn(l, b[i], c, b[|b| - 1]), b[x], b[y], y == |b| - 1)
  {
    assert Joined(l, b[x], b[y], y == |b| - 1);
  }

  lemma SpliceInLinked(l: Links, b: seq<Addr>, i: nat, c: Addr)
    requires Linked(l, b) && NoDuplicates(b) && i + 1 < |b| && c !in Elems(b)
    ensures b[i] in l.next && Linked(SpliceIn(l, b[i], c, b[|b| - 1]), Inserted(b, i + 1, c))
  {
    LinkedAt(l, b, i);
    var m, r := SpliceIn(l, b[i], c, b[|b| - 1]), Inserted(b, i + 1, c);
    forall k | 0 <= k < |b| ensures b[k] != c { InElems(b, b[k]); }
    forall j, k | 0 <= j < k < |r| && k == j + 1
      ensures Joined(m, r[j], r[k], k == |r| - 1)
    {
      if j == i || j == i + 1 {
        SplicedNear(l, b, i, c);
        assert r[i] == b[i] && r[i + 1] == c && r[i + 2] == b[i + 1];
      } else {
        var x, y: nat := if j < i then j else j - 1, if j < i then k else k - 1;
        assert r[j] == b[x] && r[k] == b[y];
        SplicedFar(l, b, i, c, x, y);
      }
    }
    assert r[|r| - 1] == b[|b| - 1] && r[0] == b[0];
    LinkedAt(l, b, 0);
  }

  lemma SpliceOutLinked(l: Links, b: seq<Addr>, i: nat)
    requires Linked(l, b) && NoDuplicates(b) && i + 2 < |b|
    ensures b[i + 1] in l.next && Linked(SpliceOut(l, b[i], b[i + 1]), Removed(b, i + 1))
  {
    LinkedAt(l, b, i + 1);
    var m, r := SpliceOut(l, b[i], b[i + 1]), Removed(b, i + 1);
    forall j, k | 0 <= j < k < |r| && k == j + 1
      ensures Joined(m, r[j], r[k], k == |r| - 1)
    {
      if j < i {
        assert r[j] == b[j] && r[k] == b[k];
        LinkedAt(l, b, k);
        LinkedAt(l, b, j);
      } else if j == i {
        assert r[k] == b[i + 2];
      } else {
        assert r[j] == b[j + 1] && r[k] == b[k + 1];
        LinkedAt(l, b, j + 1);
        if k < |r| - 1 { LinkedAt(l, b, k + 1); }
      }
    }
    assert r[|r| - 1] == b[|b| - 1] && r[0] == b[0];
    LinkedAt(l, b, 0);
    assert b[i] != b[|b| - 1] && b[i + 2] != b[0];
    assert r[0] in m.prev && m.prev[r[0]] == r[0];
    assert r[|r| - 1] in m.next && m.next[r[|r| - 1]] == r[|r| - 1];
  }

  /** mem_size_aligned for size bytes at begin, behind a control block of the given size. */
  function MemSize(begin: nat, size: nat, control: nat): Option<int> {
    var start := HeapBlocks.AlignUp(begin) + control;
    var end := HeapBlocks.AlignDown(begin + size);
    if end > 2 * STRUCT_MEM && end - 2 * STRUCT_MEM >= start
    then Some(end - HeapBlocks.AlignUp(start) - 2 * STRUCT_MEM) else None
  }

  /** rt_smem_init never hands out memory beyond the region it was given. */
  lemma MemSizeFits(begin: nat, size: nat, control: nat)
    requires MemSize(begin, size, control).Some?
    ensures var m := MemSize(begin, size, control).value;
      && m >= 0 && HeapBlocks.IsAligned(m)
      && HeapBlocks.AlignUp(HeapBlocks.AlignUp(begin) + control) + m + 2 * STRUCT_MEM <= begin + size
  {
    var start := HeapBlocks.AlignUp(begin) + control;
    var lo, hi := (start + 7) / 8, (begin + size) / 8;
    assert HeapBlocks.Words(hi - lo - 4) == MemSize(begin, size, control).value;
  }

  class SmallMemory {
    const memSize: nat
    var links: Links
    var used: set<Addr>       // headers whose pool_ptr carries the used mark
    var lfree: Addr
    var usedBytes: int
    var maxBytes: int
    var bytes: seq<Byte>
    ghost var blocks: seq<Addr>

    ghost function Abs(): Small
      reads this
    {
      Small(memSize, blocks, used, lfree, usedBytes, maxBytes)
    }

    ghost predicate Valid()
      reads this
    {
      Inv(Abs()) && Linked(links, blocks) && |bytes| == HeapBytes(memSize)
    }

    /** rt_smem_init */
    constructor (begin: nat, size: nat, control: nat)
      requires MemSize(begin, size, control).Some?
      ensures Valid()
      ensures MemSize(begin, size, control) == Some(memSize) && Abs() == SmallBlocks.Init(memSize)
    {
      MemSizeFits(begin, size, control);
      var m: nat := MemSize(begin, size, control).value;
      var end := m + STRUCT_MEM;
      memSize := m;
      links := Links(map[0 := end, end := end], map[0 := 0, end := end]);
      used := {end};
      lfree := 0;
      usedBytes := 0;
      maxBytes := 0;
      bytes := seq(HeapBytes(m), _ => 0);
      blocks := [0, end];
      new;
      SmallBlocks.InitInv(m);
    }

    /** Writing a header overwrites its bytes. */
    method Touch(a: Addr, ghost hs: set<Addr>, ghost b0: seq<Byte>)
      requires a in hs && Fit(hs, |bytes|) && OnlyHeaders(b0, bytes, hs)
      modifies this`bytes
      ensures |bytes| == |old(bytes)| && OnlyHeaders(b0, bytes, hs)
    {
      var k := 0;
      while k < STRUCT_MEM
        invariant 0 <= k <= STRUCT_MEM && |bytes| == |old(bytes)| && OnlyHeaders(b0, bytes, hs)
      {
        var v: Byte := *;
        assert InHeader(a, a + k);
        bytes := bytes[a + k := v];
        k := k + 1;
      }
    }

    /** The headers that a mark, a split or a merge at mem may write: its own and those around it. */
    method TouchNear(mem: Addr, ghost i: nat, ghost hs: set<Addr>, ghost b0: seq<Byte>)
      requires Linked(links, blocks) && i + 1 < |blocks| && blocks[i] == mem
      requires Elems(blocks) <= hs && Fit(hs, |bytes|) && OnlyHeaders(b0, bytes, hs)
      modifies this`bytes
      ensures |bytes| == |old(bytes)| && OnlyHeaders(b0, bytes, hs)
    {
      Neighbours(links, blocks, i);
      Touch(mem, hs, b0);
      Touch(links.prev[mem], hs, b0);
      Touch(links.next[mem], hs, b0);
      Touch(links.next[links.next[mem]], hs, b0);
    }

    /** plug_holes, the forward half */
    method PlugNext(mem: Addr, ghost i: nat)
      requires Linked(links, blocks) && NoDuplicates(blocks) && i + 1 < |blocks| && blocks[i] == mem
      requires blocks[|blocks| - 1] == memSize + STRUCT_MEM
      modifies this`links, this`lfree, this`blocks
      ensures Abs() == PlugForward(old(Abs()), i)
      ensures Linked(links, blocks) && NoDuplicates(blocks) && i + 1 < |blocks| && blocks[i] == mem
    {
      LinkedAt(links, blocks, i);
      var nmem := links.next[mem];
      if mem != nmem && nmem !in used && nmem != memSize + STRUCT_MEM {
        if lfree == nmem { lfree := mem; }
        SpliceOutLinked(links, blocks, i);
        RemovedElems(blocks, i + 1);
        links := SpliceOut(links, mem, nmem);
        blocks := Removed(blocks, i + 1);
      }
    }

    /** plug_holes, the backward half */
    method PlugPrev(mem: Addr, ghost i: nat)
      requires Linked(links, blocks) && NoDuplicates(blocks) && i + 1 < |blocks| && blocks[i] == mem
      modifies this`links, this`lfree, this`blocks
      ensures Abs() == PlugBackward(old(Abs()), i)
      ensures Linked(links, blocks)
    {
      LinkedAt(links, blocks, i);
      var pmem := links.prev[mem];
      if pmem != mem && pmem !in used {
        if lfree == mem { lfree := pmem; }
        SpliceOutLinked(links, blocks, i - 1);
        links := SpliceOut(links, pmem, mem);
        blocks := Removed(blocks, i);
      }
    }

    method PlugHoles(mem: Addr, ghost i: nat)
      requires Linked(links, blocks) && NoDuplicates(blocks) && i + 1 < |blocks| && blocks[i] == mem
      requires blocks[|blocks| - 1] == memSize + STRUCT_MEM
      modifies this`links, this`lfree, this`blocks
      ensures Abs() == Plug(old(Abs()), i)
      ensures Linked(links, blocks)
    {
      PlugNext(mem, i);
      PlugPrev(mem, i);
    }

    /** Mark the used block mem free and merge it. */
    method Release(mem: Addr, ghost i: nat)
      requires Linked(links, blocks) && NoDuplicates(blocks) && i + 1 < |blocks| && blocks[i] == mem
      requires blocks[|blocks| - 1] == memSize + STRUCT_MEM
      modifies this`links, this`used, this`lfree, this`usedBytes, this`blocks
      ensures Linked(links, blocks) && Abs() == FreeAt(old(Abs()), i)
    {
      LinkedAt(links, blocks, i);
      used := used - {mem};
      if mem < lfree { lfree := mem; }
      usedBytes := usedBytes - (links.next[mem] - mem);
      PlugHoles(mem, i);
    }

    method Free(p: Option<Addr>)
      requires Valid() && (p.Some? ==> LiveAt(Abs(), p.value))
      modifies this
      ensures Valid() && (p.None? ==> Abs() == old(Abs()) && bytes == old(bytes))
      ensures p.Some? ==> Abs() == FreeStep(old(Abs()), p.value)
      ensures p.Some? ==> Intact(old(Abs()), old(bytes), Abs(), bytes, p.value - STRUCT_MEM)
      ensures p.Some? ==> used == old(used) - {p.value - STRUCT_MEM}
    {
      if p.None? { return; }
      FreeBlock(p.value - STRUCT_MEM, Position(Abs(), p.value));
    }

    method FreeBlock(mem: Addr, ghost i: nat)
      requires Valid() && SmallBlocks.Live(Abs(), i) && blocks[i] == mem
      modifies this
      ensures Valid() && Abs() == FreeAt(old(Abs()), i)
      ensures Intact(old(Abs()), old(bytes), Abs(), bytes, mem) && used == old(used) - {mem}
    {
      ghost var s, b0 := Abs(), bytes;
      TilesDistinct(s);
      HeadersFit(s);
      FreeInv(s, i);
      TouchNear(mem, i, Elems(blocks), b0);
      Release(mem, i);
      FreeEffect(s, i, b0, bytes);
    }

    /** The search loop of rt_smem_alloc: the first fitting free block, or None. */
    method Search(size: nat) returns (r: Option<Addr>, ghost i: nat)
      requires Valid() && size <= memSize
      ensures i == FirstFit(blocks, used, size, 0)
      ensures r == if i + 1 < |blocks| then Some(blocks[i]) else None
    {
      i := LowestExists(blocks, used);
      var ptr := lfree;
      while ptr <= memSize - size
        invariant i < |blocks| && ptr == blocks[i]
        invariant forall k :: 0 <= k < i ==> !FitsAt(blocks, used, size, k)
        decreases |blocks| - i
      {
        LinkedAt(links, blocks, i);
        if ptr !in used && links.next[ptr] - (ptr + STRUCT_MEM) >= size {
          FirstFitSkip(blocks, used, size, 0, i);
          return Some(ptr), i;
        }
        ptr := links.next[ptr];
        i := i + 1;
      }
      NoneFrom(Abs(), size, i);
      FirstFitSkip(blocks, used, size, 0, |blocks| - 1);
      i := |blocks| - 1;
      r := None;
    }

    /** The lfree loop of rt_smem_alloc. */
    method AdvanceFree(ghost i: nat)
      requires Linked(links, blocks) && i < |blocks| && blocks[i] == lfree
      requires blocks[|blocks| - 1] == memSize + STRUCT_MEM && NoDuplicates(blocks)
      modifies this`lfree
      ensures lfree == LowestFree(blocks[i..], used)
    {
      ghost var k := i;
      while lfree in used && lfree != memSize + STRUCT_MEM
        invariant i <= k < |blocks| && lfree == blocks[k]
        invariant LowestFree(blocks[i..], used) == LowestFree(blocks[k..], used)
        decreases |blocks| - k
      {
        LinkedAt(links, blocks, k);
        assert blocks[k..][1..] == blocks[k + 1..];
        lfree := links.next[lfree];
        k := k + 1;
      }
    }

    /** Put a free header c behind mem. */
    method Splice(mem: Addr, c: Addr, ghost i: nat)
      requires Linked(links, blocks) && NoDuplicates(blocks) && i + 1 < |blocks| && blocks[i] == mem
      requires blocks[|blocks| - 1] == memSize + STRUCT_MEM && c !in Elems(blocks)
      modifies this`links, this`blocks
      ensures Linked(links, blocks) && NoDuplicates(blocks) && blocks == Inserted(old(blocks), i + 1, c)
    {
      SpliceInLinked(links, blocks, i, c);
      InsertedElems(blocks, i + 1, c);
      links := SpliceIn(links, mem, c, memSize + STRUCT_MEM);
      blocks := Inserted(blocks, i + 1, c);
    }

    /** Cut off what a request for size bytes does not need of the block mem. */
    method CutOff(mem: Addr, size: nat, ghost i: nat)
      requires Linked(links, blocks) && NoDuplicates(blocks) && i + 1 < |blocks| && blocks[i] == mem
      requires blocks[|blocks| - 1] == memSize + STRUCT_MEM
      requires Splits(Abs(), i, size) ==> mem + STRUCT_MEM + size !in Elems(blocks)
      modifies this`links, this`blocks, this`usedBytes
      ensures Linked(links, blocks) && NoDuplicates(blocks)
      ensures blocks == AllocBlocks(old(Abs()), i, size)
      ensures usedBytes == old(usedBytes) + (blocks[i + 1] - mem)
    {
      LinkedAt(links, blocks, i);
      AllocBlocksCases(Abs(), i, size);
      if links.next[mem] - (mem + STRUCT_MEM) >= size + STRUCT_MEM + MIN_SIZE_ALIGNED {
        Splice(mem, mem + STRUCT_MEM + size, i);
        usedBytes := usedBytes + (size + STRUCT_MEM);
      } else {
        usedBytes := usedBytes + (links.next[mem] - mem);
      }
    }

    /** Give out the free block mem, cutting off what the request does not need. */
    method Take(mem: Addr, size: nat, ghost i: nat)
      requires Linked(links, blocks) && NoDuplicates(blocks) && i + 1 < |blocks| && blocks[i] == mem
      requires blocks[|blocks| - 1] == memSize + STRUCT_MEM
      requires Splits(Abs(), i, size) ==> mem + STRUCT_MEM + size !in Elems(blocks)
      modifies this`links, this`used, this`lfree, this`usedBytes, this`maxBytes, this`blocks
      ensures Linked(links, blocks) && Abs() == AllocAt(old(Abs()), i, size)
    {
      CutOff(mem, size, i);
      if maxBytes < usedBytes { maxBytes := usedBytes; }
      used := used + {mem};
      if mem == lfree { AdvanceFree(i); }
    }

    method Alloc(n: nat) returns (r: Option<Addr>)
      requires Valid()
      modifies this
      ensures Valid() && (Abs(), r) == AllocStep(old(Abs()), n)
      ensures r.None? ==> bytes == old(bytes)
      ensures r.Some? ==> Intact(old(Abs()), old(bytes), Abs(), bytes, r.value - STRUCT_MEM)
    {
      ghost var s := Abs();
      if n == 0 || DataSize(n) > memSize {
        r := None;
        assert AllocStep(s, n) == (s, None);
      } else {
        ghost var i;
        DataSizeAligned(n);
        r, i := AllocFrom(DataSize(n));
        Found(s, n, i);
        assert (Abs(), r) == AllocStep(s, n);
      }
    }

    /** rt_smem_alloc from the search on */
    method AllocFrom(size: nat) returns (r: Option<Addr>, ghost i: nat)
      requires Valid() && HeapBlocks.IsAligned(size) && MIN_SIZE_ALIGNED <= size <= memSize
      modifies this
      ensures Valid() && i == FirstFit(old(blocks), old(used), size, 0)
      ensures i + 1 == |old(blocks)| ==> r == None && Abs() == old(Abs()) && bytes == old(bytes)
      ensures i + 1 < |old(blocks)| ==>
        && r == Some(old(blocks)[i] + STRUCT_MEM) && Abs() == AllocAt(old(Abs()), i, size)
        && Intact(old(Abs()), old(bytes), Abs(), bytes, old(blocks)[i])
    {
      var mem;
      mem, i := Search(size);
      if mem.Some? {
        FoundGivable(Abs(), size, i);
        Give(mem.value, size, i);
        r := Some(mem.value + STRUCT_MEM);
      } else {
        r := None;
      }
    }

    /** The block found by a search is given out. */
    method Give(mem: Addr, size: nat, ghost i: nat)
      requires Valid() && Givable(Abs(), size, i) && blocks[i] == mem
      modifies this
      ensures Valid() && Abs() == AllocAt(old(Abs()), i, size)
      ensures Intact(old(Abs()), old(bytes), Abs(), bytes, mem)
    {
      ghost var s, b0 := Abs(), bytes;
      ghost var hs := Elems(blocks) + Elems(AllocAt(s, i, size).blocks);
      HeadersFit(s);
      HeadersFit(AllocAt(s, i, size));
      TouchNear(mem, i, hs, b0);
      Take(mem, size, i);
      LinkedAt(links, blocks, i);
      InElems(blocks, links.next[mem]);
      Touch(links.next[mem], hs, b0);
      AllocEffect(s, i, size, b0, bytes);
    }

    /** A free header behind the first size bytes of the used block mem. */
    method Split(mem: Addr, size: nat, ghost i: nat)
      requires Linked(links, blocks) && NoDuplicates(blocks) && i + 1 < |blocks| && blocks[i] == mem
      requires blocks[|blocks| - 1] == memSize + STRUCT_MEM && mem + STRUCT_MEM + size !in Elems(blocks)
      modifies this`links, this`blocks, this`usedBytes, this`lfree
      ensures Linked(links, blocks) && NoDuplicates(blocks) && Abs() == CutAt(old(Abs()), i, size)
    {
      LinkedAt(links, blocks, i);
      var ptr2 := mem + STRUCT_MEM + size;
      usedBytes := usedBytes - (links.next[mem] - mem - STRUCT_MEM - size);
      Splice(mem, ptr2, i);
      if ptr2 < lfree { lfree := ptr2; }
    }

    /** The part of rt_smem_realloc that splits the block. */
    method Shrink(mem: Addr, size: nat, ghost i: nat)
      requires Linked(links, blocks) && NoDuplicates(blocks) && i + 1 < |blocks| && blocks[i] == mem
      requires blocks[|blocks| - 1] == memSize + STRUCT_MEM && mem + STRUCT_MEM + size !in Elems(blocks)
      modifies this`links, this`blocks, this`usedBytes, this`lfree
      ensures Linked(links, blocks) && Abs() == ShrinkAt(old(Abs()), i, size)
    {
      Split(mem, size, i);
      PlugHoles(mem + STRUCT_MEM + size, i + 1);
    }

    /** rt_smem_realloc where the block is split. */
    method ShrinkBlock(mem: Addr, size: nat, ghost i: nat)
      requires Valid() && SmallBlocks.Live(Abs(), i) && blocks[i] == mem
      requires size >= 8 && HeapBlocks.IsAligned(size) && CanShrink(Abs(), i, size)
      modifies this
      ensures Valid() && Abs() == ShrinkAt(old(Abs()), i, size)
      ensures Resized(old(Abs()), old(bytes), Abs(), bytes, mem, mem, size)
    {
      ghost var s, b0 := Abs(), bytes;
      ShrinkReady(s, i, size);
      SplitOff(mem, size, i, Elems(blocks) + {mem + STRUCT_MEM + size});
      ShrinkEffect(s, i, size, b0, bytes);
    }

    method SplitOff(mem: Addr, size: nat, ghost i: nat, ghost hs: set<Addr>)
      requires Linked(links, blocks) && NoDuplicates(blocks) && i + 1 < |blocks| && blocks[i] == mem
      requires blocks[|blocks| - 1] == memSize + STRUCT_MEM && mem + STRUCT_MEM + size !in Elems(blocks)
      requires hs == Elems(blocks) + {mem + STRUCT_MEM + size} && Fit(hs, |bytes|)
      modifies this
      ensures Linked(links, blocks) && Abs() == ShrinkAt(old(Abs()), i, size)
      ensures |bytes| == |old(bytes)| && OnlyHeaders(old(bytes), bytes, hs)
    {
      ghost var b0 := bytes;
      TouchNear(mem, i, hs, b0);
      Touch(mem + STRUCT_MEM + size, hs, b0);
      Shrink(mem, size, i);
    }

    /** rt_memcpy between two payloads */
    method CopyPayload(a: Addr, q: Addr, n: int)
      requires 0 <= a && 0 <= q && a + STRUCT_MEM + n <= |bytes| && q + STRUCT_MEM + n <= |bytes|
      requires a + STRUCT_MEM + n <= q || q + STRUCT_MEM + n <= a
      modifies this`bytes
      ensures Copied(old(bytes), bytes, a, q, n)
    {
      var k := 0;
      while k < n
        invariant 0 <= k && (k <= n || k == 0) && Copied(old(bytes), bytes, a, q, k)
      {
        assert Cell(bytes, a, k) == Cell(old(bytes), a, k);
        bytes := bytes[q + STRUCT_MEM + k := bytes[a + STRUCT_MEM + k]];
        k := k + 1;
      }
    }

    /** rt_smem_realloc where the block, which ends at e, has to move. */
    method Move(p: Addr, size: nat, held: int, ghost e: Addr) returns (r: Option<Addr>)
      requires Valid() && LiveAt(Abs(), p) && Holds(Abs(), p - STRUCT_MEM, e) && held == Room(p - STRUCT_MEM, e)
      modifies this
      ensures Valid() && MoveEffect(old(Abs()), old(bytes), Abs(), bytes, p, size, r)
    {
      ghost var s, b := Abs(), bytes;
      r := Alloc(size);
      ghost var t := Abs();
      MoveStart(s, b, t, bytes, p, e, size, r);
      if r.Some? { CopyAndFree(p, r.value, size, held, e, s, b); }
      MoveAll(s, b, t, Abs(), bytes, p, size, r);
    }

    /** The second half of a move from p to q; s and b are the heap before, e the end of the old block. */
    method CopyAndFree(p: Addr, q: Addr, size: nat, held: int, ghost e: Addr, ghost s: Small, ghost b: seq<Byte>)
      requires Valid() && LiveAt(Abs(), p) && Moving(s, b, Abs(), bytes, p, e, q, size)
      requires held == Room(p - STRUCT_MEM, e)
      modifies this
      ensures Valid() && Abs() == FreeStep(old(Abs()), p)
      ensures Resized(s, b, Abs(), bytes, p - STRUCT_MEM, q - STRUCT_MEM, size)
    {
      ghost var t, b1 := Abs(), bytes;
      var n := if held < size then held else size;
      assert n == Least(Room(p - STRUCT_MEM, e), size);
      CopyTo(p, q, n, e, s, size);
      ghost var b2 := bytes;
      assert Tiles(t) && Copied(b1, b2, p - STRUCT_MEM, q - STRUCT_MEM, n);
      Free(Some(p));
      MoveDone(s, b, t, b1, b2, Abs(), bytes, p, e, q, size);
    }

    method CopyTo(p: Addr, q: Addr, n: int, ghost e: Addr, ghost s: Small, ghost size: nat)
      requires Valid() && Gave(s, Abs(), q, size)
      requires Holds(s, p - STRUCT_MEM, e) && n == Least(Room(p - STRUCT_MEM, e), size)
      modifies this
      ensures Valid() && Abs() == old(Abs()) && Copied(old(bytes), bytes, p - STRUCT_MEM, q - STRUCT_MEM, n)
    {
      ghost var f := MoveReady(s, Abs(), p, e, q, size);
      CopyPayload(p - STRUCT_MEM, q - STRUCT_MEM, n);
    }

    /** rt_smem_realloc of a live block to an aligned size */
    method Resize(p: Addr, size: nat) returns (r: Option<Addr>)
      requires Valid() && LiveAt(Abs(), p) && HeapBlocks.IsAligned(size) && size >= 8
      modifies this
      ensures Valid() && ResizeEffect(old(Abs()), old(bytes), Abs(), bytes, p, size, r)
    {
      ghost var s, b := Abs(), bytes;
      ghost var i := Position(s, p);
      LinkedAt(links, blocks, i);
      var mem := p - STRUCT_MEM;
      var held := links.next[mem] - mem - STRUCT_MEM;
      if held == size {
        r := Some(p);
        ResizeSame(s, b, p, size);
      } else if size + STRUCT_MEM + MIN_SIZE < held {
        ShrinkBlock(mem, size, i);
        r := Some(p);
        ResizeShrinks(s, b, Abs(), bytes, p, size);
      } else {
        BlockEnd(s, i);
        r := Move(p, size, held, s.blocks[i + 1]);
        ResizeMoves(s, b, Abs(), bytes, p, size, r);
      }
    }

    method Realloc(p: Option<Addr>, n: nat) returns (r: Option<Addr>)
      requires Valid() && (p.Some? ==> LiveAt(Abs(), p.value))
      modifies this
      ensures Valid() && ReallocEffect(old(Abs()), old(bytes), Abs(), bytes, p, n, r)
    {
      ghost var s, b := Abs(), bytes;
      var size := HeapBlocks.AlignUp(n);
      DataSizeAligned(n);
      if size > memSize {
        r := None;
      } else if size == 0 {
        Free(p);
        r := None;
      } else if p.None? {
        r := Alloc(size);
      } else {
        r := Resize(p.value, size);
      }
      ReallocAll(s, b, Abs(), bytes, p, n, r);
    }
  }

  // ---------- what a realloc does to blocks and bytes ----------

  /** The moving path: nothing on failure, otherwise the block is elsewhere with its bytes. */
  ghost predicate MoveEffect(s: Small, b: seq<Byte>, t: Small, c: seq<Byte>, p: Addr, size: nat, r: Option<Addr>)
    requires Inv(s) && LiveAt(s, p)
  {
    && (t, r) == MoveStep(s, p, size)
    && (if r.None? then c == b else Resized(s, b, t, c, p - STRUCT_MEM, r.value - STRUCT_MEM, size))
  }

  ghost predicate ResizeEffect(s: Small, b: seq<Byte>, t: Small, c: seq<Byte>, p: Addr, size: nat, r: Option<Addr>)
    requires Inv(s) && LiveAt(s, p) && HeapBlocks.IsAligned(size) && size >= 8
  {
    && (t, r) == ResizeStep(s, p, size)
    && (if r.None? then c == b else Resized(s, b, t, c, p - STRUCT_MEM, r.value - STRUCT_MEM, size))
  }

  /**
   rt_smem_realloc as a whole: for a live pointer and a result, the first min(old, new) bytes
   are there; a failure changes no byte; blocks that take no part keep theirs.
   */
  ghost predicate ReallocEffect(s: Small, b: seq<Byte>, t: Small, c: seq<Byte>, p: Option<Addr>, n: nat, r: Option<Addr>)
    requires Inv(s) && (p.Some? ==> LiveAt(s, p.value))
  {
    && (t, r) == ReallocStep(s, p, n)
    && (if r.None? then
          if n == 0 && p.Some? then Intact(s, b, t, c, p.value - STRUCT_MEM) else c == b
        else if p.None? then Intact(s, b, t, c, r.value - STRUCT_MEM)
        else Resized(s, b, t, c, p.value - STRUCT_MEM, r.value - STRUCT_MEM, HeapBlocks.AlignUp(n)))
  }

  lemma MoveStart(s: Small, b: seq<Byte>, t: Small, c: seq<Byte>, p: Addr, e: Addr, size: nat, r: Option<Addr>)
    requires Inv(s) && LiveAt(s, p) && Holds(s, p - STRUCT_MEM, e) && AllocStep(s, size) == (t, r)
    requires r.Some? ==> Intact(s, b, t, c, r.value - STRUCT_MEM)
    ensures r.Some? ==> LiveAt(t, p) && Moving(s, b, t, c, p, e, r.value, size)
    ensures r.None? ==> t == s
  {
    MoveCases(s, p, size, t, r);
  }

  lemma MoveAll(s: Small, b: seq<Byte>, t: Small, u: Small, c: seq<Byte>, p: Addr, size: nat, r: Option<Addr>)
    requires Inv(s) && LiveAt(s, p) && AllocStep(s, size) == (t, r)
    requires r.None? ==> u == t && c == b
    requires r.Some? ==> LiveAt(t, p) && u == FreeStep(t, p) && Resized(s, b, u, c, p - STRUCT_MEM, r.value - STRUCT_MEM, size)
    ensures MoveEffect(s, b, u, c, p, size, r)
  {
    MoveCases(s, p, size, t, r);
  }

  lemma ResizeSame(s: Small, b: seq<Byte>, p: Addr, size: nat)
    requires Inv(s) && LiveAt(s, p) && HeapBlocks.IsAligned(size) && size >= 8
    requires var i := Position(s, p); s.blocks[i + 1] - s.blocks[i] - STRUCT_MEM == size
    ensures ResizeEffect(s, b, s, b, p, size, Some(p))
  {
    Untouched(s, Position(s, p), size, b);
  }

  lemma ResizeShrinks(s: Small, b: seq<Byte>, t: Small, c: seq<Byte>, p: Addr, size: nat)
    requires Inv(s) && LiveAt(s, p) && HeapBlocks.IsAligned(size) && size >= 8 && CanShrink(s, Position(s, p), size)
    requires t == ShrinkAt(s, Position(s, p), size) && Resized(s, b, t, c, p - STRUCT_MEM, p - STRUCT_MEM, size)
    ensures ResizeEffect(s, b, t, c, p, size, Some(p))
  {
  }

  lemma ResizeMoves(s: Small, b: seq<Byte>, t: Small, c: seq<Byte>, p: Addr, size: nat, r: Option<Addr>)
    requires Inv(s) && LiveAt(s, p) && HeapBlocks.IsAligned(size) && size >= 8 && !CanShrink(s, Position(s, p), size)
    requires var i := Position(s, p); s.blocks[i + 1] - s.blocks[i] - STRUCT_MEM != size
    requires MoveEffect(s, b, t, c, p, size, r)
    ensures ResizeEffect(s, b, t, c, p, size, r)
  {
  }

  lemma ReallocAll(s: Small, b: seq<Byte>, t: Small, c: seq<Byte>, p: Option<Addr>, n: nat, r: Option<Addr>)
    requires Inv(s) && (p.Some? ==> LiveAt(s, p.value))
    requires HeapBlocks.AlignUp(n) > s.memSize ==> t == s && c == b && r == None
    requires HeapBlocks.AlignUp(n) == 0 ==> r == None && n == 0
    requires HeapBlocks.AlignUp(n) == 0 && p.None? ==> t == s && c == b
    requires HeapBlocks.AlignUp(n) == 0 && p.Some? ==> t == FreeStep(s, p.value) && Intact(s, b, t, c, p.value - STRUCT_MEM)
    requires 0 < HeapBlocks.AlignUp(n) <= s.memSize && p.None? ==> (t, r) == AllocStep(s, HeapBlocks.AlignUp(n))
    requires 0 < HeapBlocks.AlignUp(n) <= s.memSize && p.None? ==>
      if r.None? then c == b else Intact(s, b, t, c, r.value - STRUCT_MEM)
    requires HeapBlocks.IsAligned(HeapBlocks.AlignUp(n)) && (n > 0 ==> HeapBlocks.AlignUp(n) >= 8)
    requires 0 < HeapBlocks.AlignUp(n) <= s.memSize && p.Some? ==>
      n > 0 && ResizeEffect(s, b, t, c, p.value, HeapBlocks.AlignUp(n), r)
    ensures ReallocEffect(s, b, t, c, p, n, r)
  {
  }

  /** t is s with a fresh block of at least n bytes at q. */
  ghost predicate Gave(s: Small, t: Small, q: Addr, n: nat) {
    q - STRUCT_MEM !in s.used && HasRoom(t, q - STRUCT_MEM, n) && OthersSame(s, t, q - STRUCT_MEM)
  }

  /** s with bytes b has just got the block q, to which the block from p to e is to move. */
  ghost predicate Moving(s: Small, b: seq<Byte>, t: Small, c: seq<Byte>, p: Addr, e: Addr, q: Addr, size: nat) {
    Tiles(s) && Gave(s, t, q, size) && Holds(s, p - STRUCT_MEM, e) && Intact(s, b, t, c, q - STRUCT_MEM)
  }

  lemma MoveDone(s: Small, b: seq<Byte>, t: Small, b1: seq<Byte>, b2: seq<Byte>, r: Small, b3: seq<Byte>,
                 p: Addr, e: Addr, q: Addr, size: nat)
    requires Moving(s, b, t, b1, p, e, q, size) && Tiles(t) && p - STRUCT_MEM !in r.used
    requires Copied(b1, b2, p - STRUCT_MEM, q - STRUCT_MEM, Least(Room(p - STRUCT_MEM, e), size))
    requires Intact(t, b2, r, b3, p - STRUCT_MEM)
    ensures Resized(s, b, r, b3, p - STRUCT_MEM, q - STRUCT_MEM, size)
  {
    var f := MoveReady(s, t, p, e, q, size);
    MoveResult(s, b, t, b1, b2, r, b3, p - STRUCT_MEM, e, q - STRUCT_MEM, f, size);
  }

  lemma BlockEnd(s: Small, i: nat)
    requires SmallBlocks.Live(s, i)
    ensures Holds(s, s.blocks[i], s.blocks[i + 1])
  {
    ExtentBy(s.blocks, i);
  }

  /** What the allocation inside a move means for the whole. */
  lemma MoveCases(s: Small, p: Addr, size: nat, t: Small, r: Option<Addr>)
    requires Inv(s) && LiveAt(s, p) && AllocStep(s, size) == (t, r)
    ensures r.None? ==> MoveStep(s, p, size) == (t, None)
    ensures r.Some? ==>
      && LiveAt(t, p) && MoveStep(s, p, size) == (FreeStep(t, p), r) && Gave(s, t, r.value, size)
  {
    AllocKeeps(s, size);
    if r.Some? { AllocFresh(s, size); }
  }

  /** A header and the ones around it. */
  lemma Neighbours(l: Links, b: seq<Addr>, i: nat)
    requires Linked(l, b) && i + 1 < |b|
    ensures b[i] in l.next && b[i] in l.prev && l.next[b[i]] in l.next
    ensures b[i] in Elems(b) && l.prev[b[i]] in Elems(b) && l.next[b[i]] in Elems(b) && l.next[l.next[b[i]]] in Elems(b)
  {
    LinkedAt(l, b, i);
    InElems(b, b[i]);
    InElems(b, b[i + 1]);
    if i > 0 { InElems(b, b[i - 1]); }
    if i + 2 < |b| {
      LinkedAt(l, b, i + 1);
      InElems(b, b[i + 2]);
    }
  }

  lemma FreeEffect(s: Small, i: nat, b: seq<Byte>, c: seq<Byte>)
    requires SmallBlocks.Live(s, i) && OnlyHeaders(b, c, Elems(s.blocks)) && Inv(FreeAt(s, i))
    ensures Intact(s, b, FreeAt(s, i), c, s.blocks[i]) && FreeAt(s, i).used == s.used - {s.blocks[i]}
  {
    var r := FreeAt(s, i);
    FreeOthers(s, i);
    MoreHeaders(b, c, Elems(s.blocks), Elems(s.blocks) + Elems(r.blocks));
    IntactStep(s, r, b, c, s.blocks[i]);
  }

  lemma MoreHeaders(b: seq<Byte>, c: seq<Byte>, hs: set<Addr>, more: set<Addr>)
    requires OnlyHeaders(b, c, hs) && hs <= more
    ensures OnlyHeaders(b, c, more)
  {
    forall p | 0 <= p < |b| && Outside(more, p) ensures c[p] == b[p] { assert Outside(hs, p); }
  }

  lemma AllocEffect(s: Small, i: nat, size: nat, b: seq<Byte>, c: seq<Byte>)
    requires Inv(s) && Givable(s, size, i)
    requires OnlyHeaders(b, c, Elems(s.blocks) + Elems(AllocAt(s, i, size).blocks))
    ensures Intact(s, b, AllocAt(s, i, size), c, s.blocks[i])
  {
    AllocOthers(s, i, size);
    IntactStep(s, AllocAt(s, i, size), b, c, s.blocks[i]);
  }

  /** What the split of a used block relies on. */
  lemma ShrinkReady(s: Small, i: nat, size: nat)
    requires SmallBlocks.Live(s, i) && size >= 8 && HeapBlocks.IsAligned(size) && CanShrink(s, i, size)
    ensures NoDuplicates(s.blocks) && s.blocks[|s.blocks| - 1] == s.memSize + STRUCT_MEM && Inv(ShrinkAt(s, i, size))
    ensures var c := s.blocks[i] + STRUCT_MEM + size;
      c !in Elems(s.blocks) && Fit(Elems(s.blocks) + {c}, HeapBytes(s.memSize))
  {
    var c := s.blocks[i] + STRUCT_MEM + size;
    TilesDistinct(s);
    NewHeader(s, i, c);
    ShrinkInv(s, i, size);
    HeaderWithin(s, i, c);
  }

  /** A header inside a block lies within the heap. */
  lemma HeaderWithin(s: Small, i: nat, c: Addr)
    requires Tiles(s) && i + 1 < |s.blocks| && s.blocks[i] <= c <= s.blocks[i + 1]
    ensures Fit(Elems(s.blocks) + {c}, HeapBytes(s.memSize))
  {
    HeadersFit(s);
    InElems(s.blocks, s.blocks[i]);
    InElems(s.blocks, s.blocks[i + 1]);
  }

  lemma ShrinkEffect(s: Small, i: nat, size: nat, b: seq<Byte>, c: seq<Byte>)
    requires SmallBlocks.Live(s, i) && size >= 8 && CanShrink(s, i, size) && Inv(ShrinkAt(s, i, size))
    requires OnlyHeaders(b, c, Elems(s.blocks) + {s.blocks[i] + STRUCT_MEM + size})
    ensures Resized(s, b, ShrinkAt(s, i, size), c, s.blocks[i], s.blocks[i], size)
  {
    ShrinkOthers(s, i, size);
    ShrunkInPlace(s, ShrinkAt(s, i, size), s.blocks[i], size, b, c);
  }

  lemma ShrunkInPlace(s: Small, r: Small, a: Addr, size: nat, b: seq<Byte>, c: seq<Byte>)
    requires Tiles(s) && Tiles(r) && OthersSame(s, r, a) && Holds(r, a, a + STRUCT_MEM + size)
    requires OnlyHeaders(b, c, Elems(s.blocks) + {a + STRUCT_MEM + size})
    ensures Resized(s, b, r, c, a, a, size)
  {
    var e := a + STRUCT_MEM + size;
    ExtentEnds(r.blocks, a, e);
    MoreHeaders(b, c, Elems(s.blocks) + {e}, Elems(s.blocks) + Elems(r.blocks));
    ResizedInPlace(s, b, r, c, a, size);
  }

  /** The end of an extent is a header. */
  lemma ExtentEnds(b: seq<Addr>, a: Addr, e: Addr)
    requires Extent(b, a, e)
    ensures e in Elems(b)
  {
    var k := ExtentAt(b, a, e);
    InElems(b, b[k + 1]);
  }

  lemma Untouched(s: Small, i: nat, size: nat, b: seq<Byte>)
    requires SmallBlocks.Live(s, i) && s.blocks[i + 1] - s.blocks[i] - STRUCT_MEM == size
    ensures Resized(s, b, s, b, s.blocks[i], s.blocks[i], size)
  {
    ExtentBy(s.blocks, i);
    assert Holds(s, s.blocks[i], s.blocks[i] + STRUCT_MEM + size);
    ResizedInPlace(s, b, s, b, s.blocks[i], size);
  }

  /** What the copy of a move relies on; f is where the new block ends. */
  lemma MoveReady(s: Small, t: Small, p: Addr, e: Addr, q: Addr, size: nat) returns (f: Addr)
    requires Tiles(t) && Gave(s, t, q, size) && Holds(s, p - STRUCT_MEM, e)
    ensures p != q && Holds(t, q - STRUCT_MEM, f) && Room(q - STRUCT_MEM, f) >= size
    ensures var n := Least(Room(p - STRUCT_MEM, e), size);
      && 0 <= p - STRUCT_MEM && 0 <= q - STRUCT_MEM
      && p + n <= HeapBytes(t.memSize) && q + n <= HeapBytes(t.memSize)
      && (p + n <= q - STRUCT_MEM || q + n <= p - STRUCT_MEM)
  {
    assert Holds(t, p - STRUCT_MEM, e);
    f :| Holds(t, q - STRUCT_MEM, f) && f - (q - STRUCT_MEM) - STRUCT_MEM >= size;
    ExtentOrder(t, p - STRUCT_MEM, e, q - STRUCT_MEM, f);
  }

  /** Two blocks lie one behind the other, within the heap. */
  lemma ExtentOrder(s: Small, a: Addr, e: Addr, x: Addr, f: Addr)
    requires Tiles(s) && Extent(s.blocks, a, e) && Extent(s.blocks, x, f) && a != x
    ensures e <= x || f <= a
    ensures 0 <= a && 0 <= x && e <= HeapBytes(s.memSize) && f <= HeapBytes(s.memSize)
  {
    var d, b := STRUCT_MEM + MinData(s.memSize), s.blocks;
    var k := ExtentAt(b, a, e);
    var j := ExtentAt(b, x, f);
    if k + 1 < j { HeapBlocks.SpacedPair(b, d, k + 1, j); }
    if j + 1 < k { HeapBlocks.SpacedPair(b, d, j + 1, k); }
    HeadersFit(s);
    InElems(b, a);
    InElems(b, x);
    InElems(b, b[k + 1]);
    InElems(b, b[j + 1]);
  }

  /** size bytes may be given out of the block at position i. */
  ghost predicate Givable(s: Small, size: nat, i: nat) {
    && i + 1 < |s.blocks| && Inv(AllocAt(s, i, size)) && NoDuplicates(s.blocks)
    && FitsAt(s.blocks, s.used, size, i) && size >= MIN_SIZE_ALIGNED
    && (Splits(s, i, size) ==> s.blocks[i] + STRUCT_MEM + size !in Elems(s.blocks))
  }

  /** What a search that ended at position i means for the request. */
  lemma Found(s: Small, n: nat, i: nat)
    requires Inv(s) && n > 0 && DataSize(n) <= s.memSize && i == FirstFit(s.blocks, s.used, DataSize(n), 0)
    ensures i + 1 == |s.blocks| ==> AllocStep(s, n) == (s, None)
    ensures i + 1 < |s.blocks| ==>
      && AllocStep(s, n) == (AllocAt(s, i, DataSize(n)), Some(s.blocks[i] + STRUCT_MEM))
      && Givable(s, DataSize(n), i)
  {
    if i + 1 < |s.blocks| {
      DataSizeAligned(n);
      FoundGivable(s, DataSize(n), i);
    }
  }

  lemma FoundGivable(s: Small, size: nat, i: nat)
    requires Inv(s) && FitsAt(s.blocks, s.used, size, i) && HeapBlocks.IsAligned(size) && size >= MIN_SIZE_ALIGNED
    ensures Givable(s, size, i)
  {
    TilesDistinct(s);
    AllocInv(s, i, size);
    if Splits(s, i, size) { NewHeader(s, i, s.blocks[i] + STRUCT_MEM + size); }
  }

  /** rt_smem_init: null exactly when the region has no room for both end headers. */
  method SmemInit(begin: nat, size: nat, control: nat) returns (m: SmallMemory?)
    ensures m == null <==> MemSize(begin, size, control).None?
    ensures m != null ==> fresh(m) && m.Valid() && m.Abs() == SmallBlocks.Init(m.memSize)
    ensures m != null ==> MemSize(begin, size, control) == Some(m.memSize)
  {
    if MemSize(begin, size, control).None? { return null; }
    m := new SmallMemory(begin, size, control);
  }

  /** Stopping the search behind memSize - size misses nothing. */
  lemma NoneFrom(s: Small, size: nat, i: nat)
    requires Tiles(s) && i < |s.blocks| && s.blocks[i] > s.memSize - size
    requires forall k :: 0 <= k < i ==> !FitsAt(s.blocks, s.used, size, k)
    ensures forall k: nat :: !FitsAt(s.blocks, s.used, size, k)
  {
    forall k: nat ensures !FitsAt(s.blocks, s.used, size, k) {
      if FitsAt(s.blocks, s.used, size, k) {
        FitsBound(s, size, k);
        if i < k { HeapBlocks.SpacedPair(s.blocks, STRUCT_MEM + MinData(s.memSize), i, k); }
      }
    }
  }
}
