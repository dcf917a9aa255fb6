/**
 What the small-memory allocator (mem.c) does to its blocks, free of links: the ascending
 offsets of the block headers (the last one is heap_end), the used blocks, the lowest free
 block and the bytes in use.
 */
module SmallBlocks {
  import opened Wrappers
  import opened RtList
  import opened HeapBlocks

  const STRUCT_MEM: nat := 16       // SIZEOF_STRUCT_MEM on the 32-bit target
  const MIN_SIZE: nat := 12
  const MIN_SIZE_ALIGNED: nat := 16

  datatype Small = Small(
    memSize: nat,
    blocks: seq<Addr>,
    used: set<Addr>,
    lfree: Addr,
    usedBytes: int,
    maxBytes: int)

  /** The first free block, or heap_end. */
  ghost function LowestFree(b: seq<Addr>, used: set<Addr>): Addr
    requires b != []
  {
    if |b| == 1 || b[0] !in used then b[0] else LowestFree(b[1..], used)
  }

  /** Sum of next - offset over the used blocks. */
  ghost function UsedBytes(b: seq<Addr>, used: set<Addr>): int {
    if |b| < 2 then 0
    else (if b[0] in used then b[1] - b[0] else 0) + UsedBytes(b[1..], used)
  }

  /** Blocks hold at least 8 bytes, unless the whole heap is smaller. */
  function MinData(memSize: nat): nat { if memSize < 8 then 0 else 8 }

  ghost predicate Tiles(s: Small) {
    && |s.blocks| >= 2 && s.blocks[0] == 0 && s.blocks[|s.blocks| - 1] == s.memSize + STRUCT_MEM
    && Spaced(s.blocks, STRUCT_MEM + MinData(s.memSize))
    && Aligned(s.blocks, 0)
  }

  /** Everything but the merging of free neighbours. */
  ghost predicate Base(s: Small) {
    && Tiles(s)
    && s.used <= Elems(s.blocks) && s.blocks[|s.blocks| - 1] in s.used
    && s.lfree == LowestFree(s.blocks, s.used)
    && s.usedBytes == UsedBytes(s.blocks, s.used)
    && s.usedBytes <= s.maxBytes
  }

  ghost predicate Inv(s: Small) {
    Base(s) && Separated(s.blocks, s.used)
  }

  lemma TilesDistinct(s: Small)
    requires Tiles(s)
    ensures NoDuplicates(s.blocks)
  {
    SpacedDistinct(s.blocks, STRUCT_MEM + MinData(s.memSize));
  }

  // ---------- the lowest free block ----------

  /** a is the lowest free block (or heap_end): everything before it is used. */
  ghost predicate IsLowest(b: seq<Addr>, used: set<Addr>, i: nat) {
    && i < |b| && (i == |b| - 1 || b[i] !in used)
    && forall k :: 0 <= k < i ==> b[k] in used
  }

  lemma {:induction false} LowestIs(b: seq<Addr>, used: set<Addr>, i: nat)
    requires IsLowest(b, used, i)
    ensures LowestFree(b, used) == b[i]
  {
    if i > 0 {
      assert b[0] in used;
      assert IsLowest(b[1..], used, i - 1) by {
        forall k | 0 <= k < i - 1 ensures b[1..][k] in used { assert b[k + 1] in used; }
      }
      LowestIs(b[1..], used, i - 1);
    }
  }

  lemma {:induction false} LowestExists(b: seq<Addr>, used: set<Addr>) returns (i: nat)
    requires b != []
    ensures IsLowest(b, used, i) && b[i] == LowestFree(b, used)
  {
    if |b| == 1 || b[0] !in used {
      i := 0;
    } else {
      var j := LowestExists(b[1..], used);
      i := j + 1;
      forall k | 0 <= k < i ensures b[k] in used { if k > 0 { assert b[1..][k - 1] in used; } }
    }
  }

  // ---------- sums ----------

  lemma {:induction false} UsedBytesSplit(b: seq<Addr>, used: set<Addr>, i: nat)
    requires i < |b|
    ensures UsedBytes(b, used) == UsedBytes(b[..i + 1], used) + UsedBytes(b[i..], used)
  {
    if i > 0 {
      UsedBytesSplit(b[1..], used, i - 1);
      assert b[1..][..i] == b[..i + 1][1..];
      assert b[1..][i - 1..] == b[i..];
    } else {
      assert b[0..] == b;
    }
  }

  lemma {:induction false} UsedBytesAgree(b: seq<Addr>, u: set<Addr>, v: set<Addr>)
    requires forall k :: 0 <= k < |b| - 1 ==> (b[k] in u <==> b[k] in v)
    ensures UsedBytes(b, u) == UsedBytes(b, v)
  {
    if |b| >= 2 { UsedBytesAgree(b[1..], u, v); }
  }

  lemma UsedBytesOne(b: seq<Addr>, used: set<Addr>)
    requires |b| >= 2
    ensures UsedBytes(b, used) == (if b[0] in used then b[1] - b[0] else 0) + UsedBytes(b[1..], used)
  {
  }

  lemma UsedBytesMark(b: seq<Addr>, used: set<Addr>, i: nat)
    requires i + 1 < |b| && NoDuplicates(b) && b[i] !in used
    ensures UsedBytes(b, used + {b[i]}) == UsedBytes(b, used) + (b[i + 1] - b[i])
  {
    var u := used + {b[i]};
    UsedBytesSplit(b, used, i);
    UsedBytesSplit(b, u, i);
    UsedBytesAgree(b[..i + 1], used, u);
    UsedBytesOne(b[i..], used);
    UsedBytesOne(b[i..], u);
    assert b[i..][1..] == b[i + 1..];
    UsedBytesAgree(b[i + 1..], used, u);
  }

  /** Cutting a block by a new free header. */
  lemma UsedBytesCut(b: seq<Addr>, used: set<Addr>, i: nat, c: Addr)
    requires i + 1 < |b| && c !in used
    ensures UsedBytes(Inserted(b, i + 1, c), used)
         == UsedBytes(b, used) - (if b[i] in used then b[i + 1] - c else 0)
  {
    var r := Inserted(b, i + 1, c);
    UsedBytesSplit(b, used, i);
    UsedBytesSplit(r, used, i);
    assert r[..i + 1] == b[..i + 1];
    UsedBytesOne(b[i..], used);
    UsedBytesOne(r[i..], used);
    assert r[i..][1..] == [c] + b[i + 1..];
    UsedBytesOne([c] + b[i + 1..], used);
    assert ([c] + b[i + 1..])[1..] == b[i + 1..];
    assert b[i..][1..] == b[i + 1..];
  }

  lemma UsedBytesJoin(b: seq<Addr>, used: set<Addr>, i: nat)
    requires 1 <= i && i + 1 < |b| && b[i - 1] !in used && b[i] !in used
    ensures UsedBytes(Removed(b, i), used) == UsedBytes(b, used)
  {
    InsertRemoved(b, i);
    UsedBytesCut(Removed(b, i), used, i - 1, b[i]);
  }

  // ---------- the first-fit search ----------

  ghost predicate FitsAt(b: seq<Addr>, used: set<Addr>, size: nat, i: nat) {
    i + 1 < |b| && b[i] !in used && b[i + 1] - (b[i] + STRUCT_MEM) >= size
  }

  /** Position of the first free block from i on that holds size bytes, or of heap_end. */
  ghost function FirstFit(b: seq<Addr>, used: set<Addr>, size: nat, i: nat): (r: nat)
    requires i < |b|
    ensures i <= r < |b|
    ensures r + 1 < |b| ==> FitsAt(b, used, size, r)
    decreases |b| - i
  {
    if i + 1 == |b| || FitsAt(b, used, size, i) then i else FirstFit(b, used, size, i + 1)
  }

  lemma {:induction false} FirstFitNone(b: seq<Addr>, used: set<Addr>, size: nat, i: nat, k: nat)
    requires i < |b|
    requires i <= k < FirstFit(b, used, size, i)
    ensures !FitsAt(b, used, size, k)
    decreases |b| - i
  {
    if i < k { FirstFitNone(b, used, size, i + 1, k); }
  }

  lemma {:induction false} FirstFitSkip(b: seq<Addr>, used: set<Addr>, size: nat, i: nat, j: nat)
    requires i <= j < |b| && forall k :: i <= k < j ==> !FitsAt(b, used, size, k)
    ensures FirstFit(b, used, size, i) == FirstFit(b, used, size, j)
    decreases j - i
  {
    if i < j { FirstFitSkip(b, used, size, i + 1, j); }
  }

  /** Some free block holds size bytes. */
  ghost predicate SomeFits(s: Small, size: nat) {
    exists i: nat :: FitsAt(s.blocks, s.used, size, i)
  }

  lemma SomeFitsIff(s: Small, size: nat)
    requires Inv(s)
    ensures SomeFits(s, size) <==> FirstFit(s.blocks, s.used, size, 0) + 1 < |s.blocks|
  {
    var f := FirstFit(s.blocks, s.used, size, 0);
    if SomeFits(s, size) {
      var i: nat :| FitsAt(s.blocks, s.used, size, i);
      if f + 1 == |s.blocks| { FirstFitNone(s.blocks, s.used, size, 0, i); }
    }
  }

  /** A block that fits starts no later than memSize - size. */
  lemma FitsBound(s: Small, size: nat, i: nat)
    requires Tiles(s) && FitsAt(s.blocks, s.used, size, i)
    ensures s.blocks[i] <= s.memSize - size
  {
    if i + 1 < |s.blocks| - 1 { SpacedPair(s.blocks, STRUCT_MEM + MinData(s.memSize), i + 1, |s.blocks| - 1); }
  }

  // ---------- rt_smem_init ----------

  function Init(memSize: nat): Small {
    Small(memSize, [0, memSize + STRUCT_MEM], {memSize + STRUCT_MEM}, 0, 0, 0)
  }

  lemma InitInv(memSize: nat)
    requires IsAligned(memSize)
    ensures Inv(Init(memSize))
  {
    var s := Init(memSize);
    var k :| Words(k) == memSize;
    assert Words(0) == 0 && Words(k + 2) == memSize + STRUCT_MEM;
    AlignedAll(s.blocks, 0);
    InElems(s.blocks, memSize + STRUCT_MEM);
    assert s.blocks[1] == memSize + STRUCT_MEM;
    assert UsedBytes(s.blocks[1..], s.used) == 0;
  }

  // ---------- plug_holes ----------

  /** Merge the free block at position i with a free block after it. */
  ghost function PlugForward(s: Small, i: nat): Small
    requires i + 1 < |s.blocks|
  {
    var next := s.blocks[i + 1];
    if next !in s.used && i + 2 < |s.blocks| then
      s.(blocks := Removed(s.blocks, i + 1), lfree := if s.lfree == next then s.blocks[i] else s.lfree)
    else s
  }

  /** Merge the free block at position i with a free block before it. */
  ghost function PlugBackward(s: Small, i: nat): Small
    requires i < |s.blocks|
  {
    if i > 0 && s.blocks[i - 1] !in s.used then
      s.(blocks := Removed(s.blocks, i), lfree := if s.lfree == s.blocks[i] then s.blocks[i - 1] else s.lfree)
    else s
  }

  ghost function Plug(s: Small, i: nat): Small
    requires i + 1 < |s.blocks|
  {
    PlugBackward(PlugForward(s, i), i)
  }

  /** Taking out the free block after another free block keeps all but the merging. */
  lemma JoinBase(s: Small, j: nat)
    requires Base(s) && 1 <= j && j + 1 < |s.blocks|
    requires s.blocks[j - 1] !in s.used && s.blocks[j] !in s.used
    ensures s.lfree != s.blocks[j] && Base(s.(blocks := Removed(s.blocks, j)))
  {
    var b := s.blocks;
    TilesDistinct(s);
    var m := LowestExists(b, s.used);
    assert m <= j - 1;
    LowestIs(Removed(b, j), s.used, m);
    SpacedRemove(b, j, STRUCT_MEM + MinData(s.memSize));
    AlignedRemove(b, 0, j);
    RemovedElems(b, j);
    UsedBytesJoin(b, s.used, j);
    assert Removed(b, j)[|b| - 2] == b[|b| - 1];
  }

  lemma PlugForwardBase(s: Small, i: nat)
    requires Base(s) && i + 1 < |s.blocks| && s.blocks[i] !in s.used
    requires NoFreePairBut(s.blocks, s.used, i)
    ensures var r := PlugForward(s, i);
      && Base(r) && i + 1 < |r.blocks| && NoFreePairBut(r.blocks, r.used, i) && r.used == s.used
      && r.blocks[i] == s.blocks[i] && r.blocks[i + 1] in r.used
  {
    if s.blocks[i + 1] !in s.used {
      JoinBase(s, i + 1);
      PairRemoveNext(s.blocks, s.used, i);
    }
  }

  lemma PlugBackwardInv(s: Small, i: nat)
    requires Base(s) && i + 1 < |s.blocks| && s.blocks[i] !in s.used && s.blocks[i + 1] in s.used
    requires NoFreePairBut(s.blocks, s.used, i)
    ensures Inv(PlugBackward(s, i))
  {
    var r := PlugBackward(s, i);
    if i > 0 && s.blocks[i - 1] !in s.used {
      JoinBase(s, i);
      PairRemoveSelf(s.blocks, s.used, i);
      PairClose(r.blocks, r.used, i - 1);
    } else {
      PairClose(s.blocks, s.used, i);
    }
    SeparatedPairs(r.blocks, r.used);
  }

  /** plug_holes restores the merging around one newly freed block. */
  lemma PlugInv(s: Small, i: nat)
    requires Base(s) && i + 1 < |s.blocks| && s.blocks[i] !in s.used
    requires NoFreePairBut(s.blocks, s.used, i)
    ensures Inv(Plug(s, i))
  {
    PlugForwardBase(s, i);
    PlugBackwardInv(PlugForward(s, i), i);
  }

  // ---------- rt_smem_free ----------

  ghost predicate Live(s: Small, i: nat) {
    Inv(s) && i + 1 < |s.blocks| && s.blocks[i] in s.used
  }

  /** The block at position i marked free, not merged yet. */
  ghost function Unmark(s: Small, i: nat): Small
    requires i + 1 < |s.blocks|
  {
    var a := s.blocks[i];
    s.(used := s.used - {a},
       lfree := if a < s.lfree then a else s.lfree,
       usedBytes := s.usedBytes - (s.blocks[i + 1] - a))
  }

  ghost function FreeAt(s: Small, i: nat): Small
    requires i + 1 < |s.blocks|
  {
    Plug(Unmark(s, i), i)
  }

  /** Freeing the block at position i makes the lower of it and the old lowest free block the lowest. */
  lemma LowestUnmark(b: seq<Addr>, used: set<Addr>, i: nat, d: nat)
    requires Spaced(b, d) && d > 0 && i + 1 < |b| && b[i] in used
    ensures var l := LowestFree(b, used);
      LowestFree(b, used - {b[i]}) == if b[i] < l then b[i] else l
  {
    SpacedDistinct(b, d);
    var m := LowestExists(b, used);
    if i < m { SpacedPair(b, d, i, m); } else if m < i { SpacedPair(b, d, m, i); }
    LowestIs(b, used - {b[i]}, if i < m then i else m);
  }

  lemma UnmarkBase(s: Small, i: nat)
    requires Live(s, i)
    ensures Base(Unmark(s, i)) && NoFreePairBut(s.blocks, s.used - {s.blocks[i]}, i)
  {
    var b, a := s.blocks, s.blocks[i];
    TilesDistinct(s);
    LowestUnmark(b, s.used, i, STRUCT_MEM + MinData(s.memSize));
    SeparatedPairs(b, s.used);
    PairMark(b, s.used, i);
    assert s.used - {a} + {a} == s.used;
    UsedBytesMark(b, s.used - {a}, i);
    SpacedPair(b, STRUCT_MEM + MinData(s.memSize), i, i + 1);
  }

  lemma FreeInv(s: Small, i: nat)
    requires Live(s, i)
    ensures Inv(FreeAt(s, i))
  {
    UnmarkBase(s, i);
    PlugInv(Unmark(s, i), i);
  }

  // ---------- rt_smem_alloc ----------

  /** The number of data bytes a request of n bytes is served with. */
  function DataSize(n: nat): nat {
    if AlignUp(n) < MIN_SIZE_ALIGNED then MIN_SIZE_ALIGNED else AlignUp(n)
  }

  ghost predicate Splits(s: Small, i: nat, size: nat)
    requires i + 1 < |s.blocks|
  {
    s.blocks[i + 1] - (s.blocks[i] + STRUCT_MEM) >= size + STRUCT_MEM + MIN_SIZE_ALIGNED
  }

  /** The headers once size bytes of the free block at position i are given out. */
  ghost function AllocBlocks(s: Small, i: nat, size: nat): (r: seq<Addr>)
    requires i + 1 < |s.blocks|
    ensures i + 1 < |r| && r[i] == s.blocks[i] && r[|r| - 1] == s.blocks[|s.blocks| - 1]
  {
    if Splits(s, i, size) then Inserted(s.blocks, i + 1, s.blocks[i] + STRUCT_MEM + size) else s.blocks
  }

  lemma AllocBlocksCases(s: Small, i: nat, size: nat)
    requires i + 1 < |s.blocks|
    ensures Splits(s, i, size) ==> AllocBlocks(s, i, size) == Inserted(s.blocks, i + 1, s.blocks[i] + STRUCT_MEM + size)
    ensures !Splits(s, i, size) ==> AllocBlocks(s, i, size) == s.blocks
  {
  }

  ghost function AllocAt(s: Small, i: nat, size: nat): Small
    requires i + 1 < |s.blocks|
  {
    var a := s.blocks[i];
    var b := AllocBlocks(s, i, size);
    var used := s.used + {a};
    var bytes := s.usedBytes + (b[i + 1] - a);
    s.(blocks := b, used := used,
       lfree := if a == s.lfree then LowestFree(b[i..], used) else s.lfree,
       usedBytes := bytes, maxBytes := Max(s.maxBytes, bytes))
  }

  /** A new header inside block i is none of the old ones. */
  lemma NewHeader(s: Small, i: nat, c: Addr)
    requires Tiles(s) && i + 1 < |s.blocks| && s.blocks[i] < c < s.blocks[i + 1]
    ensures c !in Elems(s.blocks)
  {
    var d := STRUCT_MEM + MinData(s.memSize);
    InElems(s.blocks, c);
    forall j | 0 <= j < |s.blocks| ensures s.blocks[j] != c {
      if j < i { SpacedPair(s.blocks, d, j, i); }
      if i + 1 < j { SpacedPair(s.blocks, d, i + 1, j); }
    }
  }

  lemma CutTiles(s: Small, i: nat, size: nat)
    requires Tiles(s) && i + 1 < |s.blocks| && IsAligned(size) && size >= 8
    requires size + STRUCT_MEM + 8 <= s.blocks[i + 1] - (s.blocks[i] + STRUCT_MEM)
    ensures Tiles(s.(blocks := Inserted(s.blocks, i + 1, s.blocks[i] + STRUCT_MEM + size)))
  {
    var c := s.blocks[i] + STRUCT_MEM + size;
    SpacedInsert(s.blocks, i, c, STRUCT_MEM + MinData(s.memSize));
    AlignedAt(s.blocks, 0, i);
    assert IsAligned(STRUCT_MEM) by { assert Words(2) == STRUCT_MEM; }
    AlignedSum(s.blocks[i] - 0, STRUCT_MEM);
    AlignedSum(s.blocks[i] - 0 + STRUCT_MEM, size);
    AlignedInsertAt(s.blocks, 0, i + 1, c);
  }

  /** Advancing from a block that was the lowest free one finds the new lowest. */
  lemma LowestTail(b: seq<Addr>, used: set<Addr>, i: nat)
    requires i < |b| && forall k :: 0 <= k < i ==> b[k] in used
    ensures LowestFree(b[i..], used) == LowestFree(b, used)
  {
    var m := LowestExists(b[i..], used);
    assert b[i..][m] == b[i + m];
    forall k | 0 <= k < i + m ensures b[k] in used { if k >= i { assert b[i..][k - i] in used; } }
    LowestIs(b, used, i + m);
  }

  /** lfree after an allocation, whether or not the block was the lowest free one. */
  lemma AllocLowest(s: Small, i: nat, size: nat)
    requires Inv(s) && FitsAt(s.blocks, s.used, size, i)
    ensures var r := AllocAt(s, i, size); r.lfree == LowestFree(r.blocks, r.used)
  {
    var r := AllocAt(s, i, size);
    TilesDistinct(s);
    var m := LowestExists(s.blocks, s.used);
    if m == i {
      forall k | 0 <= k < i ensures r.blocks[k] in r.used { assert r.blocks[k] == s.blocks[k]; }
      LowestTail(r.blocks, r.used, i);
    } else {
      assert m < i;
      forall k | 0 <= k <= m ensures r.blocks[k] == s.blocks[k] {}
      LowestIs(r.blocks, r.used, m);
    }
  }

  lemma AllocBytes(s: Small, i: nat, size: nat)
    requires NoDuplicates(s.blocks) && FitsAt(s.blocks, s.used, size, i) && size > 0
    requires s.usedBytes == UsedBytes(s.blocks, s.used)
    requires Splits(s, i, size) ==> s.blocks[i] + STRUCT_MEM + size !in s.used
    ensures var r := AllocAt(s, i, size); r.usedBytes == UsedBytes(r.blocks, r.used)
  {
    UsedBytesMark(s.blocks, s.used, i);
    if Splits(s, i, size) { UsedBytesCut(s.blocks, s.used + {s.blocks[i]}, i, s.blocks[i] + STRUCT_MEM + size); }
  }

  lemma AllocTiles(s: Small, i: nat, size: nat)
    requires Tiles(s) && FitsAt(s.blocks, s.used, size, i) && IsAligned(size) && size >= MIN_SIZE_ALIGNED
    ensures Tiles(AllocAt(s, i, size))
  {
    if Splits(s, i, size) { CutTiles(s, i, size); }
  }

  lemma AllocAccount(s: Small, i: nat, size: nat)
    requires Inv(s) && FitsAt(s.blocks, s.used, size, i) && size > 0
    ensures var r := AllocAt(s, i, size); r.usedBytes == UsedBytes(r.blocks, r.used) <= r.maxBytes
  {
    TilesDistinct(s);
    if Splits(s, i, size) { NewHeader(s, i, s.blocks[i] + STRUCT_MEM + size); }
    AllocBytes(s, i, size);
  }

  lemma WholePairs(b: seq<Addr>, used: set<Addr>, i: nat)
    requires Separated(b, used) && used <= Elems(b) && i < |b|
    ensures Separated(b, used + {b[i]}) && used + {b[i]} <= Elems(b)
  {
    InElems(b, b[i]);
    SeparatedMore(b, used, used + {b[i]});
  }

  lemma SplitPairs(b: seq<Addr>, used: set<Addr>, i: nat, c: Addr)
    requires Separated(b, used) && used <= Elems(b) && i + 1 < |b| && b[i] !in used
    ensures Separated(Inserted(b, i + 1, c), used + {b[i]}) && used + {b[i]} <= Elems(Inserted(b, i + 1, c))
  {
    InElems(b, b[i]);
    SeparatedPairs(b, used);
    assert b[i] in used || b[i + 1] in used;
    SplitNoFreePair(b, used, i, c);
    SeparatedPairs(Inserted(b, i + 1, c), used + {b[i]});
    InsertedElems(b, i + 1, c);
  }

  lemma AllocPairs(s: Small, i: nat, size: nat)
    requires Separated(s.blocks, s.used) && s.used <= Elems(s.blocks) && FitsAt(s.blocks, s.used, size, i)
    ensures var r := AllocAt(s, i, size); Separated(r.blocks, r.used) && r.used <= Elems(r.blocks)
  {
    AllocBlocksCases(s, i, size);
    WholePairs(s.blocks, s.used, i);
    SplitPairs(s.blocks, s.used, i, s.blocks[i] + STRUCT_MEM + size);
  }

  lemma AllocInv(s: Small, i: nat, size: nat)
    requires Inv(s) && FitsAt(s.blocks, s.used, size, i) && IsAligned(size) && size >= MIN_SIZE_ALIGNED
    ensures Inv(AllocAt(s, i, size))
  {
    AllocTiles(s, i, size);
    AllocLowest(s, i, size);
    AllocAccount(s, i, size);
    AllocPairs(s, i, size);
  }

  // ---------- rt_smem_realloc, shrinking in place ----------

  /** A free header size bytes into the used block at position i, not merged yet. */
  ghost function CutAt(s: Small, i: nat, size: nat): Small
    requires i + 1 < |s.blocks|
  {
    var c := s.blocks[i] + STRUCT_MEM + size;
    s.(blocks := Inserted(s.blocks, i + 1, c),
       lfree := if c < s.lfree then c else s.lfree,
       usedBytes := s.usedBytes - (s.blocks[i + 1] - s.blocks[i] - STRUCT_MEM - size))
  }

  ghost function ShrinkAt(s: Small, i: nat, size: nat): Small
    requires i + 1 < |s.blocks|
  {
    Plug(CutAt(s, i, size), i + 1)
  }

  predicate CanShrink(s: Small, i: nat, size: nat)
    requires i + 1 < |s.blocks|
  {
    size + STRUCT_MEM + MIN_SIZE < s.blocks[i + 1] - s.blocks[i] - STRUCT_MEM
  }

  lemma LowestCut(b: seq<Addr>, used: set<Addr>, i: nat, c: Addr, d: nat)
    requires Spaced(b, d) && i + 1 < |b| && b[i] in used && c !in used && b[i] < c < b[i + 1]
    ensures var l := LowestFree(b, used);
      LowestFree(Inserted(b, i + 1, c), used) == if c < l then c else l
  {
    var r := Inserted(b, i + 1, c);
    var m := LowestExists(b, used);
    if m <= i {
      assert m < i;
      SpacedPair(b, d, m, i);
      forall k | 0 <= k <= m ensures r[k] == b[k] {}
      LowestIs(r, used, m);
    } else {
      if i + 1 < m { SpacedPair(b, d, i + 1, m); }
      forall k | 0 <= k <= i ensures r[k] in used { assert r[k] == b[k]; }
      LowestIs(r, used, i + 1);
    }
  }

  lemma CutPairs(b: seq<Addr>, used: set<Addr>, i: nat, c: Addr)
    requires NoFreePair(b, used) && i < |b| && b[i] in used
    ensures NoFreePairBut(Inserted(b, i + 1, c), used, i + 1)
  {
    var r := Inserted(b, i + 1, c);
    forall j, k | 0 <= j < k < |r| && k == j + 1 && j != i + 1 && k != i + 1
      ensures r[j] in used || r[k] in used
    {
      if k <= i { assert r[j] == b[j] && r[k] == b[k]; } else { assert r[j] == b[j - 1] && r[k] == b[k - 1]; }
    }
  }

  lemma CutBase(s: Small, i: nat, size: nat)
    requires Live(s, i) && IsAligned(size) && size >= 8 && CanShrink(s, i, size)
    ensures Base(CutAt(s, i, size)) && s.blocks[i] + STRUCT_MEM + size !in s.used
  {
    var c := s.blocks[i] + STRUCT_MEM + size;
    CutTiles(s, i, size);
    NewHeader(s, i, c);
    InsertedElems(s.blocks, i + 1, c);
    UsedBytesCut(s.blocks, s.used, i, c);
    LowestCut(s.blocks, s.used, i, c, STRUCT_MEM + MinData(s.memSize));
  }

  lemma ShrinkInv(s: Small, i: nat, size: nat)
    requires Live(s, i) && IsAligned(size) && size >= 8 && CanShrink(s, i, size)
    ensures Inv(ShrinkAt(s, i, size))
  {
    CutBase(s, i, size);
    SeparatedPairs(s.blocks, s.used);
    CutPairs(s.blocks, s.used, i, s.blocks[i] + STRUCT_MEM + size);
    PlugInv(CutAt(s, i, size), i + 1);
  }

  /** A request is served with the least aligned size that holds it and is no smaller than MIN_SIZE. */
  lemma DataSizeLeast(n: nat, m: nat)
    requires IsAligned(m) && m >= n && m >= MIN_SIZE
    ensures n <= DataSize(n) <= m && IsAligned(DataSize(n)) && DataSize(n) >= MIN_SIZE
  {
    DataSizeAligned(n);
    var k :| Words(k) == m;
  }

  lemma DataSizeAligned(n: nat)
    ensures IsAligned(DataSize(n)) && IsAligned(AlignUp(n)) && AlignUp(n) >= n && (n > 0 ==> AlignUp(n) >= 8)
  {
    assert Words((n + 7) / 8) == AlignUp(n);
    assert Words(2) == MIN_SIZE_ALIGNED;
  }
}
