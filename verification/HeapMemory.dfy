/** The bytes of the pool: payloads and headers never overlap, so header writes leave payloads alone. */
module HeapMemory {
  import opened Wrappers
  import opened RtList
  import opened HeapBlocks

  type Byte = int

  /** The block with header a is in use and is not the tailer. */
  ghost predicate LiveAt(h: Heap, a: Addr) {
    a in h.used && a in h.blocks && IndexOf(h.blocks, a) + 1 < |h.blocks|
  }

  /** p lies in the header at a. */
  predicate InHeader(a: Addr, p: int) { a <= p < a + HEADER }

  /** p lies in the payload of the block with header a. */
  ghost predicate InPayload(h: Heap, a: Addr, p: int) { a + HEADER <= p < a + HEADER + BlockSize(h, a) }

  /** No payload byte of a block belongs to any header of the heap. */
  lemma PayloadAvoidsHeaders(h: Heap, a: Addr, c: Addr, p: int)
    requires Tiled(h) && a in h.blocks && c in Elems(h.blocks) && InPayload(h, a, p)
    ensures !InHeader(c, p)
    ensures h.start <= p < h.start + h.poolSize
  {
    InElems(h.blocks, c);
    var i, j := IndexOf(h.blocks, a), IndexOf(h.blocks, c);
    var d := HEADER + MinBlock(h.poolSize);
    if j < i { SpacedPair(h.blocks, d, j, i); }
    if i + 1 < j { SpacedPair(h.blocks, d, i + 1, j); }
    if 0 < i { SpacedPair(h.blocks, d, 0, i); }
    if i + 1 < |h.blocks| - 1 { SpacedPair(h.blocks, d, i + 1, |h.blocks| - 1); }
  }

  /** Payloads of different blocks are disjoint. */
  lemma PayloadsDisjoint(h: Heap, a: Addr, c: Addr, p: int)
    requires Tiled(h) && a in h.blocks && c in h.blocks && a != c && InPayload(h, a, p)
    ensures !InPayload(h, c, p)
  {
    var i, j := IndexOf(h.blocks, a), IndexOf(h.blocks, c);
    var d := HEADER + MinBlock(h.poolSize);
    if i < j {
      SpacedPair(h.blocks, d, i, j);
      if i + 1 < j { SpacedPair(h.blocks, d, i + 1, j); }
    } else {
      SpacedPair(h.blocks, d, j, i);
      if j + 1 < i { SpacedPair(h.blocks, d, j + 1, i); }
    }
  }

  /** b' differs from b only inside the headers hs. */
  ghost predicate OnlyHeaders(start: Addr, b: seq<Byte>, b': seq<Byte>, hs: set<Addr>) {
    && |b'| == |b|
    && forall k :: 0 <= k < |b| && Outside(hs, start + k) ==> b'[k] == b[k]
  }

  /** p lies in none of the headers hs. */
  ghost predicate Outside(hs: set<Addr>, p: int) {
    forall a :: a in hs ==> !InHeader(a, p)
  }

  lemma OnlyHeadersMore(start: Addr, b: seq<Byte>, b': seq<Byte>, hs: set<Addr>, more: set<Addr>)
    requires OnlyHeaders(start, b, b', hs) && hs <= more
    ensures OnlyHeaders(start, b, b', more)
  {
    forall k | 0 <= k < |b| && Outside(more, start + k) ensures b'[k] == b[k] { assert Outside(hs, start + k); }
  }

  /** The payload bytes of the block with header a. */
  ghost function Payload(h: Heap, b: seq<Byte>, a: Addr): (r: seq<Byte>)
    requires Tiled(h) && LiveAt(h, a) && |b| == h.poolSize
    ensures |r| == BlockSize(h, a) >= 0
    ensures forall k :: 0 <= k < |r| ==> 0 <= a + HEADER + k - h.start < |b| && r[k] == b[a + HEADER + k - h.start]
  {
    PayloadInPool(h, a);
    b[a + HEADER - h.start..a + HEADER + BlockSize(h, a) - h.start]
  }

  lemma PayloadInPool(h: Heap, a: Addr)
    requires Tiled(h) && a in h.blocks && IndexOf(h.blocks, a) + 1 < |h.blocks|
    ensures h.start <= a && BlockSize(h, a) >= 0 && a + HEADER + BlockSize(h, a) <= h.start + h.poolSize
  {
    var i := IndexOf(h.blocks, a);
    var d := HEADER + MinBlock(h.poolSize);
    SpacedPair(h.blocks, d, i, i + 1);
    if 0 < i { SpacedPair(h.blocks, d, 0, i); }
    if i + 1 < |h.blocks| - 1 { SpacedPair(h.blocks, d, i + 1, |h.blocks| - 1); }
  }

  /**
   When an operation writes nothing but headers of blocks that existed before or exist after it,
   every block live before and after keeps the bytes the two extents have in common.
   */
  lemma PayloadKept(h: Heap, h': Heap, b: seq<Byte>, b': seq<Byte>, a: Addr)
    requires Tiled(h) && Tiled(h') && h'.start == h.start && h'.poolSize == h.poolSize && |b| == h.poolSize
    requires OnlyHeaders(h.start, b, b', Elems(h.blocks) + Elems(h'.blocks))
    requires LiveAt(h, a) && LiveAt(h', a)
    ensures forall k :: 0 <= k < BlockSize(h, a) && k < BlockSize(h', a) ==> Payload(h', b', a)[k] == Payload(h, b, a)[k]
  {
    forall k | 0 <= k < BlockSize(h, a) && k < BlockSize(h', a) ensures Payload(h', b', a)[k] == Payload(h, b, a)[k] {
      var p := a + HEADER + k;
      forall c | c in Elems(h.blocks) + Elems(h'.blocks) ensures !InHeader(c, p) {
        if c in Elems(h.blocks) { PayloadAvoidsHeaders(h, a, c, p); } else { PayloadAvoidsHeaders(h', a, c, p); }
      }
      PayloadInPool(h, a);
      assert Outside(Elems(h.blocks) + Elems(h'.blocks), h.start + (p - h.start));
      assert b'[p - h.start] == b[p - h.start];
    }
  }

  // ---------- extents of untouched blocks ----------

  lemma SizeInserted(h: Heap, r: Heap, i: nat, c: Addr, a: Addr)
    requires NoDuplicates(h.blocks) && NoDuplicates(r.blocks) && i + 1 < |h.blocks|
    requires r.blocks == Inserted(h.blocks, i + 1, c)
    requires a in h.blocks && a != h.blocks[i]
    ensures a in r.blocks && BlockSize(r, a) == BlockSize(h, a)
    ensures IndexOf(r.blocks, a) + 1 < |r.blocks| <==> IndexOf(h.blocks, a) + 1 < |h.blocks|
  {
    var j := IndexOf(h.blocks, a);
    var k := if j <= i then j else j + 1;
    assert r.blocks[k] == a;
    IndexOfUnique(r.blocks, k);
  }

  lemma SizeRemoved(h: Heap, r: Heap, i: nat, a: Addr)
    requires NoDuplicates(h.blocks) && NoDuplicates(r.blocks) && 0 < i && i + 1 < |h.blocks|
    requires r.blocks == Removed(h.blocks, i)
    requires a in h.blocks && a != h.blocks[i] && a != h.blocks[i - 1]
    ensures a in r.blocks && BlockSize(r, a) == BlockSize(h, a)
    ensures IndexOf(r.blocks, a) + 1 < |r.blocks| <==> IndexOf(h.blocks, a) + 1 < |h.blocks|
  {
    var j := IndexOf(h.blocks, a);
    var k := if j < i then j else j - 1;
    assert r.blocks[k] == a;
    IndexOfUnique(r.blocks, k);
  }

  function Tail(h: Heap): Addr { h.start + h.poolSize - HEADER }

  /** Live blocks are the used ones other than the tailer. */
  lemma LiveIff(h: Heap, a: Addr)
    requires Inv(h)
    ensures LiveAt(h, a) <==> a in h.used && a != Tail(h)
    ensures LiveAt(h, a) ==> Live(h, IndexOf(h.blocks, a))
  {
    InElems(h.blocks, a);
    if a in h.blocks {
      DistinctBlocks(h);
      IndexOfUnique(h.blocks, |h.blocks| - 1);
    }
  }

  /** A block other than a that is live before is live after, with the same extent. */
  ghost predicate OthersSame(h: Heap, r: Heap, a: Addr) {
    && Inv(h) && Inv(r) && r.start == h.start && r.poolSize == h.poolSize
    && r.used - {a} == h.used - {a}
    && forall x :: LiveAt(h, x) && x != a ==> BlockSize(r, x) == BlockSize(h, x)
  }

  lemma AllocOthers(h: Heap, i: nat, k: nat, size: nat)
    requires Fits(h, i, k, size)
    ensures OthersSame(h, TakeWhole(h, i, k), h.blocks[i])
    ensures h.Size(i) >= size + HEADER + MINI_ALLOC ==> OthersSame(h, SplitAt(h, i, k, size), h.blocks[i])
  {
    WholeInv(h, i, k, size);
    if h.Size(i) >= size + HEADER + MINI_ALLOC {
      SplitInv(h, i, k, size);
      var r := SplitAt(h, i, k, size);
      DistinctBlocks(h);
      DistinctBlocks(r);
      forall x | LiveAt(h, x) && x != h.blocks[i] ensures BlockSize(r, x) == BlockSize(h, x) {
        SizeInserted(h, r, i, h.blocks[i] + HEADER + size, x);
      }
    }
  }

  lemma FreeSizes(h: Heap, i: nat, x: Addr)
    requires Live(h, i) && Inv(FreeAt(h, i)) && LiveAt(h, x) && x != h.blocks[i]
    ensures BlockSize(FreeAt(h, i), x) == BlockSize(h, x)
  {
    var m := h.(blocks := MergedLeft(h, i));
    var j := FreedAt(h, i);
    MergedLeftShape(h, i);
    DistinctBlocks(h);
    DistinctBlocks(FreeAt(h, i));
    if LeftFree(h, i) {
      RemovedMembers(h.blocks, i);
      SizeRemoved(h, m, i, x);
    }
    if m.blocks[j + 1] !in h.used { SizeRemoved(m, FreeAt(h, i), j + 1, x); }
  }

  lemma FreeOthers(h: Heap, i: nat)
    requires Live(h, i)
    ensures OthersSame(h, FreeAt(h, i), h.blocks[i])
  {
    FreeInv(h, i);
    forall x | LiveAt(h, x) && x != h.blocks[i] ensures BlockSize(FreeAt(h, i), x) == BlockSize(h, x) {
      FreeSizes(h, i, x);
    }
  }

  lemma GrowSizes(h: Heap, i: nat, size: nat, x: Addr)
    requires Live(h, i) && CanGrow(h, i, size) && Inv(GrowAt(h, i, size)) && LiveAt(h, x)
    ensures BlockSize(GrowAt(h, i, size), x) == if x == h.blocks[i] then size else BlockSize(h, x)
  {
    var r := GrowAt(h, i, size);
    var m := h.(blocks := Removed(h.blocks, i + 1));
    DistinctBlocks(h);
    DistinctBlocks(r);
    RemovedMembers(h.blocks, i + 1);
    assert m.blocks[i] == h.blocks[i];
    if x == h.blocks[i] {
      assert r.blocks[i] == x && r.blocks[i + 1] == x + HEADER + size;
      IndexOfUnique(r.blocks, i);
    } else {
      GrownOtherSize(h, m, r, i, h.blocks[i] + HEADER + size, x);
    }
  }

  lemma GrownOtherSize(h: Heap, m: Heap, r: Heap, i: nat, c: Addr, x: Addr)
    requires i + 2 < |h.blocks| && m.blocks == Removed(h.blocks, i + 1) && r.blocks == Inserted(m.blocks, i + 1, c)
    requires NoDuplicates(h.blocks) && NoDuplicates(m.blocks) && NoDuplicates(r.blocks)
    requires x in h.blocks && x != h.blocks[i] && x != h.blocks[i + 1]
    ensures BlockSize(r, x) == BlockSize(h, x)
  {
    assert m.blocks[i] == h.blocks[i];
    SizeRemoved(h, m, i + 1, x);
    SizeInserted(m, r, i, c, x);
  }

  lemma GrowOthers(h: Heap, i: nat, size: nat)
    requires Live(h, i) && CanGrow(h, i, size) && IsAligned(size) && size >= MINI_ALLOC
    ensures OthersSame(h, GrowAt(h, i, size), h.blocks[i])
    ensures BlockSize(GrowAt(h, i, size), h.blocks[i]) == size
  {
    GrowInv(h, i, size);
    forall x | LiveAt(h, x) ensures BlockSize(GrowAt(h, i, size), x) == if x == h.blocks[i] then size else BlockSize(h, x) {
      GrowSizes(h, i, size, x);
    }
    DistinctBlocks(h);
    IndexOfUnique(h.blocks, i);
    assert LiveAt(h, h.blocks[i]);
  }

  lemma ShrinkOwnSize(h: Heap, i: nat, size: nat)
    requires i + 1 < |h.blocks| && NoDuplicates(ShrinkAt(h, i, size).blocks)
    ensures BlockSize(ShrinkAt(h, i, size), h.blocks[i]) == size
  {
    var r := ShrinkAt(h, i, size);
    assert r.blocks[i] == h.blocks[i] && r.blocks[i + 1] == h.blocks[i] + HEADER + size;
    IndexOfUnique(r.blocks, i);
  }

  lemma ShrinkOtherSize(h: Heap, i: nat, size: nat, x: Addr)
    requires NoDuplicates(h.blocks) && i + 1 < |h.blocks| && NoDuplicates(ShrinkAt(h, i, size).blocks)
    requires h.blocks[i] + HEADER + size !in h.blocks
    requires x in h.used && x in h.blocks && x != h.blocks[i]
    ensures BlockSize(ShrinkAt(h, i, size), x) == BlockSize(h, x)
  {
    var c := h.blocks[i] + HEADER + size;
    var m := h.(blocks := Inserted(h.blocks, i + 1, c));
    var r := ShrinkAt(h, i, size);
    InsertedMembers(h.blocks, i + 1, c);
    assert r.blocks == if h.blocks[i + 1] !in h.used && i + 2 < |h.blocks| then Removed(m.blocks, i + 2) else m.blocks;
    OtherSize(h, m, r, i, c, x);
  }

  lemma OtherSize(h: Heap, m: Heap, r: Heap, i: nat, c: Addr, x: Addr)
    requires i + 1 < |h.blocks| && m.blocks == Inserted(h.blocks, i + 1, c)
    requires NoDuplicates(h.blocks) && NoDuplicates(m.blocks) && NoDuplicates(r.blocks)
    requires r.blocks == if h.blocks[i + 1] !in h.used && i + 2 < |h.blocks| then Removed(m.blocks, i + 2) else m.blocks
    requires x in h.used && x in h.blocks && x != c && x != h.blocks[i]
    ensures BlockSize(r, x) == BlockSize(h, x)
  {
    SizeInserted(h, m, i, c, x);
    if h.blocks[i + 1] !in h.used && i + 2 < |h.blocks| {
      assert m.blocks[i + 1] == c && m.blocks[i + 2] == h.blocks[i + 1];
      SizeRemoved(m, r, i + 2, x);
    }
  }

  lemma ShrinkOthers(h: Heap, i: nat, size: nat)
    requires Live(h, i) && IsAligned(size) && size >= MINI_ALLOC && size + HEADER + MINI_ALLOC < h.Size(i)
    ensures OthersSame(h, ShrinkAt(h, i, size), h.blocks[i])
    ensures BlockSize(ShrinkAt(h, i, size), h.blocks[i]) == size
  {
    ShrinkInv(h, i, size);
    DistinctBlocks(h);
    DistinctBlocks(ShrinkAt(h, i, size));
    NewHeader(h, i, h.blocks[i] + HEADER + size);
    InElems(h.blocks, h.blocks[i] + HEADER + size);
    ShrinkOwnSize(h, i, size);
    forall x | LiveAt(h, x) && x != h.blocks[i] ensures BlockSize(ShrinkAt(h, i, size), x) == BlockSize(h, x) {
      ShrinkOtherSize(h, i, size, x);
    }
  }

  /** x is live before exactly when it is live after, and then with the same contents. */
  ghost predicate Same(h: Heap, b: seq<Byte>, r: Heap, b': seq<Byte>, x: Addr)
    requires Tiled(h) && Tiled(r) && |b| == h.poolSize && |b'| == r.poolSize
  {
    && (LiveAt(h, x) <==> LiveAt(r, x))
    && (LiveAt(h, x) ==> Payload(r, b', x) == Payload(h, b, x))
  }

  /** The live blocks other than a and their contents are the same before and after. */
  ghost predicate SameBut(h: Heap, b: seq<Byte>, r: Heap, b': seq<Byte>, a: Addr) {
    && Tiled(h) && Tiled(r) && |b| == h.poolSize && |b'| == r.poolSize
    && forall x :: x != a ==> Same(h, b, r, b', x)
  }

  lemma LiveSame(h: Heap, r: Heap, a: Addr, x: Addr)
    requires OthersSame(h, r, a) && x != a
    ensures LiveAt(h, x) <==> LiveAt(r, x)
  {
    LiveIff(h, x);
    LiveIff(r, x);
    assert x in r.used - {a} <==> x in h.used - {a};
  }

  lemma PayloadSame(h: Heap, r: Heap, b: seq<Byte>, b': seq<Byte>, a: Addr, x: Addr)
    requires OthersSame(h, r, a) && |b| == h.poolSize && x != a && LiveAt(h, x)
    requires OnlyHeaders(h.start, b, b', Elems(h.blocks) + Elems(r.blocks))
    ensures LiveAt(r, x) && Payload(r, b', x) == Payload(h, b, x)
  {
    LiveSame(h, r, a, x);
    PayloadKept(h, r, b, b', x);
  }

  lemma ContentsStep(h: Heap, r: Heap, b: seq<Byte>, b': seq<Byte>, a: Addr)
    requires OthersSame(h, r, a) && |b| == h.poolSize
    requires OnlyHeaders(h.start, b, b', Elems(h.blocks) + Elems(r.blocks))
    ensures SameBut(h, b, r, b', a)
  {
    forall x | x != a ensures Same(h, b, r, b', x) {
      LiveSame(h, r, a, x);
      if LiveAt(h, x) { PayloadSame(h, r, b, b', a, x); }
    }
  }

  /** The heap as its users see it: a map from live blocks to their contents. */
  ghost function Contents(h: Heap, b: seq<Byte>): map<Addr, seq<Byte>>
    requires Tiled(h) && |b| == h.poolSize
  {
    map a | a in h.used && LiveAt(h, a) :: Payload(h, b, a)
  }

  /** SameBut in terms of the map. */
  lemma SameButIff(h: Heap, b: seq<Byte>, r: Heap, b': seq<Byte>, a: Addr)
    requires Tiled(h) && Tiled(r) && |b| == h.poolSize && |b'| == r.poolSize
    ensures SameBut(h, b, r, b', a) <==> Contents(r, b') - {a} == Contents(h, b) - {a}
  {
    var x, y := Contents(h, b) - {a}, Contents(r, b') - {a};
    if SameBut(h, b, r, b', a) {
      forall k | k in x ensures k in y && y[k] == x[k] { assert Same(h, b, r, b', k); }
      forall k | k in y ensures k in x { assert Same(h, b, r, b', k); }
      assert y.Keys == x.Keys;
    }
    if y == x {
      forall k | k != a ensures Same(h, b, r, b', k) {
        assert k in x <==> k in y;
        assert k in x ==> y[k] == x[k];
      }
    }
  }

  /** b' is b with src copied to the payload of q. */
  ghost predicate Copied(start: Addr, b: seq<Byte>, b': seq<Byte>, q: Addr, src: seq<Byte>) {
    && |b'| == |b|
    && start <= q && q + HEADER + |src| <= start + |b|
    && forall k :: 0 <= k < |b| ==> b'[k] == CopiedByte(q + HEADER - start, src, b, k)
  }

  function CopiedByte(d: int, src: seq<Byte>, b: seq<Byte>, k: nat): Byte
    requires k < |b|
  {
    if d <= k < d + |src| then src[k - d] else b[k]
  }

  lemma CopyByte(start: Addr, b: seq<Byte>, c: seq<Byte>, q: Addr, src: seq<Byte>, v: Byte)
    requires Copied(start, b, c, q, src) && q + HEADER + |src| < start + |b|
    ensures Copied(start, b, c[q + HEADER - start + |src| := v], q, src + [v])
  {
  }

  lemma CopyKeeps(h: Heap, b: seq<Byte>, b': seq<Byte>, q: Addr, src: seq<Byte>, c: Addr)
    requires Tiled(h) && LiveAt(h, q) && LiveAt(h, c) && c != q && |b| == h.poolSize
    requires |src| <= BlockSize(h, q) && Copied(h.start, b, b', q, src)
    ensures Payload(h, b', c) == Payload(h, b, c)
  {
    forall k | 0 <= k < BlockSize(h, c) ensures Payload(h, b', c)[k] == Payload(h, b, c)[k] {
      PayloadsDisjoint(h, c, q, c + HEADER + k);
    }
  }

  lemma CopyArrives(h: Heap, b: seq<Byte>, b': seq<Byte>, q: Addr, src: seq<Byte>)
    requires Tiled(h) && LiveAt(h, q) && |b| == h.poolSize
    requires |src| <= BlockSize(h, q) && Copied(h.start, b, b', q, src)
    ensures Payload(h, b', q)[..|src|] == src
  {
  }

  /** Copying to a live block changes its contents only. */
  lemma CopyContents(h: Heap, b: seq<Byte>, b': seq<Byte>, q: Addr, src: seq<Byte>)
    requires Tiled(h) && LiveAt(h, q) && |b| == h.poolSize
    requires |src| <= BlockSize(h, q) && Copied(h.start, b, b', q, src)
    ensures SameBut(h, b, h, b', q)
    ensures Payload(h, b', q)[..|src|] == src
  {
    forall c | c != q ensures Same(h, b, h, b', c) {
      if LiveAt(h, c) { CopyKeeps(h, b, b', q, src, c); }
    }
    CopyArrives(h, b, b', q, src);
  }
}
