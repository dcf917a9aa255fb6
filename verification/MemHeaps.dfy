/**
 rt_malloc, rt_free and rt_realloc over all memory heaps of the system: the system heap is
 tried first and the other heaps in the order of the object list.
 */
module MemHeaps {
  import opened Wrappers
  import opened HeapBlocks
  import opened HeapMemory
  import opened MemHeap
  import Runs = HeapRuns

  // ---------- the heaps as values ----------

  /** One heap: its blocks and its bytes. */
  datatype Store = Store(heap: Heap, bytes: seq<Byte>)

  ghost predicate Good(s: Store) { Inv(s.heap) && |s.bytes| == s.heap.poolSize }

  /** The pools s and t lie apart. */
  ghost predicate Apart(s: Heap, t: Heap) { s.start + s.poolSize <= t.start || t.start + t.poolSize <= s.start }

  ghost predicate Sound(v: seq<Store>) {
    && (forall i :: 0 <= i < |v| ==> Good(v[i]))
    && (forall i, j :: 0 <= i < j < |v| ==> Apart(v[i].heap, v[j].heap))
  }

  /** A live block belongs to one heap. */
  lemma OneHome(v: seq<Store>, i: nat, j: nat, a: Addr)
    requires Sound(v) && i < |v| && j < |v| && LiveAt(v[i].heap, a) && LiveAt(v[j].heap, a)
    ensures i == j
  {
    PayloadInPool(v[i].heap, a);
    PayloadInPool(v[j].heap, a);
  }

  ghost predicate LiveSomewhere(v: seq<Store>, a: Addr) {
    exists i :: 0 <= i < |v| && LiveAt(v[i].heap, a)
  }

  // ---------- which heap serves a request ----------

  /** The first heap from position i on, other than the system heap, that serves the size; |v| if none does. */
  ghost function NextServing(v: seq<Store>, system: nat, size: nat, i: nat): (r: nat)
    requires i <= |v|
    ensures i <= r <= |v| && (r < |v| ==> r != system && Runs.Served(v[r].heap, size))
    ensures forall j :: i <= j < r && j != system ==> !Runs.Served(v[j].heap, size)
    decreases |v| - i
  {
    if i == |v| || (i != system && Runs.Served(v[i].heap, size)) then i else NextServing(v, system, size, i + 1)
  }

  /** The heap that gets the request: the system heap if it can, else the first other one. */
  ghost function Serving(v: seq<Store>, system: nat, size: nat): (r: nat)
    requires system < |v|
    ensures r <= |v|
    ensures r == |v| <==> forall j :: 0 <= j < |v| ==> !Runs.Served(v[j].heap, size)
    ensures r < |v| ==> Runs.Served(v[r].heap, size)
    ensures r < |v| && r != system ==>
      !Runs.Served(v[system].heap, size) && forall j :: 0 <= j < r ==> !Runs.Served(v[j].heap, size)
  {
    if Runs.Served(v[system].heap, size) then system else NextServing(v, system, size, 0)
  }

  /** Only heap i may differ. */
  ghost predicate OnlyHeap(v: seq<Store>, w: seq<Store>, i: nat) {
    i < |v| && |w| == |v| && forall k :: 0 <= k < |v| && k != i ==> w[k] == v[k]
  }

  // ---------- what the operations do ----------

  /** Heap i has been asked for a block of the adjusted size. */
  ghost predicate Asked(v: seq<Store>, w: seq<Store>, i: nat, size: nat, ptr: Option<Addr>) {
    && Sound(v) && IsAligned(size) && size >= MINI_ALLOC && OnlyHeap(v, w, i)
    && Allocated(v[i].heap, v[i].bytes, w[i].heap, w[i].bytes, size, ptr)
  }

  /**
   _memheap_alloc: null exactly when no heap serves the size, and then nothing changes;
   otherwise the first serving heap in turn gives the block.
   */
  ghost predicate Allocates(v: seq<Store>, w: seq<Store>, system: nat, size: nat, ptr: Option<Addr>) {
    && Sound(v) && system < |v| && (ptr.None? <==> Serving(v, system, size) == |v|)
    && (if ptr.None? then w == v else Asked(v, w, Serving(v, system, size), size, ptr))
  }

  /** Block a of heap i is gone and nothing else has changed. */
  ghost predicate Frees(v: seq<Store>, w: seq<Store>, i: nat, a: Addr) {
    && Sound(v) && OnlyHeap(v, w, i) && LiveAt(v[i].heap, a)
    && Freed(v[i].heap, v[i].bytes, w[i].heap, w[i].bytes, a)
  }

  /** k and x are neither block a of heap i nor block q of heap j. */
  predicate Elsewhere(k: nat, x: Addr, i: nat, a: Addr, j: nat, q: Addr) { !(k == i && x == a) && !(k == j && x == q) }

  /**
   Block a of heap i became block q of heap j, with room for n bytes: q starts with the bytes a
   had, as many as fit, and every other live block of every heap is as it was.
   */
  ghost predicate Carried(v: seq<Store>, w: seq<Store>, i: nat, a: Addr, j: nat, q: Addr, n: nat) {
    && Sound(v) && Sound(w) && |w| == |v| && i < |v| && j < |v|
    && LiveAt(v[i].heap, a) && LiveAt(w[j].heap, q) && BlockSize(w[j].heap, q) >= n
    && ((j, q) != (i, a) ==> !LiveAt(v[j].heap, q) && !LiveAt(w[i].heap, a))
    && (forall k, x :: 0 <= k < |v| && Elsewhere(k, x, i, a, j, q) ==> Same(v[k].heap, v[k].bytes, w[k].heap, w[k].bytes, x))
    && (forall b :: 0 <= b < BlockSize(v[i].heap, a) && b < n ==>
          Payload(w[j].heap, w[j].bytes, q)[b] == Payload(v[i].heap, v[i].bytes, a)[b])
  }

  /** The home heap of a live block cannot give it the size, in place or by moving. */
  ghost predicate Stuck(h: Heap, a: Addr, size: nat)
    requires LiveAt(h, a)
  {
    BlockSize(h, a) < size && !CanGrow(h, IndexOf(h.blocks, a), size) && !Runs.Served(h, size)
  }

  /** The heap that has the block after a realloc: its own as long as that can, else the one that serves the size. */
  ghost function NewHome(v: seq<Store>, system: nat, i: nat, a: Addr, size: nat): nat
    requires i < |v| && system < |v| && LiveAt(v[i].heap, a)
  {
    if Stuck(v[i].heap, a, size) then Serving(v, system, size) else i
  }

  /** Block a of heap i was resized within its heap. */
  ghost predicate ResizesWithin(v: seq<Store>, w: seq<Store>, i: nat, a: Addr, size: nat, r: Option<Addr>)
    requires Sound(v) && i < |v| && LiveAt(v[i].heap, a) && IsAligned(size) && size >= MINI_ALLOC
  {
    OnlyHeap(v, w, i) && (w[i].heap, r) == Runs.ReallocStep(v[i].heap, a, size)
  }

  /** Only heaps i and j may differ. */
  ghost predicate OnlyTwo(v: seq<Store>, w: seq<Store>, i: nat, j: nat) {
    |w| == |v| && forall k :: 0 <= k < |v| && k != i && k != j ==> w[k] == v[k]
  }

  /** Block a of heap i was replaced by a block of heap j. */
  ghost predicate MovesAcross(v: seq<Store>, w: seq<Store>, i: nat, a: Addr, j: nat, size: nat, r: Option<Addr>)
    requires Sound(v) && i < |v| && LiveAt(v[i].heap, a) && IsAligned(size) && size >= MINI_ALLOC
  {
    && j < |v| && j != i && OnlyTwo(v, w, i, j)
    && w[i].heap == Runs.FreeStep(v[i].heap, a) && w[j].heap == Runs.AllocStep(v[j].heap, size)
    && Runs.Served(v[j].heap, size) && r.Some? && r.value - HEADER == Runs.AllocAddr(v[j].heap, size)
  }

  /** _memheap_realloc of block a of heap i to a nonzero size. */
  ghost predicate Reallocates(v: seq<Store>, w: seq<Store>, system: nat, i: nat, a: Addr, request: nat, r: Option<Addr>) {
    var size := RequestSize(request);
    && Sound(v) && Sound(w) && |w| == |v| && i < |v| && system < |v| && LiveAt(v[i].heap, a)
    && IsAligned(size) && size >= MINI_ALLOC
    && (r.None? <==> NewHome(v, system, i, a, size) == |v|)
    && (r.None? ==> w == v)
    && (r.Some? ==>
          && Carried(v, w, i, a, NewHome(v, system, i, a, size), r.value - HEADER, request)
          && (if Stuck(v[i].heap, a, size) then MovesAcross(v, w, i, a, NewHome(v, system, i, a, size), size, r)
              else ResizesWithin(v, w, i, a, size, r)))
  }

  // ---------- the heaps as objects ----------

  /** The heaps are different objects with pools that do not overlap. */
  ghost predicate Separate(heaps: seq<RtMemHeap>) {
    forall i, j :: 0 <= i < |heaps| && 0 <= j < |heaps| && i != j ==> heaps[i] != heaps[j] && PoolsApart(heaps[i], heaps[j])
  }

  predicate PoolsApart(g: RtMemHeap, h: RtMemHeap) { g.start + g.poolSize <= h.start || h.start + h.poolSize <= g.start }

  ghost predicate AllValid(heaps: seq<RtMemHeap>)
    reads heaps
  {
    forall i :: 0 <= i < |heaps| ==> heaps[i].Valid()
  }

  ghost function View(heaps: seq<RtMemHeap>): (v: seq<Store>)
    reads heaps
    ensures |v| == |heaps|
    ensures forall i :: 0 <= i < |v| ==> v[i] == Store(heaps[i].Abs(), heaps[i].bytes)
  {
    if heaps == [] then []
    else
      var n := |heaps| - 1;
      View(heaps[..n]) + [Store(heaps[n].Abs(), heaps[n].bytes)]
  }

  lemma ViewSound(heaps: seq<RtMemHeap>)
    requires Separate(heaps) && AllValid(heaps)
    ensures Sound(View(heaps))
  {
    var v := View(heaps);
    forall i, j | 0 <= i < j < |v| ensures Apart(v[i].heap, v[j].heap) { assert PoolsApart(heaps[i], heaps[j]); }
  }

  /** The address lies in the pool of the heap. */
  predicate Covers(h: RtMemHeap, a: Addr) { h.start <= a < h.start + h.poolSize }

  /** The heap a header belongs to, which the header's pool_ptr names: the one whose pool it lies in. */
  function PoolPtr(heaps: seq<RtMemHeap>, a: Addr): (i: nat)
    ensures i <= |heaps| && (i < |heaps| ==> Covers(heaps[i], a))
    ensures i == |heaps| ==> forall j :: 0 <= j < |heaps| ==> !Covers(heaps[j], a)
  {
    if heaps == [] then 0
    else
      var n := |heaps| - 1;
      var i := PoolPtr(heaps[..n], a);
      if i == n && !Covers(heaps[n], a) then n + 1 else i
  }

  lemma OnePool(heaps: seq<RtMemHeap>, i: nat, a: Addr)
    requires Separate(heaps) && i < |heaps| && Covers(heaps[i], a)
    ensures PoolPtr(heaps, a) == i
  {
  }

  /** pool_ptr leads to the heap in which the block is live. */
  lemma PoolPtrHome(heaps: seq<RtMemHeap>, i: nat, a: Addr)
    requires Separate(heaps) && i < |heaps| && Tiled(heaps[i].Abs()) && LiveAt(heaps[i].Abs(), a)
    ensures PoolPtr(heaps, a) == i
  {
    PayloadInPool(heaps[i].Abs(), a);
    OnePool(heaps, i, a);
  }

  /** rt_memheap_alloc on heap i */
  method AskHeap(heaps: seq<RtMemHeap>, i: nat, request: nat) returns (ptr: Option<Addr>)
    requires Separate(heaps) && AllValid(heaps) && i < |heaps|
    modifies heaps[i]
    ensures AllValid(heaps) && Asked(old(View(heaps)), View(heaps), i, RequestSize(request), ptr)
  {
    ghost var v := View(heaps);
    ViewSound(heaps);
    ptr := heaps[i].Alloc(request);
    forall k | 0 <= k < |heaps| && k != i ensures heaps[k].Valid() && View(heaps)[k] == v[k] {
      assert heaps[k] != heaps[i];
    }
  }

  /** _memheap_alloc */
  method MemheapAlloc(heaps: seq<RtMemHeap>, system: nat, request: nat) returns (ptr: Option<Addr>)
    requires Separate(heaps) && AllValid(heaps) && system < |heaps|
    modifies heaps
    ensures AllValid(heaps) && Allocates(old(View(heaps)), View(heaps), system, RequestSize(request), ptr)
  {
    ghost var v := View(heaps);
    ptr := AskHeap(heaps, system, request);
    AskedSome(v, View(heaps), system, RequestSize(request), ptr);
    if ptr.None? {
      ptr := AskOthers(heaps, system, request);
    }
  }

  /** _memheap_alloc: the loop over the object list */
  method AskOthers(heaps: seq<RtMemHeap>, system: nat, request: nat) returns (ptr: Option<Addr>)
    requires Separate(heaps) && AllValid(heaps) && system < |heaps|
    requires !Runs.Served(View(heaps)[system].heap, RequestSize(request))
    modifies heaps
    ensures AllValid(heaps) && Allocates(old(View(heaps)), View(heaps), system, RequestSize(request), ptr)
  {
    ghost var v, size := View(heaps), RequestSize(request);
    ptr := None;
    var node := 0;
    while node < |heaps|
      invariant 0 <= node <= |heaps| && AllValid(heaps) && View(heaps) == v && ptr.None?
      invariant NextServing(v, system, size, 0) == NextServing(v, system, size, node)
    {
      ptr := AskNode(heaps, system, node, request);
      if ptr.Some? { break; }
      node := node + 1;
    }
    if ptr.None? { ViewSound(heaps); }
  }

  /** One round of that loop. */
  method AskNode(heaps: seq<RtMemHeap>, system: nat, node: nat, request: nat) returns (ptr: Option<Addr>)
    requires Separate(heaps) && AllValid(heaps) && system < |heaps| && node < |heaps|
    requires !Runs.Served(View(heaps)[system].heap, RequestSize(request))
    requires NextServing(View(heaps), system, RequestSize(request), 0) == NextServing(View(heaps), system, RequestSize(request), node)
    modifies heaps
    ensures AllValid(heaps)
    ensures ptr.Some? ==> Allocates(old(View(heaps)), View(heaps), system, RequestSize(request), ptr)
    ensures ptr.None? ==> View(heaps) == old(View(heaps))
    ensures ptr.None? ==> NextServing(View(heaps), system, RequestSize(request), 0) == NextServing(View(heaps), system, RequestSize(request), node + 1)
  {
    ptr := None;
    if node != system {
      ghost var v := View(heaps);
      ptr := AskHeap(heaps, node, request);
      TriedHeap(v, View(heaps), system, node, RequestSize(request), ptr);
    }
  }

  lemma TriedHeap(v: seq<Store>, w: seq<Store>, system: nat, i: nat, size: nat, ptr: Option<Addr>)
    requires Asked(v, w, i, size, ptr) && system < |v| && i != system && !Runs.Served(v[system].heap, size)
    requires NextServing(v, system, size, 0) == NextServing(v, system, size, i)
    ensures ptr.Some? ==> Allocates(v, w, system, size, ptr)
    ensures ptr.None? ==> w == v && NextServing(v, system, size, 0) == NextServing(v, system, size, i + 1)
  {
    AskedSome(v, w, i, size, ptr);
  }

  lemma AskedSome(v: seq<Store>, w: seq<Store>, i: nat, size: nat, ptr: Option<Addr>)
    requires Asked(v, w, i, size, ptr)
    ensures ptr.Some? <==> Runs.Served(v[i].heap, size)
    ensures ptr.None? ==> w == v
  {
  }

  /** rt_memheap_free on heap i */
  method FreeIn(heaps: seq<RtMemHeap>, i: nat, a: Addr)
    requires Separate(heaps) && AllValid(heaps) && i < |heaps| && LiveAt(View(heaps)[i].heap, a)
    modifies heaps[i]
    ensures AllValid(heaps) && Frees(old(View(heaps)), View(heaps), i, a)
  {
    ghost var v := View(heaps);
    ViewSound(heaps);
    heaps[i].Free(Some(a + HEADER));
    forall k | 0 <= k < |heaps| && k != i ensures heaps[k].Valid() && View(heaps)[k] == v[k] {
      assert heaps[k] != heaps[i];
    }
  }

  /** _memheap_free */
  method MemheapFree(heaps: seq<RtMemHeap>, ptr: Option<Addr>)
    requires Separate(heaps) && AllValid(heaps)
    requires ptr.Some? ==> LiveSomewhere(View(heaps), ptr.value - HEADER)
    modifies heaps
    ensures AllValid(heaps)
    ensures ptr.None? ==> View(heaps) == old(View(heaps))
    ensures ptr.Some? ==> Frees(old(View(heaps)), View(heaps), PoolPtr(heaps, ptr.value - HEADER), ptr.value - HEADER)
  {
    if ptr.Some? {
      var a := ptr.value - HEADER;
      ghost var i :| 0 <= i < |heaps| && LiveAt(View(heaps)[i].heap, a);
      PoolPtrHome(heaps, i, a);
      FreeIn(heaps, PoolPtr(heaps, a), a);
    }
  }

  /** The home heap i was asked to resize block a. */
  ghost predicate ResizeAsked(v: seq<Store>, w: seq<Store>, i: nat, a: Addr, request: nat, r: Option<Addr>) {
    && Sound(v) && OnlyHeap(v, w, i) && LiveAt(v[i].heap, a)
    && IsAligned(RequestSize(request)) && RequestSize(request) >= MINI_ALLOC
    && LiveReallocated(v[i].heap, v[i].bytes, w[i].heap, w[i].bytes, a, request, r)
  }

  /** rt_memheap_realloc on heap i */
  method ResizeIn(heaps: seq<RtMemHeap>, i: nat, a: Addr, request: nat) returns (r: Option<Addr>)
    requires Separate(heaps) && AllValid(heaps) && i < |heaps| && LiveAt(View(heaps)[i].heap, a) && request > 0
    modifies heaps[i]
    ensures AllValid(heaps) && ResizeAsked(old(View(heaps)), View(heaps), i, a, request, r)
  {
    ghost var v := View(heaps);
    ViewSound(heaps);
    r := heaps[i].Realloc(Some(a + HEADER), request);
    ReallocatedLive(v[i].heap, v[i].bytes, heaps[i].Abs(), heaps[i].bytes, a, request, r);
    forall k | 0 <= k < |heaps| && k != i ensures heaps[k].Valid() && View(heaps)[k] == v[k] {
      assert heaps[k] != heaps[i];
    }
  }

  lemma CarriedWithin(v: seq<Store>, w: seq<Store>, i: nat, a: Addr, q: Addr, n: nat)
    requires Sound(v) && Sound(w) && OnlyHeap(v, w, i)
    requires Resized(v[i].heap, v[i].bytes, w[i].heap, w[i].bytes, a, q, n)
    ensures Carried(v, w, i, a, i, q, n)
  {
  }

  lemma ResizeFails(v: seq<Store>, w: seq<Store>, i: nat, a: Addr, request: nat, r: Option<Addr>)
    requires ResizeAsked(v, w, i, a, request, r) && request > 0
    ensures r.None? <==> Stuck(v[i].heap, a, RequestSize(request))
    ensures r.None? ==> w == v
  {
    Runs.ReallocFails(v[i].heap, a, RequestSize(request));
  }

  lemma ResizeCarries(v: seq<Store>, w: seq<Store>, i: nat, a: Addr, request: nat, r: Option<Addr>)
    requires ResizeAsked(v, w, i, a, request, r) && request > 0 && Sound(w) && r.Some?
    ensures Carried(v, w, i, a, i, r.value - HEADER, request)
    ensures ResizesWithin(v, w, i, a, RequestSize(request), r)
  {
    CarriedWithin(v, w, i, a, r.value - HEADER, request);
  }

  lemma WithinReallocates(v: seq<Store>, w: seq<Store>, system: nat, i: nat, a: Addr, request: nat, r: Option<Addr>)
    requires Sound(v) && i < |v| && system < |v| && r.Some? && LiveAt(v[i].heap, a)
    requires IsAligned(RequestSize(request)) && RequestSize(request) >= MINI_ALLOC && !Stuck(v[i].heap, a, RequestSize(request))
    requires Carried(v, w, i, a, i, r.value - HEADER, request)
    requires ResizesWithin(v, w, i, a, RequestSize(request), r)
    ensures Reallocates(v, w, system, i, a, request, r)
  {
  }

  lemma ResizedWithin(v: seq<Store>, w: seq<Store>, system: nat, i: nat, a: Addr, request: nat, r: Option<Addr>)
    requires ResizeAsked(v, w, i, a, request, r) && request > 0 && Sound(w) && system < |v| && r.Some?
    ensures Reallocates(v, w, system, i, a, request, r)
  {
    ResizeFails(v, w, i, a, request, r);
    ResizeCarries(v, w, i, a, request, r);
    WithinReallocates(v, w, system, i, a, request, r);
  }

  /** The first n bytes of block a of heap i were copied to block q of heap j. */
  ghost predicate CopiesAcross(v: seq<Store>, w: seq<Store>, i: nat, a: Addr, j: nat, q: Addr, n: nat) {
    && OnlyHeap(v, w, j) && i < |v|
    && BlockCopied(v[i].heap, v[i].bytes, a, v[j].heap, v[j].bytes, w[j].heap, w[j].bytes, q, n)
  }

  /** rt_memcpy from heap i to heap j */
  method CopyAcross(heaps: seq<RtMemHeap>, i: nat, a: Addr, j: nat, q: Addr, n: nat)
    requires Separate(heaps) && AllValid(heaps) && i < |heaps| && j < |heaps| && i != j
    requires LiveAt(View(heaps)[i].heap, a) && n <= BlockSize(View(heaps)[i].heap, a)
    requires LiveAt(View(heaps)[j].heap, q) && n <= BlockSize(View(heaps)[j].heap, q)
    modifies heaps[j]
    ensures AllValid(heaps) && CopiesAcross(old(View(heaps)), View(heaps), i, a, j, q, n)
  {
    ghost var v := View(heaps);
    heaps[j].CopyBlock(heaps[i], a, q, n);
    forall k | 0 <= k < |heaps| && k != j ensures heaps[k].Valid() && View(heaps)[k] == v[k] {
      assert heaps[k] != heaps[j];
    }
  }

  /** Allocation in heap j, the copy, and the free in heap i. */
  ghost predicate Transfer(v: seq<Store>, v1: seq<Store>, v2: seq<Store>, w: seq<Store>, i: nat, a: Addr, j: nat, q: Addr, size: nat, n: nat) {
    && i != j && Sound(v1) && Asked(v, v1, j, size, Some(q + HEADER)) && CopiesAcross(v1, v2, i, a, j, q, n) && Frees(v2, w, i, a)
  }

  lemma TransferOthers(v: seq<Store>, v1: seq<Store>, v2: seq<Store>, w: seq<Store>, i: nat, a: Addr, j: nat, q: Addr, size: nat, n: nat)
    requires Transfer(v, v1, v2, w, i, a, j, q, size, n) && Sound(w)
    ensures forall k, x :: 0 <= k < |v| && Elsewhere(k, x, i, a, j, q) ==> Same(v[k].heap, v[k].bytes, w[k].heap, w[k].bytes, x)
  {
    CopyContents(v1[j].heap, v1[j].bytes, v2[j].bytes, q, Payload(v1[i].heap, v1[i].bytes, a)[..n]);
    forall k, x | 0 <= k < |v| && Elsewhere(k, x, i, a, j, q) ensures Same(v[k].heap, v[k].bytes, w[k].heap, w[k].bytes, x) {
      if k == j {
        assert Same(v[j].heap, v[j].bytes, v1[j].heap, v1[j].bytes, x);
        assert Same(v1[j].heap, v1[j].bytes, v2[j].heap, v2[j].bytes, x);
      }
    }
  }

  lemma TransferBytes(v: seq<Store>, v1: seq<Store>, v2: seq<Store>, w: seq<Store>, i: nat, a: Addr, j: nat, q: Addr, size: nat, n: nat)
    requires Transfer(v, v1, v2, w, i, a, j, q, size, n)
    ensures w[j] == v2[j] && v1[i] == v[i]
    ensures LiveAt(v[i].heap, a) && LiveAt(w[j].heap, q) && !LiveAt(v[j].heap, q) && !LiveAt(w[i].heap, a)
    ensures BlockSize(w[j].heap, q) >= size
    ensures Tiled(v[i].heap) && Tiled(w[j].heap) && |v[i].bytes| == v[i].heap.poolSize && |w[j].bytes| == w[j].heap.poolSize
    ensures forall b :: 0 <= b < n ==> Payload(w[j].heap, w[j].bytes, q)[b] == Payload(v[i].heap, v[i].bytes, a)[b]
  {
    var src := Payload(v1[i].heap, v1[i].bytes, a)[..n];
    CopyArrives(v1[j].heap, v1[j].bytes, v2[j].bytes, q, src);
    forall b | 0 <= b < n ensures Payload(w[j].heap, w[j].bytes, q)[b] == Payload(v[i].heap, v[i].bytes, a)[b] {
      assert Payload(w[j].heap, w[j].bytes, q)[..n][b] == src[b];
    }
  }

  /** Allocate, copy and free carry the block over to the other heap. */
  lemma TransferCarries(v: seq<Store>, v1: seq<Store>, v2: seq<Store>, w: seq<Store>, i: nat, a: Addr, j: nat, q: Addr, request: nat, n: nat)
    requires Transfer(v, v1, v2, w, i, a, j, q, RequestSize(request), n) && Sound(w)
    requires n == BlockSize(v[i].heap, a) || n == request
    ensures Carried(v, w, i, a, j, q, request)
  {
    TransferOthers(v, v1, v2, w, i, a, j, q, RequestSize(request), n);
    TransferBytes(v, v1, v2, w, i, a, j, q, RequestSize(request), n);
    RequestAligned(request);
  }

  lemma TransferSteps(v: seq<Store>, v1: seq<Store>, v2: seq<Store>, w: seq<Store>, i: nat, a: Addr, j: nat, q: Addr, size: nat)
    requires OnlyHeap(v, v1, j) && OnlyHeap(v1, v2, j) && OnlyHeap(v2, w, i) && i != j && v2[j].heap == v1[j].heap
    requires Sound(v) && LiveAt(v[i].heap, a) && IsAligned(size) && size >= MINI_ALLOC && Runs.Served(v[j].heap, size)
    requires v1[j].heap == Runs.AllocStep(v[j].heap, size) && q == Runs.AllocAddr(v[j].heap, size)
    requires w[i].heap == Runs.FreeStep(v[i].heap, a)
    ensures MovesAcross(v, w, i, a, j, size, Some(q + HEADER))
  {
    TransferHeaps(v, v1, v2, w, i, j);
    StepsMove(v, w, i, a, j, size, q);
  }

  lemma TransferHeaps(v: seq<Store>, v1: seq<Store>, v2: seq<Store>, w: seq<Store>, i: nat, j: nat)
    requires OnlyHeap(v, v1, j) && OnlyHeap(v1, v2, j) && OnlyHeap(v2, w, i) && i != j && v2[j].heap == v1[j].heap
    ensures j < |v| && OnlyTwo(v, w, i, j) && w[j].heap == v1[j].heap
  {
    assert w[j] == v2[j];
  }

  lemma StepsMove(v: seq<Store>, w: seq<Store>, i: nat, a: Addr, j: nat, size: nat, q: Addr)
    requires Sound(v) && i < |v| && j < |v| && i != j && OnlyTwo(v, w, i, j)
    requires LiveAt(v[i].heap, a) && IsAligned(size) && size >= MINI_ALLOC && Runs.Served(v[j].heap, size)
    requires w[j].heap == Runs.AllocStep(v[j].heap, size) && w[i].heap == Runs.FreeStep(v[i].heap, a)
    requires q == Runs.AllocAddr(v[j].heap, size)
    ensures MovesAcross(v, w, i, a, j, size, Some(q + HEADER))
  {
  }

  lemma TransferDone(v: seq<Store>, v1: seq<Store>, v2: seq<Store>, w: seq<Store>, i: nat, a: Addr, j: nat, q: Addr, request: nat, n: nat)
    requires i != j && Asked(v, v1, j, RequestSize(request), Some(q + HEADER)) && CopiesAcross(v1, v2, i, a, j, q, n) && Frees(v2, w, i, a)
    requires Sound(v1) && Sound(w) && (n == BlockSize(v[i].heap, a) || n == request)
    ensures Carried(v, w, i, a, j, q, request) && MovesAcross(v, w, i, a, j, RequestSize(request), Some(q + HEADER))
  {
    TransferCarries(v, v1, v2, w, i, a, j, q, request, n);
    TransferSteps(v, v1, v2, w, i, a, j, q, RequestSize(request));
  }

  /** _memheap_realloc: heap j gave the block q for block a of heap i; copy the bytes and free a. */
  method CarryOver(heaps: seq<RtMemHeap>, i: nat, a: Addr, q: Addr, request: nat, ghost j: nat, ghost v: seq<Store>)
    requires Separate(heaps) && AllValid(heaps) && |v| == |heaps| && i < |heaps| && j < |heaps| && i != j
    requires LiveAt(v[i].heap, a) && Asked(v, View(heaps), j, RequestSize(request), Some(q + HEADER))
    modifies heaps
    ensures AllValid(heaps) && Carried(v, View(heaps), i, a, j, q, request)
    ensures MovesAcross(v, View(heaps), i, a, j, RequestSize(request), Some(q + HEADER))
  {
    ghost var v1 := View(heaps);
    ViewSound(heaps);
    AskedLive(v, v1, i, a, j, q, request);
    var n := CopyOver(heaps, i, a, q, request, j);
    ghost var v2 := View(heaps);
    FreeIn(heaps, i, a);
    ViewSound(heaps);
    TransferDone(v, v1, v2, View(heaps), i, a, j, q, request, n);
  }

  method CopyOver(heaps: seq<RtMemHeap>, i: nat, a: Addr, q: Addr, request: nat, ghost j: nat) returns (n: nat)
    requires Separate(heaps) && AllValid(heaps) && i < |heaps| && j < |heaps| && i != j
    requires LiveAt(View(heaps)[i].heap, a) && LiveAt(View(heaps)[j].heap, q) && BlockSize(View(heaps)[j].heap, q) >= request
    modifies heaps
    ensures AllValid(heaps) && CopiesAcross(old(View(heaps)), View(heaps), i, a, j, q, n)
    ensures n == BlockSize(old(View(heaps))[i].heap, a) || n == request
  {
    var target;
    n, target := Locate(heaps, i, a, q, request, j);
    CopyAcross(heaps, i, a, target, q, n);
  }

  /**
   The number of bytes to copy, which is no more than the old block has and no more than were
   asked for, and the heap the new block lies in.
   */
  method Locate(heaps: seq<RtMemHeap>, i: nat, a: Addr, q: Addr, request: nat, ghost j: nat) returns (n: nat, target: nat)
    requires Separate(heaps) && AllValid(heaps) && i < |heaps| && j < |heaps|
    requires LiveAt(View(heaps)[i].heap, a) && LiveAt(View(heaps)[j].heap, q)
    ensures n == (if request > BlockSize(View(heaps)[i].heap, a) then BlockSize(View(heaps)[i].heap, a) else request)
    ensures target == j
  {
    var oldSize := heaps[i].ItemSize(a);
    n := if request > oldSize then oldSize else request;
    PoolPtrHome(heaps, j, q);
    target := PoolPtr(heaps, q);
  }

  lemma AskedLive(v: seq<Store>, w: seq<Store>, i: nat, a: Addr, j: nat, q: Addr, request: nat)
    requires Asked(v, w, j, RequestSize(request), Some(q + HEADER)) && i < |v| && i != j && LiveAt(v[i].heap, a)
    ensures w[i] == v[i] && LiveAt(w[j].heap, q) && BlockSize(w[j].heap, q) >= request
  {
    RequestAligned(request);
  }

  /** _memheap_realloc once the home heap of block a has failed */
  method MoveAcross(heaps: seq<RtMemHeap>, system: nat, i: nat, a: Addr, request: nat) returns (r: Option<Addr>)
    requires Separate(heaps) && AllValid(heaps) && i < |heaps| && system < |heaps|
    requires LiveAt(View(heaps)[i].heap, a) && Stuck(View(heaps)[i].heap, a, RequestSize(request))
    modifies heaps
    ensures AllValid(heaps) && Reallocates(old(View(heaps)), View(heaps), system, i, a, request, r)
  {
    ghost var v, size := View(heaps), RequestSize(request);
    ghost var j := Serving(v, system, size);
    RequestAligned(request);
    r := MemheapAlloc(heaps, system, request);
    if r.Some? {
      CarryOver(heaps, i, a, r.value - HEADER, request, j, v);
      AcrossReallocates(v, View(heaps), system, i, a, request, r);
    }
  }

  lemma AcrossReallocates(v: seq<Store>, w: seq<Store>, system: nat, i: nat, a: Addr, request: nat, r: Option<Addr>)
    requires Sound(v) && i < |v| && system < |v| && r.Some? && LiveAt(v[i].heap, a)
    requires IsAligned(RequestSize(request)) && RequestSize(request) >= MINI_ALLOC && Stuck(v[i].heap, a, RequestSize(request))
    requires Carried(v, w, i, a, Serving(v, system, RequestSize(request)), r.value - HEADER, request)
    requires MovesAcross(v, w, i, a, Serving(v, system, RequestSize(request)), RequestSize(request), r)
    ensures Reallocates(v, w, system, i, a, request, r)
  {
  }

  /** _memheap_realloc */
  method MemheapRealloc(heaps: seq<RtMemHeap>, system: nat, ptr: Option<Addr>, request: nat) returns (r: Option<Addr>)
    requires Separate(heaps) && AllValid(heaps) && system < |heaps|
    requires ptr.Some? ==> LiveSomewhere(View(heaps), ptr.value - HEADER)
    modifies heaps
    ensures AllValid(heaps)
    ensures ptr.None? ==> Allocates(old(View(heaps)), View(heaps), system, RequestSize(request), r)
    ensures ptr.Some? && request == 0 ==>
      r.None? && Frees(old(View(heaps)), View(heaps), PoolPtr(heaps, ptr.value - HEADER), ptr.value - HEADER)
    ensures ptr.Some? && request > 0 ==>
      Reallocates(old(View(heaps)), View(heaps), system, PoolPtr(heaps, ptr.value - HEADER), ptr.value - HEADER, request, r)
  {
    if ptr.None? {
      r := MemheapAlloc(heaps, system, request);
    } else if request == 0 {
      MemheapFree(heaps, ptr);
      r := None;
    } else {
      r := ReallocLive(heaps, system, ptr.value - HEADER, request);
    }
  }

  /** _memheap_realloc of a live block to a nonzero size */
  method ReallocLive(heaps: seq<RtMemHeap>, system: nat, a: Addr, request: nat) returns (r: Option<Addr>)
    requires Separate(heaps) && AllValid(heaps) && system < |heaps| && request > 0 && LiveSomewhere(View(heaps), a)
    modifies heaps
    ensures AllValid(heaps) && Reallocates(old(View(heaps)), View(heaps), system, PoolPtr(heaps, a), a, request, r)
  {
    ghost var v := View(heaps);
    ghost var k :| 0 <= k < |heaps| && LiveAt(v[k].heap, a);
    PoolPtrHome(heaps, k, a);
    var i := PoolPtr(heaps, a);
    r := ResizeIn(heaps, i, a, request);
    ViewSound(heaps);
    ResizeFails(v, View(heaps), i, a, request, r);
    if r.None? {
      r := MoveAcross(heaps, system, i, a, request);
    } else {
      ResizedWithin(v, View(heaps), system, i, a, request, r);
    }
  }

  // ---------- the map of live blocks ----------

  type Blocks = map<Addr, seq<Byte>>

  function Union(ms: seq<Blocks>): Blocks {
    if ms == [] then map[] else Union(ms[..|ms| - 1]) + ms[|ms| - 1]
  }

  /** No block is in two of the maps. */
  ghost predicate Disjoint(ms: seq<Blocks>) {
    forall i, j, x :: 0 <= i < |ms| && 0 <= j < |ms| && x in ms[i] && x in ms[j] ==> i == j
  }

  /** m and n say the same of x. */
  predicate Agree(m: Blocks, n: Blocks, x: Addr) { (x in m <==> x in n) && (x in m ==> n[x] == m[x]) }

  lemma {:induction false} UnionAt(ms: seq<Blocks>, i: nat, x: Addr)
    requires Disjoint(ms) && i < |ms| && x in ms[i]
    ensures x in Union(ms) && Union(ms)[x] == ms[i][x]
  {
    if i < |ms| - 1 { UnionAt(ms[..|ms| - 1], i, x); }
  }

  lemma {:induction false} UnionWithout(ms: seq<Blocks>, x: Addr)
    requires forall k :: 0 <= k < |ms| ==> x !in ms[k]
    ensures x !in Union(ms)
  {
    if ms != [] { UnionWithout(ms[..|ms| - 1], x); }
  }

  lemma {:induction false} UnionAgree(ms: seq<Blocks>, ns: seq<Blocks>, x: Addr)
    requires |ns| == |ms| && forall k :: 0 <= k < |ms| ==> Agree(ms[k], ns[k], x)
    ensures Agree(Union(ms), Union(ns), x)
  {
    if ms != [] {
      var n := |ms| - 1;
      UnionAgree(ms[..n], ns[..n], x);
      assert Agree(ms[n], ns[n], x);
    }
  }

  /** The live blocks of each heap and their bytes. */
  ghost function Maps(v: seq<Store>): (ms: seq<Blocks>)
    requires Sound(v)
    ensures |ms| == |v| && forall i :: 0 <= i < |v| ==> ms[i] == Contents(v[i].heap, v[i].bytes)
  {
    seq(|v|, i requires 0 <= i < |v| => Contents(v[i].heap, v[i].bytes))
  }

  /** The users' view of all heaps: a map from live blocks to their bytes. */
  ghost function Memory(v: seq<Store>): Blocks
    requires Sound(v)
  {
    Union(Maps(v))
  }

  lemma MapsDisjoint(v: seq<Store>)
    requires Sound(v)
    ensures Disjoint(Maps(v))
  {
    var ms := Maps(v);
    forall i, j, x | 0 <= i < |ms| && 0 <= j < |ms| && x in ms[i] && x in ms[j] ensures i == j { OneHome(v, i, j, x); }
  }

  /** The block x of heap i has the bytes the map says. */
  lemma MemoryAt(v: seq<Store>, i: nat, x: Addr)
    requires Sound(v) && i < |v| && LiveAt(v[i].heap, x)
    ensures x in Memory(v) && Memory(v)[x] == Payload(v[i].heap, v[i].bytes, x)
  {
    MapsDisjoint(v);
    UnionAt(Maps(v), i, x);
  }

  lemma NotInMemory(v: seq<Store>, x: Addr)
    requires Sound(v) && !LiveSomewhere(v, x)
    ensures x !in Memory(v)
  {
    UnionWithout(Maps(v), x);
  }

  lemma SameAgree(s: Store, t: Store, x: Addr)
    requires Good(s) && Good(t) && Same(s.heap, s.bytes, t.heap, t.bytes, x)
    ensures Agree(Contents(s.heap, s.bytes), Contents(t.heap, t.bytes), x)
  {
  }

  /** Heap k says the same of every block but a and q, before and after. */
  ghost predicate SameElsewhere(s: Store, t: Store, a: Addr, q: Addr) {
    Good(s) && Good(t) && forall x :: x != a && x != q ==> Same(s.heap, s.bytes, t.heap, t.bytes, x)
  }

  /** What no heap changes, the map does not change. */
  lemma MemorySame(v: seq<Store>, w: seq<Store>, a: Addr, q: Addr)
    requires Sound(v) && Sound(w) && |w| == |v| && forall k :: 0 <= k < |v| ==> SameElsewhere(v[k], w[k], a, q)
    ensures forall x :: x != a && x != q ==> Agree(Memory(v), Memory(w), x)
  {
    forall x | x != a && x != q ensures Agree(Memory(v), Memory(w), x) {
      forall k | 0 <= k < |v| ensures Agree(Maps(v)[k], Maps(w)[k], x) {
        assert SameElsewhere(v[k], w[k], a, q);
        SameAgree(v[k], w[k], x);
      }
      UnionAgree(Maps(v), Maps(w), x);
    }
  }

  /** Only block a of heap i was given out or taken back. */
  ghost predicate Touched(v: seq<Store>, w: seq<Store>, i: nat, a: Addr) {
    && Sound(v) && Sound(w) && |w| == |v| && i < |v|
    && forall k :: 0 <= k < |v| ==> if k == i then SameElsewhere(v[k], w[k], a, a) else w[k] == v[k]
  }

  lemma TouchedElsewhere(v: seq<Store>, w: seq<Store>, i: nat, a: Addr)
    requires Touched(v, w, i, a)
    ensures forall k :: 0 <= k < |v| ==> SameElsewhere(v[k], w[k], a, a)
  {
  }

  lemma TouchedHome(v: seq<Store>, w: seq<Store>, i: nat, a: Addr)
    requires Touched(v, w, i, a)
    ensures LiveAt(w[i].heap, a) && !LiveAt(v[i].heap, a) ==> !LiveSomewhere(v, a)
    ensures LiveAt(v[i].heap, a) && !LiveAt(w[i].heap, a) ==> !LiveSomewhere(w, a)
  {
    if k :| 0 <= k < |v| && k != i && LiveAt(v[k].heap, a) && LiveAt(w[i].heap, a) { OneHome(w, i, k, a); }
    if k :| 0 <= k < |v| && k != i && LiveAt(w[k].heap, a) && LiveAt(v[i].heap, a) { OneHome(v, i, k, a); }
  }

  lemma TouchedMemory(v: seq<Store>, w: seq<Store>, i: nat, a: Addr)
    requires Touched(v, w, i, a)
    ensures Memory(w) - {a} == Memory(v) - {a}
  {
    TouchedElsewhere(v, w, i, a);
    MemorySame(v, w, a, a);
    AgreeBut(Memory(v), Memory(w), a, a);
    assert Memory(w) - {a, a} == Memory(w) - {a} && Memory(v) - {a, a} == Memory(v) - {a};
  }

  lemma AskedTouches(v: seq<Store>, w: seq<Store>, i: nat, size: nat, a: Addr)
    requires Asked(v, w, i, size, Some(a + HEADER)) && Sound(w)
    ensures Touched(v, w, i, a) && LiveAt(w[i].heap, a) && !LiveAt(v[i].heap, a) && BlockSize(w[i].heap, a) >= size
  {
  }

  lemma NewMemory(v: seq<Store>, w: seq<Store>, i: nat, a: Addr)
    requires Touched(v, w, i, a) && LiveAt(w[i].heap, a) && !LiveAt(v[i].heap, a)
    ensures a !in Memory(v) && a in Memory(w) && |Memory(w)[a]| == BlockSize(w[i].heap, a) && Memory(w) - {a} == Memory(v)
  {
    TouchedMemory(v, w, i, a);
    TouchedHome(v, w, i, a);
    NotInMemory(v, a);
    MemoryAt(w, i, a);
    Absent(Memory(v), a);
  }

  lemma Absent(m: Blocks, a: Addr)
    requires a !in m
    ensures m - {a} == m
  {
  }

  lemma AgreeBut(m: Blocks, n: Blocks, a: Addr, q: Addr)
    requires forall x :: x != a && x != q ==> Agree(m, n, x)
    ensures n - {a, q} == m - {a, q}
  {
    var c, d := m - {a, q}, n - {a, q};
    forall x ensures x in c <==> x in d { assert x != a && x != q ==> Agree(m, n, x); }
    forall x | x in c ensures d[x] == c[x] { assert Agree(m, n, x); }
    assert d.Keys == c.Keys;
  }

  /** rt_malloc adds one block to the map, or nothing if no heap can serve it. */
  lemma AllocatedMemory(v: seq<Store>, w: seq<Store>, system: nat, request: nat, ptr: Option<Addr>)
    requires Allocates(v, w, system, RequestSize(request), ptr) && Sound(w)
    ensures ptr.None? <==> forall k :: 0 <= k < |v| ==> !Runs.Served(v[k].heap, RequestSize(request))
    ensures ptr.None? ==> Memory(w) == Memory(v)
    ensures ptr.Some? ==>
      var a := ptr.value - HEADER;
      a !in Memory(v) && a in Memory(w) && |Memory(w)[a]| >= request && Memory(w) - {a} == Memory(v)
  {
    if ptr.Some? {
      RequestAligned(request);
      var i, a := Serving(v, system, RequestSize(request)), ptr.value - HEADER;
      AskedTouches(v, w, i, RequestSize(request), a);
      NewMemory(v, w, i, a);
    }
  }

  lemma FreesTouches(v: seq<Store>, w: seq<Store>, i: nat, a: Addr)
    requires Frees(v, w, i, a) && Sound(w)
    ensures Touched(v, w, i, a) && LiveAt(v[i].heap, a) && !LiveAt(w[i].heap, a)
  {
  }

  lemma GoneMemory(v: seq<Store>, w: seq<Store>, i: nat, a: Addr)
    requires Touched(v, w, i, a) && LiveAt(v[i].heap, a) && !LiveAt(w[i].heap, a)
    ensures a in Memory(v) && Memory(w) == Memory(v) - {a}
  {
    TouchedMemory(v, w, i, a);
    TouchedHome(v, w, i, a);
    NotInMemory(w, a);
    MemoryAt(v, i, a);
    Absent(Memory(w), a);
  }

  /** rt_free takes one block out of the map. */
  lemma FreedMemory(v: seq<Store>, w: seq<Store>, i: nat, a: Addr)
    requires Frees(v, w, i, a) && Sound(w)
    ensures a in Memory(v) && Memory(w) == Memory(v) - {a}
  {
    FreesTouches(v, w, i, a);
    GoneMemory(v, w, i, a);
  }

  /** A block has one home: the pools of two heaps share no address. */
  lemma CarriedApart(v: seq<Store>, w: seq<Store>, i: nat, a: Addr, j: nat, q: Addr, n: nat)
    requires Carried(v, w, i, a, j, q, n) && q != a
    ensures !LiveSomewhere(w, a) && !LiveSomewhere(v, q)
  {
    if LiveSomewhere(w, a) {
      var k :| 0 <= k < |w| && LiveAt(w[k].heap, a);
      assert Elsewhere(k, a, i, a, j, q);
      OneHome(v, i, k, a);
    }
    if LiveSomewhere(v, q) {
      var k :| 0 <= k < |v| && LiveAt(v[k].heap, q);
      assert Elsewhere(k, q, i, a, j, q);
      OneHome(w, j, k, q);
    }
  }

  /**
   rt_realloc of a live block to a nonzero size: null exactly when neither the block's own heap
   nor any other can give it, and then the map is unchanged; otherwise the block is replaced by
   one of at least the new size that starts with the same bytes, and the rest of the map stays.
   */
  lemma ReallocatedMemory(v: seq<Store>, w: seq<Store>, system: nat, i: nat, a: Addr, request: nat, r: Option<Addr>)
    requires Reallocates(v, w, system, i, a, request, r)
    ensures a in Memory(v)
    ensures r.None? <==>
      Stuck(v[i].heap, a, RequestSize(request)) && forall k :: 0 <= k < |v| ==> !Runs.Served(v[k].heap, RequestSize(request))
    ensures r.None? ==> Memory(w) == Memory(v)
    ensures r.Some? ==>
      var q := r.value - HEADER;
      && q in Memory(w) && |Memory(w)[q]| >= request && (q != a ==> q !in Memory(v) && a !in Memory(w))
      && Memory(w) - {a, q} == Memory(v) - {a, q}
      && forall b :: 0 <= b < |Memory(v)[a]| && b < request ==> Memory(w)[q][b] == Memory(v)[a][b]
  {
    MemoryAt(v, i, a);
    if r.Some? { CarriedMemory(v, w, i, a, NewHome(v, system, i, a, RequestSize(request)), r.value - HEADER, request); }
  }

  lemma CarriedMemory(v: seq<Store>, w: seq<Store>, i: nat, a: Addr, j: nat, q: Addr, n: nat)
    requires Carried(v, w, i, a, j, q, n)
    ensures a in Memory(v) && q in Memory(w) && |Memory(w)[q]| >= n && (q != a ==> q !in Memory(v) && a !in Memory(w))
    ensures Memory(w) - {a, q} == Memory(v) - {a, q}
    ensures forall b :: 0 <= b < |Memory(v)[a]| && b < n ==> Memory(w)[q][b] == Memory(v)[a][b]
  {
    MemoryAt(v, i, a);
    MemoryAt(w, j, q);
    if q != a {
      CarriedApart(v, w, i, a, j, q, n);
      NotInMemory(w, a);
      NotInMemory(v, q);
    }
    forall k | 0 <= k < |v| ensures SameElsewhere(v[k], w[k], a, q) {
      forall x | x != a && x != q ensures Same(v[k].heap, v[k].bytes, w[k].heap, w[k].bytes, x) {
        assert Elsewhere(k, x, i, a, j, q);
      }
    }
    MemorySame(v, w, a, q);
    AgreeBut(Memory(v), Memory(w), a, q);
  }
}
