/** The bytes behind the blocks of mem.c: headers, payloads, and what an operation does to them. */
module SmallBytes {
  import opened RtList
  import HeapBlocks
  import opened SmallBlocks
  import opened SmallRuns

  type Byte = int

  predicate InHeader(a: Addr, p: int) { a <= p < a + STRUCT_MEM }

  /** p lies in none of the headers hs. */
  ghost predicate Outside(hs: set<Addr>, p: int) {
    forall a :: a in hs ==> !InHeader(a, p)
  }

  /** c differs from b only inside the headers hs. */
  ghost predicate OnlyHeaders(b: seq<Byte>, c: seq<Byte>, hs: set<Addr>) {
    |c| == |b| && forall p :: 0 <= p < |b| && Outside(hs, p) ==> c[p] == b[p]
  }

  /** The headers hs lie within n bytes. */
  ghost predicate Fit(hs: set<Addr>, n: int) {
    forall a :: a in hs ==> 0 <= a && a + STRUCT_MEM <= n
  }

  function HeapBytes(memSize: nat): nat { memSize + 2 * STRUCT_MEM }

  lemma HeadersFit(s: Small)
    requires Tiles(s)
    ensures Fit(Elems(s.blocks), HeapBytes(s.memSize))
  {
    var d, b := STRUCT_MEM + MinData(s.memSize), s.blocks;
    forall a | a in Elems(b) ensures 0 <= a && a + STRUCT_MEM <= HeapBytes(s.memSize) {
      InElems(b, a);
      var k :| 0 <= k < |b| && b[k] == a;
      if k > 0 { HeapBlocks.SpacedPair(b, d, 0, k); }
      if k < |b| - 1 { HeapBlocks.SpacedPair(b, d, k, |b| - 1); }
    }
  }

  /** No payload byte of a block belongs to any header. */
  lemma PayloadOutside(s: Small, a: Addr, e: Addr, p: int)
    requires Tiles(s) && Extent(s.blocks, a, e) && a + STRUCT_MEM <= p < e
    ensures Outside(Elems(s.blocks), p) && 0 <= p < HeapBytes(s.memSize)
  {
    var d, b := STRUCT_MEM + MinData(s.memSize), s.blocks;
    var k := ExtentAt(b, a, e);
    forall h | h in Elems(b) ensures !InHeader(h, p) {
      InElems(b, h);
      var j :| 0 <= j < |b| && b[j] == h;
      if j < k { HeapBlocks.SpacedPair(b, d, j, k); }
      if k + 1 < j { HeapBlocks.SpacedPair(b, d, k + 1, j); }
    }
    if k > 0 { HeapBlocks.SpacedPair(b, d, 0, k); }
    if k + 1 < |b| - 1 { HeapBlocks.SpacedPair(b, d, k + 1, |b| - 1); }
  }

  /** Payloads of different blocks do not overlap. */
  lemma PayloadsDisjoint(s: Small, a: Addr, e: Addr, x: Addr, f: Addr, p: int)
    requires Tiles(s) && Extent(s.blocks, a, e) && Extent(s.blocks, x, f) && a != x
    ensures !(a + STRUCT_MEM <= p < e && x + STRUCT_MEM <= p < f)
  {
    var d, b := STRUCT_MEM + MinData(s.memSize), s.blocks;
    var k := ExtentAt(b, a, e);
    var j := ExtentAt(b, x, f);
    if k + 1 < j { HeapBlocks.SpacedPair(b, d, k + 1, j); }
    if j + 1 < k { HeapBlocks.SpacedPair(b, d, j + 1, k); }
  }

  /** Payload byte k of the block with header a. */
  function Cell(b: seq<Byte>, a: Addr, k: int): Byte {
    if 0 <= a + STRUCT_MEM + k < |b| then b[a + STRUCT_MEM + k] else 0
  }

  /** The first n payload bytes of q in c are those of a in b. */
  ghost predicate Carried(b: seq<Byte>, c: seq<Byte>, a: Addr, q: Addr, n: int) {
    forall k :: 0 <= k < n ==> Cell(c, q, k) == Cell(b, a, k)
  }

  /** Number of payload bytes of the block from a up to e. */
  function Room(a: Addr, e: Addr): int { e - a - STRUCT_MEM }

  /** The live blocks other than a and their payloads are the same before and after. */
  ghost predicate Intact(s: Small, b: seq<Byte>, r: Small, c: seq<Byte>, a: Addr) {
    && OthersSame(s, r, a)
    && forall x, e :: x != a && Holds(s, x, e) ==> Carried(b, c, x, x, Room(x, e))
  }

  /** Payload bytes that the block x has before and after do not change. */
  lemma PayloadKept(s: Small, r: Small, b: seq<Byte>, c: seq<Byte>, x: Addr, e: Addr, f: Addr)
    requires Tiles(s) && Tiles(r) && Extent(s.blocks, x, e) && Extent(r.blocks, x, f)
    requires OnlyHeaders(b, c, Elems(s.blocks) + Elems(r.blocks))
    ensures Carried(b, c, x, x, if e < f then Room(x, e) else Room(x, f))
  {
    forall k | 0 <= k < Room(x, e) && k < Room(x, f) ensures Cell(c, x, k) == Cell(b, x, k) {
      var p := x + STRUCT_MEM + k;
      PayloadOutside(s, x, e, p);
      PayloadOutside(r, x, f, p);
      assert Outside(Elems(s.blocks) + Elems(r.blocks), p);
    }
  }

  /** Writing headers, old and new, leaves every block intact that stays where it is. */
  lemma IntactStep(s: Small, r: Small, b: seq<Byte>, c: seq<Byte>, a: Addr)
    requires Tiles(s) && Tiles(r) && OthersSame(s, r, a) && OnlyHeaders(b, c, Elems(s.blocks) + Elems(r.blocks))
    ensures Intact(s, b, r, c, a)
  {
    forall x, e | x != a && Holds(s, x, e) ensures Carried(b, c, x, x, Room(x, e)) {
      assert Holds(r, x, e);
      PayloadKept(s, r, b, c, x, e, e);
    }
  }

  /** c is b with n bytes copied from the payload of a to the payload of q. */
  ghost predicate Copied(b: seq<Byte>, c: seq<Byte>, a: Addr, q: Addr, n: int) {
    && |c| == |b|
    && (forall p :: 0 <= p < |b| && !(q + STRUCT_MEM <= p < q + STRUCT_MEM + n) ==> c[p] == b[p])
    && Carried(b, c, a, q, n)
  }

  function Least(m: int, n: int): int { if m < n then m else n }

  /**
   The block a of s has become the block q of r, with room for size bytes: its first
   min(old, new) bytes are those of a, and all other live blocks are as they were.
   */
  ghost predicate Resized(s: Small, b: seq<Byte>, r: Small, c: seq<Byte>, a: Addr, q: Addr, size: nat) {
    && HasRoom(r, q, size)
    && (forall x, e :: x != a && x != q ==> (Holds(s, x, e) <==> Holds(r, x, e)))
    && (forall x, e :: x != a && x != q && Holds(s, x, e) ==> Carried(b, c, x, x, Room(x, e)))
    && (forall e :: Holds(s, a, e) ==> Carried(b, c, a, q, Least(Room(a, e), size)))
    && (q != a ==> forall e :: !Holds(s, q, e) && !Holds(r, a, e))
  }

  lemma ExtentUnique(s: Small, a: Addr, e: Addr, f: Addr)
    requires Tiles(s) && Extent(s.blocks, a, e) && Extent(s.blocks, a, f)
    ensures e == f
  {
    TilesDistinct(s);
    var j := ExtentAt(s.blocks, a, e);
    var k := ExtentAt(s.blocks, a, f);
  }

  /** Copying into the payload of q leaves the payload of another block x alone. */
  lemma CopyElsewhere(s: Small, b: seq<Byte>, c: seq<Byte>, a: Addr, q: Addr, f: Addr, n: int, x: Addr, e: Addr)
    requires Tiles(s) && Extent(s.blocks, q, f) && Extent(s.blocks, x, e) && x != q
    requires n <= Room(q, f) && Copied(b, c, a, q, n)
    ensures Carried(b, c, x, x, Room(x, e))
  {
    forall k | 0 <= k < Room(x, e) ensures Cell(c, x, k) == Cell(b, x, k) {
      PayloadsDisjoint(s, q, f, x, e, x + STRUCT_MEM + k);
    }
  }

  lemma CarriedTwice(b: seq<Byte>, c: seq<Byte>, d: seq<Byte>, x: Addr, y: Addr, z: Addr, m: int, n: int)
    requires Carried(b, c, x, y, m) && Carried(c, d, y, z, n)
    ensures Carried(b, d, x, z, Least(m, n))
  {
    forall k | 0 <= k < Least(m, n) ensures Cell(d, z, k) == Cell(b, x, k) {
      assert Cell(d, z, k) == Cell(c, y, k) == Cell(b, x, k);
    }
  }

  /** A block x that takes no part keeps its payload through allocation, copy and free. */
  lemma MoveOthers(s: Small, b: seq<Byte>, t: Small, b1: seq<Byte>, b2: seq<Byte>, r: Small, b3: seq<Byte>,
                   a: Addr, q: Addr, f: Addr, n: int, x: Addr, e: Addr)
    requires Tiles(t) && Intact(s, b, t, b1, q) && Holds(t, q, f) && n <= Room(q, f)
    requires Copied(b1, b2, a, q, n) && Intact(t, b2, r, b3, a)
    requires x != a && x != q && Holds(s, x, e)
    ensures Carried(b, b3, x, x, Room(x, e))
  {
    assert Holds(t, x, e);
    CopyElsewhere(t, b1, b2, a, q, f, n, x, e);
    CarriedTwice(b, b1, b2, x, x, x, Room(x, e), Room(x, e));
    CarriedTwice(b, b2, b3, x, x, x, Room(x, e), Room(x, e));
  }

  /** Allocate, copy and free together move a block with its bytes. */
  lemma MoveResult(s: Small, b: seq<Byte>, t: Small, b1: seq<Byte>, b2: seq<Byte>, r: Small, b3: seq<Byte>,
                   a: Addr, e: Addr, q: Addr, f: Addr, size: nat)
    requires Tiles(s) && Tiles(t) && a != q && q !in s.used && a !in r.used
    requires Holds(s, a, e) && Holds(t, q, f) && Room(q, f) >= size
    requires Intact(s, b, t, b1, q) && Copied(b1, b2, a, q, Least(Room(a, e), size)) && Intact(t, b2, r, b3, a)
    ensures Resized(s, b, r, b3, a, q, size)
  {
    var n := Least(Room(a, e), size);
    assert Holds(r, q, f) && f - q - STRUCT_MEM >= size;
    assert Carried(b, b1, a, a, Room(a, e));
    CarriedTwice(b, b1, b2, a, a, q, Room(a, e), n);
    assert Carried(b2, b3, q, q, Room(q, f));
    CarriedTwice(b, b2, b3, a, q, q, n, Room(q, f));
    forall g | Holds(s, a, g) ensures Carried(b, b3, a, q, Least(Room(a, g), size)) { ExtentUnique(s, a, e, g); }
    forall x, g | x != a && x != q && Holds(s, x, g) ensures Carried(b, b3, x, x, Room(x, g)) {
      MoveOthers(s, b, t, b1, b2, r, b3, a, q, f, n, x, g);
    }
    forall x, g | x != a && x != q ensures Holds(s, x, g) <==> Holds(r, x, g) {
      assert Holds(s, x, g) <==> Holds(t, x, g);
    }
  }

  /** An operation on a that leaves it size bytes at the same place. */
  lemma ResizedInPlace(s: Small, b: seq<Byte>, r: Small, c: seq<Byte>, a: Addr, size: nat)
    requires Tiles(s) && Tiles(r) && OthersSame(s, r, a) && OnlyHeaders(b, c, Elems(s.blocks) + Elems(r.blocks))
    requires Holds(r, a, a + STRUCT_MEM + size)
    ensures Resized(s, b, r, c, a, a, size)
  {
    IntactStep(s, r, b, c, a);
    assert (a + STRUCT_MEM + size) - a - STRUCT_MEM >= size;
    forall e | Holds(s, a, e) ensures Carried(b, c, a, a, Least(Room(a, e), size)) {
      PayloadKept(s, r, b, c, a, e, a + STRUCT_MEM + size);
    }
  }
}
