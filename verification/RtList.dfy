/** The circular doubly linked lists of rtservice.h; also the shape of the two lists in memheap.c. */
module RtList {
  import opened Wrappers

  type Node = int

  /** The next and prev fields of all nodes. */
  datatype Links = Links(next: map<Node, Node>, prev: map<Node, Node>)

  /** a is directly followed by b. */
  ghost predicate Edge(l: Links, a: Node, b: Node) {
    a in l.next && l.next[a] == b && b in l.prev && l.prev[b] == a
  }

  /** Each node of s is directly followed by the next one. */
  ghost predicate Path(l: Links, s: seq<Node>) {
    |s| >= 2 ==> Edge(l, s[|s| - 2], s[|s| - 1]) && Path(l, s[..|s| - 1])
  }

  ghost predicate Distinct(s: seq<Node>) {
    s != [] ==> s[|s| - 1] !in s[..|s| - 1] && Distinct(s[..|s| - 1])
  }

  /** The nodes of s form one ring, in this order; s[0] is the list head. */
  ghost predicate Ring(l: Links, s: seq<Node>) {
    s != [] && Distinct(s) && Path(l, s) && Edge(l, s[|s| - 1], s[0])
  }

  /** Ring, node by node. */
  ghost predicate RingByNode(l: Links, s: seq<Node>) {
    && s != []
    && NoDuplicates(s)
    && (forall i, j :: 0 <= i < j < |s| && j == i + 1 ==> Edge(l, s[i], s[j]))
    && Edge(l, s[|s| - 1], s[0])
  }

  lemma {:induction false} DistinctIff(s: seq<Node>)
    ensures Distinct(s) <==> NoDuplicates(s)
  {
    if s != [] {
      var t := s[..|s| - 1];
      DistinctIff(t);
      assert s == t + [s[|s| - 1]];
    }
  }

  lemma {:induction false} PathIff(l: Links, s: seq<Node>)
    ensures Path(l, s) <==> forall i, j :: 0 <= i < j < |s| && j == i + 1 ==> Edge(l, s[i], s[j])
  {
    if |s| >= 2 {
      var t := s[..|s| - 1];
      PathIff(l, t);
      if Path(l, s) {
        forall i, j | 0 <= i < j < |s| && j == i + 1 ensures Edge(l, s[i], s[j]) {
          if j < |t| { assert Edge(l, t[i], t[j]); }
        }
      }
      if forall i, j :: 0 <= i < j < |s| && j == i + 1 ==> Edge(l, s[i], s[j]) {
        assert Edge(l, s[|s| - 2], s[|s| - 1]);
        forall i, j | 0 <= i < j < |t| && j == i + 1 ensures Edge(l, t[i], t[j]) { assert Edge(l, s[i], s[j]); }
      }
    }
  }

  lemma RingIff(l: Links, s: seq<Node>)
    ensures Ring(l, s) <==> RingByNode(l, s)
  {
    DistinctIff(s);
    PathIff(l, s);
  }

  /** rt_list_init */
  function Init(l: Links, n: Node): Links {
    Links(l.next[n := n], l.prev[n := n])
  }

  /** rt_list_insert_after */
  function InsertAfter(l: Links, a: Node, n: Node): Links
    requires a in l.next
  {
    var b := l.next[a];
    Links(l.next[n := b][a := n], l.prev[b := n][n := a])
  }

  /** rt_list_insert_before */
  function InsertBefore(l: Links, a: Node, n: Node): Links
    requires a in l.prev
  {
    var b := l.prev[a];
    Links(l.next[b := n][n := a], l.prev[n := b][a := n])
  }

  /** The two writes that take n out of its list; n keeps its own links. */
  function Unlink(l: Links, n: Node): Links
    requires n in l.next && n in l.prev
  {
    Links(l.next[l.prev[n] := l.next[n]], l.prev[l.next[n] := l.prev[n]])
  }

  /** rt_list_remove */
  function Remove(l: Links, n: Node): Links
    requires n in l.next && n in l.prev
  {
    Init(Unlink(l, n), n)
  }

  ghost predicate IsInserted<T>(s: seq<T>, i: nat, n: T, r: seq<T>) {
    && i <= |s| && |r| == |s| + 1 && r[i] == n
    && (forall k :: 0 <= k < i ==> r[k] == s[k])
    && (forall k :: i < k < |r| ==> r[k] == s[k - 1])
  }

  /** s with n put in at position i. */
  ghost function Inserted<T>(s: seq<T>, i: nat, n: T): (r: seq<T>)
    requires i <= |s|
    ensures IsInserted(s, i, n, r)
  {
    assert IsInserted(s, i, n, s[..i] + [n] + s[i..]);
    var r :| IsInserted(s, i, n, r);
    r
  }

  ghost predicate IsRemoved<T>(s: seq<T>, i: nat, r: seq<T>) {
    && i < |s| && |r| == |s| - 1
    && (forall k :: 0 <= k < i ==> r[k] == s[k])
    && (forall k :: i <= k < |r| ==> r[k] == s[k + 1])
  }

  /** s without its element at position i. */
  ghost function Removed<T>(s: seq<T>, i: nat): (r: seq<T>)
    requires i < |s|
    ensures IsRemoved(s, i, r)
  {
    assert IsRemoved(s, i, s[..i] + s[i + 1..]);
    var r :| IsRemoved(s, i, r);
    r
  }

  lemma InitRing(l: Links, n: Node)
    ensures Ring(Init(l, n), [n])
  {
    RingIff(Init(l, n), [n]);
  }

  lemma InsertedMembers<T>(s: seq<T>, i: nat, n: T)
    requires i <= |s|
    ensures forall x :: x in Inserted(s, i, n) <==> x in s || x == n
    ensures NoDuplicates(s) && n !in s ==> NoDuplicates(Inserted(s, i, n))
  {
    assert Inserted(s, i, n) == s[..i] + [n] + s[i..];
    assert s == s[..i] + s[i..];
  }

  lemma RemovedMembers<T>(s: seq<T>, i: nat)
    requires i < |s| && NoDuplicates(s)
    ensures forall x :: x in Removed(s, i) <==> x in s && x != s[i]
    ensures NoDuplicates(Removed(s, i))
  {
    assert Removed(s, i) == s[..i] + s[i + 1..];
    assert s == s[..i] + [s[i]] + s[i + 1..];
  }

  /** The element after position i, going round. */
  function After(s: seq<Node>, i: nat): Node
    requires i < |s|
  {
    if i + 1 == |s| then s[0] else s[i + 1]
  }

  lemma RingEdge(l: Links, s: seq<Node>, i: nat)
    requires Ring(l, s) && i < |s|
    ensures Edge(l, s[i], After(s, i))
  {
    RingIff(l, s);
  }

  lemma RingDistinct(l: Links, s: seq<Node>)
    requires Ring(l, s)
    ensures NoDuplicates(s)
  {
    DistinctIff(s);
  }

  lemma RingByEdges(l: Links, s: seq<Node>)
    requires s != [] && NoDuplicates(s)
    requires forall i: nat :: i < |s| ==> Edge(l, s[i], After(s, i))
    ensures Ring(l, s)
  {
    forall i, j | 0 <= i < j < |s| && j == i + 1 ensures Edge(l, s[i], s[j]) {
      assert Edge(l, s[i], After(s, i));
    }
    assert Edge(l, s[|s| - 1], After(s, |s| - 1));
    RingIff(l, s);
  }

  lemma AfterInjective(s: seq<Node>, i: nat, j: nat)
    requires NoDuplicates(s) && i < |s| && j < |s| && i != j
    ensures s[i] != s[j] && After(s, i) != After(s, j)
  {
  }

  /** Inserting between neighbours a and b keeps every edge that leaves neither a nor n. */
  lemma InsertKeepsEdge(l: Links, a: Node, n: Node, x: Node, y: Node)
    requires a in l.next && Edge(l, x, y)
    requires x != a && x != n && y != l.next[a] && y != n
    ensures Edge(InsertAfter(l, a, n), x, y)
  {
  }

  /** The values in s. */
  ghost function Elems(s: seq<int>): set<int> {
    if s == [] then {} else {s[0]} + Elems(s[1..])
  }

  lemma {:induction false} InElems(s: seq<int>, x: int)
    ensures x in Elems(s) <==> x in s
  {
    if s != [] {
      InElems(s[1..], x);
      assert s == [s[0]] + s[1..];
    }
  }

  lemma InsertedElems(s: seq<int>, i: nat, n: int)
    requires i <= |s|
    ensures Elems(Inserted(s, i, n)) == Elems(s) + {n}
    ensures NoDuplicates(s) && n !in Elems(s) ==> NoDuplicates(Inserted(s, i, n))
  {
    InsertedMembers(s, i, n);
    InElems(s, n);
    forall x ensures x in Elems(Inserted(s, i, n)) <==> x in Elems(s) + {n} {
      InElems(s, x);
      InElems(Inserted(s, i, n), x);
    }
  }

  lemma RemovedElems(s: seq<int>, i: nat)
    requires i < |s| && NoDuplicates(s)
    ensures Elems(Removed(s, i)) == Elems(s) - {s[i]}
    ensures NoDuplicates(Removed(s, i))
  {
    RemovedMembers(s, i);
    forall x ensures x in Elems(Removed(s, i)) <==> x in Elems(s) - {s[i]} {
      InElems(s, x);
      InElems(Removed(s, i), x);
    }
  }

  lemma InsertAfterRing(l: Links, s: seq<Node>, i: nat, n: Node)
    requires Ring(l, s) && i < |s| && n !in s
    ensures s[i] in l.next
    ensures Ring(InsertAfter(l, s[i], n), Inserted(s, i + 1, n))
  {
    RingEdge(l, s, i);
    RingDistinct(l, s);
    var r := Inserted(s, i + 1, n);
    var l' := InsertAfter(l, s[i], n);
    InsertedMembers(s, i + 1, n);
    forall k: nat | k < |r| ensures Edge(l', r[k], After(r, k)) {
      if k < i || k > i + 1 {
        var j := if k < i then k else k - 1;
        assert r[k] == s[j] && After(r, k) == After(s, j);
        RingEdge(l, s, j);
        AfterInjective(s, i, j);
        assert After(s, j) in s;
        InsertKeepsEdge(l, s[i], n, s[j], After(s, j));
      }
    }
    RingByEdges(l', r);
  }

  lemma InsertBeforeRing(l: Links, s: seq<Node>, n: Node)
    requires Ring(l, s) && n !in s
    ensures s[0] in l.prev
    ensures Ring(InsertBefore(l, s[0], n), s + [n])
  {
    InsertAfterRing(l, s, |s| - 1, n);
    assert Inserted(s, |s|, n) == s + [n];
    assert InsertBefore(l, s[0], n).next == InsertAfter(l, s[|s| - 1], n).next;
    assert InsertBefore(l, s[0], n).prev == InsertAfter(l, s[|s| - 1], n).prev;
  }

  lemma UnlinkRing(l: Links, s: seq<Node>, i: nat)
    requires Ring(l, s) && 0 < i < |s|
    ensures s[i] in l.next && s[i] in l.prev
    ensures l.prev[s[i]] == s[i - 1] && l.next[s[i]] == After(s, i)
    ensures Ring(Unlink(l, s[i]), Removed(s, i))
  {
    RingEdge(l, s, i - 1);
    RingEdge(l, s, i);
    RingDistinct(l, s);
    var r := Removed(s, i);
    var l' := Unlink(l, s[i]);
    RemovedMembers(s, i);
    forall k: nat | k < |r| ensures Edge(l', r[k], After(r, k)) {
      if k == i - 1 {
        assert After(r, k) == After(s, i);
      } else {
        var j := if k < i then k else k + 1;
        assert r[k] == s[j] && After(r, k) == After(s, j);
        RingEdge(l, s, j);
        AfterInjective(s, i, j);
        AfterInjective(s, i - 1, j);
      }
    }
    RingByEdges(l', r);
  }

  /** Nodes outside the ring may be rewritten freely. */
  lemma RingFrame(l: Links, l': Links, s: seq<Node>)
    requires Ring(l, s)
    requires forall k :: 0 <= k < |s| ==> s[k] in l'.next && s[k] in l'.prev
    requires forall k :: 0 <= k < |s| && s[k] in l.next ==> l'.next[s[k]] == l.next[s[k]]
    requires forall k :: 0 <= k < |s| && s[k] in l.prev ==> l'.prev[s[k]] == l.prev[s[k]]
    ensures Ring(l', s)
  {
    RingDistinct(l, s);
    forall i: nat | i < |s| ensures Edge(l', s[i], After(s, i)) {
      RingEdge(l, s, i);
      var j := if i + 1 == |s| then 0 else i + 1;
      assert After(s, i) == s[j];
      RingEdge(l, s, j);
    }
    RingByEdges(l', s);
  }

  /** rt_list_remove undoes rt_list_insert_after and leaves n in a ring of its own. */
  lemma RemoveInserted(l: Links, s: seq<Node>, i: nat, n: Node)
    requires Ring(l, s) && i < |s| && n !in s
    ensures s[i] in l.next
    ensures var r := InsertAfter(l, s[i], n);
      n in r.next && n in r.prev && Ring(Remove(r, n), s) && Ring(Remove(r, n), [n])
  {
    InsertAfterRing(l, s, i, n);
    var r := InsertAfter(l, s[i], n);
    UnlinkRing(r, Inserted(s, i + 1, n), i + 1);
    assert Removed(Inserted(s, i + 1, n), i + 1) == s;
    var u := Unlink(r, n);
    forall k: nat | k < |s| ensures s[k] in u.next && s[k] in u.prev && s[k] != n {
      RingEdge(u, s, k);
      RingEdge(u, s, if k == 0 then |s| - 1 else k - 1);
    }
    RingFrame(u, Init(u, n), s);
    InitRing(u, n);
  }

  /** rt_list_len */
  method ListLen(l: Links, head: Node, ghost s: seq<Node>) returns (len: nat)
    requires Ring(l, s) && s[0] == head
    ensures len == |s| - 1
  {
    len := 0;
    var p := head;
    RingEdge(l, s, 0);
    RingDistinct(l, s);
    while l.next[p] != head
      invariant 0 <= len < |s| && p == s[len]
      invariant p in l.next && l.next[p] == After(s, len)
      decreases |s| - len
    {
      p := l.next[p];
      len := len + 1;
      RingEdge(l, s, len);
    }
  }
}
