/** Null-terminated singly linked lists: the node lists of message queues and memory pools. */
module SinglyLinked {
  import opened Wrappers
  import opened RtList

  const NULL: Node := -1

  /** The nodes of s, linked in this order from first to NULL. */
  ghost predicate Chain(next: map<Node, Node>, first: Node, s: seq<Node>)
    decreases |s|
  {
    if s == [] then first == NULL
    else first != NULL && first == s[0] && first in next && Chain(next, next[first], s[1..])
  }

  lemma {:induction false} ChainFrame(next: map<Node, Node>, first: Node, s: seq<Node>, n: Node, v: Node)
    requires Chain(next, first, s) && n !in Elems(s)
    ensures Chain(next[n := v], first, s)
    decreases |s|
  {
    if s != [] { ChainFrame(next, next[first], s[1..], n, v); }
  }

  lemma ChainPush(next: map<Node, Node>, first: Node, s: seq<Node>, n: Node)
    requires Chain(next, first, s) && n !in Elems(s) && n != NULL
    ensures Chain(next[n := first], n, [n] + s)
  {
    ChainFrame(next, first, s, n, first);
    assert ([n] + s)[1..] == s;
  }

  lemma {:induction false} ChainAppend(next: map<Node, Node>, first: Node, s: seq<Node>, n: Node)
    requires Chain(next, first, s) && s != [] && NoDuplicates(s) && n !in Elems(s) && n != NULL
    requires n in next && next[n] == NULL
    ensures s[|s| - 1] in next && Chain(next[s[|s| - 1] := n], first, s + [n])
    decreases |s|
  {
    var last := s[|s| - 1];
    assert (s + [n])[1..] == s[1..] + [n];
    if |s| == 1 {
      assert [n][1..] == [] && Chain(next[last := n], n, [n]);
    } else {
      ChainAppend(next, next[first], s[1..], n);
      assert s[0] != last;
    }
  }

  // ---------- the nodes of a list as a set ----------

  lemma {:induction false} ElemsSize(s: seq<int>)
    requires NoDuplicates(s)
    ensures |Elems(s)| == |s|
  {
    if s != [] {
      ElemsSize(s[1..]);
      InElems(s[1..], s[0]);
      assert Elems(s) == {s[0]} + Elems(s[1..]);
    }
  }

  lemma ElemsTail(s: seq<int>)
    requires s != [] && NoDuplicates(s)
    ensures s[0] in Elems(s) && Elems(s[1..]) == Elems(s) - {s[0]} && NoDuplicates(s[1..])
    ensures Elems(s) == {s[0]} + Elems(s[1..])
  {
    InElems(s[1..], s[0]);
    assert Elems(s) == {s[0]} + Elems(s[1..]);
  }

  lemma ElemsPush(n: int, s: seq<int>)
    requires NoDuplicates(s) && n !in Elems(s)
    ensures Elems([n] + s) == Elems(s) + {n} && NoDuplicates([n] + s)
  {
    assert [n] + s == Inserted(s, 0, n);
    InsertedElems(s, 0, n);
  }

  lemma ElemsAppend(n: int, s: seq<int>)
    requires NoDuplicates(s) && n !in Elems(s)
    ensures Elems(s + [n]) == Elems(s) + {n} && NoDuplicates(s + [n])
  {
    assert s + [n] == Inserted(s, |s|, n);
    InsertedElems(s, |s|, n);
  }
}
