/** The intrusive circular doubly linked list with a sentinel head. */
module LinkedList {

  /** A list node; the sentinel is one too. */
  class Node {
    var next: Node
    var prev: Node
    var conn: nat
    var epoch: int

    constructor ()
      ensures next == this && prev == this
    {
      next, prev := this, this;
      conn, epoch := 0, 0;
    }
  }

  ghost predicate Distinct(s: seq<Node>)
  {
    forall i, j :: 0 <= i < j < |s| ==> s[i] != s[j]
  }

  /** Neighbours in `s` point at each other. */
  ghost predicate Linked(s: seq<Node>)
    reads s
  {
    forall i, j :: 0 <= i < j < |s| && j == i + 1 ==> s[i].next == s[j] && s[j].prev == s[i]
  }

  lemma RemoveFromSeq(s: seq<Node>, k: nat)
    requires Distinct(s) && k < |s|
    ensures var r := s[..k] + s[k + 1..];
      Distinct(r) && (set n | n in r) == (set n | n in s) - {s[k]}
  {
    var r := s[..k] + s[k + 1..];
    forall n | n in s && n != s[k]
      ensures n in r
    {
      var i :| 0 <= i < |s| && s[i] == n;
      assert r[if i < k then i else i - 1] == n;
    }
  }

  /** Joins the neighbours of `s[k]`. */
  method Join(ghost s: seq<Node>, ghost k: nat, node: Node)
    requires Linked(s) && 0 < k < |s| - 1 && s[k] == node
    requires Distinct(s[1..]) && Distinct(s[..|s| - 1])
    modifies node.next`prev, node.prev`next
    ensures Linked(s[..k] + s[k + 1..])
  {
    assert s[k - 1].next == s[k] && s[k].prev == s[k - 1];
    assert s[k].next == s[k + 1] && s[k + 1].prev == s[k];
    ghost var now := s[..k] + s[k + 1..];
    assert forall i :: 0 <= i < k ==> now[i] == s[i];
    assert forall i :: k <= i < |now| ==> now[i] == s[i + 1];
    assert forall i :: 1 <= i < |s| ==> s[1..][i - 1] == s[i];
    assert forall i :: 0 <= i < |s| - 1 ==> s[..|s| - 1][i] == s[i];
    node.next.prev := node.prev;
    node.prev.next := node.next;
  }

  class List {
    const head: Node
    /** The nodes in order, without the sentinel. */
    ghost var elems: seq<Node>

    ghost function Nodes(): set<Node>
      reads this
    {
      {head} + set n | n in elems
    }

    /** From the sentinel through the nodes and back, in both directions. */
    ghost predicate Valid()
      reads this, Nodes()
    {
      && head !in elems
      && Distinct(elems)
      && Linked([head] + elems + [head])
    }

    constructor ()
      ensures Valid() && elems == [] && fresh(head)
    {
      head := new Node();
      elems := [];
    }

    /** add: in front of the first node. */
    method Add(node: Node)
      requires Valid() && node !in Nodes()
      modifies this, Nodes()`next, Nodes()`prev, node`next, node`prev
      ensures Valid() && elems == [node] + old(elems) && Nodes() == old(Nodes()) + {node}
    {
      ghost var ring := [head] + elems + [head];
      assert ring[0].next == ring[1];
      head.next.prev := node;
      node.next := head.next;
      node.prev := head;
      head.next := node;
      elems := [node] + elems;
      ghost var now := [head] + elems + [head];
      assert forall i :: 2 <= i < |now| ==> now[i] == ring[i - 1];
    }

    /** addLast: behind the last node. */
    method AddLast(node: Node)
      requires Valid() && node !in Nodes()
      modifies this, Nodes()`next, Nodes()`prev, node`next, node`prev
      ensures Valid() && elems == old(elems) + [node] && Nodes() == old(Nodes()) + {node}
    {
      ghost var ring := [head] + elems + [head];
      ghost var n := |elems|;
      assert ring[n].next == ring[n + 1] && ring[n + 1].prev == ring[n];
      head.prev.next := node;
      node.prev := head.prev;
      node.next := head;
      head.prev := node;
      elems := elems + [node];
      ghost var now := [head] + elems + [head];
      assert forall i :: 0 <= i <= n ==> now[i] == ring[i];
    }

    /** remove: joins the node's neighbours. */
    method Remove(node: Node, ghost k: nat)
      requires Valid() && k < |elems| && elems[k] == node
      modifies this, Nodes()`next, Nodes()`prev
      ensures Valid() && elems == old(elems)[..k] + old(elems)[k + 1..]
      ensures Nodes() == old(Nodes()) - {node}
    {
      ghost var ring := [head] + elems + [head];
      assert ring[1..] == elems + [head] && ring[..|ring| - 1] == [head] + elems;
      assert ring[k].next == ring[k + 1] && ring[k + 1].prev == ring[k];
      assert ring[k + 1].next == ring[k + 2] && ring[k + 2].prev == ring[k + 1];
      assert node.prev in Nodes() && node.next in Nodes();
      RemoveFromSeq(elems, k);
      assert Distinct(ring[1..]) && Distinct(ring[..|ring| - 1]);
      hide Distinct, Linked;
      Join(ring, k + 1, node);
      assert ring[..k + 1] + ring[k + 2..] == [head] + (elems[..k] + elems[k + 1..]) + [head];
      elems := elems[..k] + elems[k + 1..];
    }

    /** first, or nothing when the sentinel points at itself. */
    method First() returns (node: Node?)
      requires Valid()
      ensures node == null <==> elems == []
      ensures node != null ==> node == elems[0]
    {
      ghost var ring := [head] + elems + [head];
      assert ring[0].next == ring[1];
      node := if head.next == head then null else head.next;
    }
  }
}
