/** A queue that keeps its spent nodes for reuse. Queued values are addresses;
    0 is the null pointer. */
module SimpleQueues {
  import opened Common

  type Pointer = nat

  const DEFAULT_NODE_COUNT := 1024

  class Node {
    var next: Node?
    var v: Pointer

    constructor ()
    {
      next, v := null, 0;
    }
  }

  /** The null-terminated list that starts at `head` is `s`, without repetition. */
  ghost predicate Chain(head: Node?, s: seq<Node>)
    reads s`next
  {
    && head == (if s == [] then null else s[0])
    && (forall i, j :: 0 <= i < j < |s| ==> s[i] != s[j])
    && (forall i, j :: 0 <= i < j < |s| && j == i + 1 ==> s[i].next == s[j])
    && (s != [] ==> s[|s| - 1].next == null)
  }

  lemma ChainHead(head: Node?, s: seq<Node>)
    requires Chain(head, s)
    ensures head == if s == [] then null else s[0]
  {
  }

  lemma ChainTail(head: Node?, s: seq<Node>)
    requires Chain(head, s) && s != []
    ensures Chain(s[0].next, s[1..]) && s[0] !in s[1..]
  {
  }

  lemma ChainCons(t: Node, s: seq<Node>)
    requires Chain(t.next, s) && t !in s
    ensures Chain(t, [t] + s)
  {
  }

  ghost predicate Apart(a: seq<Node>, b: seq<Node>)
  {
    forall i, j :: 0 <= i < |a| && 0 <= j < |b| ==> a[i] != b[j]
  }

  /** `live` and `free` share no node and lie within `nodes`, and there are as many
      of them as there are nodes. */
  ghost predicate Covers(nodes: set<Node>, live: seq<Node>, free: seq<Node>)
  {
    && (forall i :: 0 <= i < |live| ==> live[i] in nodes)
    && (forall i :: 0 <= i < |free| ==> free[i] in nodes)
    && Apart(live, free)
    && |nodes| == |live| + |free|
  }

  lemma CoversSpent(nodes: set<Node>, live: seq<Node>, free: seq<Node>)
    requires Covers(nodes, live, free) && live != [] && live[0] !in live[1..]
    ensures Covers(nodes, live[1..], [live[0]] + free)
    ensures live[0] in nodes && live[0] !in free
  {
  }

  lemma CoversStocked(nodes: set<Node>, live: seq<Node>, free: seq<Node>, node: Node)
    requires Covers(nodes, live, free) && node !in nodes
    ensures Covers(nodes + {node}, live, [node] + free)
    ensures node !in live && node !in free
  {
  }

  /** Reuse: the first idle node becomes the last queued one. */
  lemma CoversReused(nodes: set<Node>, live: seq<Node>, free: seq<Node>)
    requires Covers(nodes, live, free) && free != [] && free[0] !in free[1..]
    ensures Covers(nodes, live + [free[0]], free[1..])
    ensures free[0] in nodes && free[0] !in live
  {
  }

  lemma CoversApart(nodes: set<Node>, live: seq<Node>, node: Node, free: seq<Node>)
    requires Covers(nodes, live + [node], free)
    ensures Apart(live + [node], free)
  {
  }

  ghost predicate Carries(s: seq<Node>, contents: seq<Pointer>)
    reads s`v
  {
    |s| == |contents| && forall i :: 0 <= i < |s| ==> s[i].v == contents[i]
  }

  lemma CarriesTail(s: seq<Node>, contents: seq<Pointer>)
    requires Carries(s, contents) && s != []
    ensures |contents| == |s| && s[0].v == contents[0] && Carries(s[1..], contents[1..])
  {
  }

  lemma CarriesMore(s: seq<Node>, contents: seq<Pointer>, n: Node)
    requires Carries(s, contents)
    ensures Carries(s + [n], contents + [n.v])
  {
  }

  class SimpleQueue {
    var idle: Node?
    var list: Node?
    var tail: Node?
    var size: nat
    /** The queued nodes, the nodes kept for reuse, all nodes ever allocated, and
        the queued values. */
    ghost var live: seq<Node>
    ghost var free: seq<Node>
    ghost var nodes: set<Node>
    ghost var contents: seq<Pointer>

    /** Every node is queued or idle and never both, and the queued nodes hold the
        contents in order. */
    ghost predicate Shape(head: Node?)
      reads this`idle, this`nodes, this`live, this`free, this`contents, live, free
    {
      && Covers(nodes, live, free)
      && Chain(head, live)
      && Chain(idle, free)
      && Carries(live, contents)
    }

    ghost predicate Valid()
      reads this, live, free
    {
      && Shape(list)
      && tail == (if live == [] then null else live[|live| - 1])
      && size == |live|
    }

    constructor ()
      ensures Valid() && contents == [] && nodes == {}
    {
      idle, list, tail, size := null, null, null, 0;
      live, free, nodes, contents := [], [], {}, [];
    }

    lemma Head(head: Node?)
      requires Shape(head)
      ensures head == if live == [] then null else live[0]
      ensures |contents| == |live|
    {
    }

    /** A new node goes to the idle list. */
    method Stock(node: Node)
      requires Valid() && node !in nodes
      modifies this`idle, this`free, this`nodes, node`next
      ensures Valid() && free == [node] + old(free) && nodes == old(nodes) + {node}
    {
      hide Chain, Covers, Carries;
      CoversStocked(nodes, live, free, node);
      node.next := idle;
      ChainCons(node, free);
      idle := node;
      free := [node] + free;
      nodes := nodes + {node};
    }

    /** open: stocks the idle list. */
    method Open()
      requires Valid()
      modifies this`idle, this`free, this`nodes
      ensures Valid() && |free| == |old(free)| + DEFAULT_NODE_COUNT
      ensures nodes >= old(nodes) && fresh(nodes - old(nodes))
    {
      hide Shape;
      var i := 0;
      while i < DEFAULT_NODE_COUNT
        invariant i <= DEFAULT_NODE_COUNT && Valid()
        invariant |free| == |old(free)| + i
        invariant nodes >= old(nodes) && fresh(nodes - old(nodes))
      {
        var node := new Node();
        Stock(node);
        i := i + 1;
      }
    }

    /** Reads the first queued node and moves it to the idle list. */
    method Spend(t: Node) returns (value: Pointer, rest: Node?)
      requires Shape(t)
      modifies this`idle, this`live, this`free, this`contents, t`next
      ensures Shape(rest) && old(contents) == [value] + contents
      ensures old(live) == [t] + live && free == [t] + old(free)
    {
      hide Chain, Covers, Carries;
      ChainHead(t, live);
      ChainTail(t, live);
      CoversSpent(nodes, live, free);
      CarriesTail(live, contents);
      value, rest := t.v, t.next;
      t.next := idle;
      ChainCons(t, free);
      idle := t;
      live, free, contents := live[1..], [t] + free, contents[1..];
    }

    /** get: the first value, or null. */
    method Get() returns (value: Pointer)
      requires Valid()
      modifies this`idle, this`list, this`tail, this`size, this`live, this`free, this`contents, live`next
      ensures Valid()
      ensures old(contents) == [] ==> value == 0 && contents == [] && free == old(free)
      ensures old(contents) != [] ==> old(contents) == [value] + contents && free == old(live)[..1] + old(free)
    {
      hide Chain, Covers, Carries;
      Head(list);
      value := 0;
      if size > 0 {
        var node := list;
        var rest: Node?;
        value, rest := Spend(node);
        Head(rest);
        list := rest;
        if list == null {
          tail := null;
        }
        size := size - 1;
      }
    }

    /** getM: up to `want` values from the front, written to `v` from `at` on. */
    method GetM(v: array<Pointer>, at: nat, want: nat) returns (c: nat)
      requires Valid() && at + Min(want, |contents|) <= v.Length
      modifies this`idle, this`list, this`tail, this`size, this`live, this`free, this`contents, live`next, v
      ensures Valid() && c == Min(want, |old(contents)|)
      ensures contents == old(contents)[c..]
      ensures forall k :: 0 <= k < c ==> v[at + k] == old(contents)[k]
      ensures forall k :: 0 <= k < v.Length && (k < at || at + c <= k) ==> v[k] == old(v[k])
    {
      hide Chain, Covers, Carries, Shape;
      Head(list);
      if size == 0 {
        return 0;
      }
      c := if want > size then size else want;
      var node := list;
      var i := 0;
      while i < c
        invariant i <= c && Shape(node) && |live| == size - i && size == old(size) && tail == old(tail)
        invariant live == old(live)[i..] && contents == old(contents)[i..]
        invariant forall k :: 0 <= k < i ==> v[at + k] == old(contents)[k]
        invariant forall k :: 0 <= k < v.Length && (k < at || at + i <= k) ==> v[k] == old(v[k])
      {
        Head(node);
        var value: Pointer;
        value, node := Spend(node);
        v[at + i] := value;
        i := i + 1;
      }
      Head(node);
      assert live != [] ==> live[|live| - 1] == tail;
      list := node;
      if list == null {
        tail := null;
      }
      size := size - c;
    }

    /** Puts one value at the end, in a node of the queue's that is neither queued
        nor idle. */
    method Append(node: Node, value: Pointer)
      requires Chain(list, live) && Chain(idle, free) && Carries(live, contents)
      requires Covers(nodes, live + [node], free) && node !in live && node !in free
      requires tail == (if live == [] then null else live[|live| - 1]) && size == |live|
      modifies this`list, this`tail, this`size, this`live, this`contents, node, live`next
      ensures Valid() && contents == old(contents) + [value] && live == old(live) + [node]
    {
      hide Chain, Covers, Carries;
      CoversApart(nodes, live, node, free);
      node.v := value;
      CarriesMore(live, contents, node);
      LinkLast(node);
      size := size + 1;
      live, contents := live + [node], contents + [value];
    }

    method LinkLast(node: Node)
      requires Chain(list, live) && node !in live
      requires Chain(idle, free) && Apart(live + [node], free)
      requires tail == (if live == [] then null else live[|live| - 1])
      modifies this`list, this`tail, node`next, live`next
      ensures Chain(list, live + [node]) && tail == node && Chain(idle, free)
    {
      ghost var all := live + [node];
      assert all[|live|] == node && (live != [] ==> all[|live| - 1] == tail);
      node.next := null;
      if tail != null {
        tail.next := node;
      } else {
        list := node;
      }
      tail := node;
    }

    /** put: one value at the end, in an idle node if there is one. */
    method Put(value: Pointer)
      requires Valid()
      modifies this, live, free
      ensures Valid() && contents == old(contents) + [value]
      ensures nodes >= old(nodes) && fresh(nodes - old(nodes))
      ensures old(free) != [] ==> nodes == old(nodes)
    {
      hide Chain, Covers, Carries;
      ChainHead(idle, free);
      var node := idle;
      if node != null {
        ChainTail(idle, free);
        CoversReused(nodes, live, free);
        idle := idle.next;
        free := free[1..];
      } else {
        node := new Node();
        CoversStocked(nodes, live, free, node);
        CoversReused(nodes + {node}, live, [node] + free);
        nodes := nodes + {node};
      }
      Append(node, value);
    }
  }

  lemma {:induction false} SizeOfDistinct(s: seq<Node>)
    requires forall i, j :: 0 <= i < j < |s| ==> s[i] != s[j]
    ensures |set n | n in s| == |s|
  {
    if s != [] {
      var front := s[..|s| - 1];
      SizeOfDistinct(front);
      assert s == front + [s[|s| - 1]];
      assert (set n | n in s) == (set n | n in front) + {s[|s| - 1]};
    }
  }

  lemma SubsetOfSameSize(a: set<Node>, b: set<Node>)
    requires a <= b && |a| == |b|
    ensures a == b
  {
    assert |b - a| == |b| - |a|;
  }

  /** No node is lost and none is both queued and idle. */
  lemma NoneLost(q: SimpleQueue)
    requires q.Valid()
    ensures q.nodes == (set n | n in q.live) + (set n | n in q.free)
    ensures (set n | n in q.live) !! (set n | n in q.free)
  {
    SizeOfDistinct(q.live);
    SizeOfDistinct(q.free);
    var a, b := set n | n in q.live, set n | n in q.free;
    assert a !! b;
    assert |a + b| == |a| + |b|;
    SubsetOfSameSize(a + b, q.nodes);
  }
}
