/** Single and batch removal from an array of queues, best priority first. */
module PriorityQueues {
  import opened Common
  import opened SimpleQueues

  /** All values, by priority and then by age. */
  function Flat(qs: seq<seq<Pointer>>): seq<Pointer>
  {
    if qs == [] then [] else qs[0] + Flat(qs[1..])
  }

  /** The first queue that holds something, or the number of queues. */
  function First(qs: seq<seq<Pointer>>): (k: nat)
    ensures k <= |qs| && (k < |qs| ==> qs[k] != [])
    ensures forall i :: 0 <= i < k ==> qs[i] == []
  {
    if qs == [] || qs[0] != [] then 0 else 1 + First(qs[1..])
  }

  datatype Taken = Taken(got: seq<Pointer>, left: seq<seq<Pointer>>)

  /** `n` successive removals of the oldest value of the best non-empty queue. */
  function Gets(qs: seq<seq<Pointer>>, n: nat): Taken
    decreases n
  {
    var k := First(qs);
    if n == 0 || k == |qs| then Taken([], qs)
    else
      var t := Gets(qs[k := qs[k][1..]], n - 1);
      Taken([qs[k][0]] + t.got, t.left)
  }

  lemma {:induction false} FlatFirst(qs: seq<seq<Pointer>>)
    requires First(qs) < |qs|
    ensures Flat(qs) == [qs[First(qs)][0]] + Flat(qs[First(qs) := qs[First(qs)][1..]])
  {
    hide Flat;
    var k := First(qs);
    var after := qs[k := qs[k][1..]];
    FlatCons(qs);
    FlatCons(after);
    if k > 0 {
      FlatFirst(qs[1..]);
      assert after[1..] == qs[1..][k - 1 := qs[k][1..]];
    } else {
      assert after[1..] == qs[1..];
      assert qs[0] == [qs[0][0]] + qs[0][1..];
    }
  }

  lemma FlatCons(qs: seq<seq<Pointer>>)
    requires qs != []
    ensures Flat(qs) == qs[0] + Flat(qs[1..])
  {
  }

  lemma {:induction false} FlatNothing(qs: seq<seq<Pointer>>)
    requires First(qs) == |qs|
    ensures Flat(qs) == []
  {
    if qs != [] {
      FlatNothing(qs[1..]);
    }
  }

  /** Removals take a prefix of the whole, in priority order, and leave the rest. */
  lemma {:induction false} GetsInOrder(qs: seq<seq<Pointer>>, n: nat)
    ensures Gets(qs, n).got == Flat(qs)[..Min(n, |Flat(qs)|)]
    ensures Flat(Gets(qs, n).left) == Flat(qs)[Min(n, |Flat(qs)|)..]
    decreases n
  {
    var k := First(qs);
    if k == |qs| {
      FlatNothing(qs);
    } else if n > 0 {
      FlatFirst(qs);
      GetsInOrder(qs[k := qs[k][1..]], n - 1);
    }
  }

  lemma GetsNone(qs: seq<seq<Pointer>>)
    ensures Gets(qs, 0) == Taken([], qs)
  {
  }

  /** Removals compose: a batch may be taken in parts. */
  lemma {:induction false} GetsCompose(qs: seq<seq<Pointer>>, a: nat, b: nat)
    ensures Gets(qs, a + b).got == Gets(qs, a).got + Gets(Gets(qs, a).left, b).got
    ensures Gets(qs, a + b).left == Gets(Gets(qs, a).left, b).left
    decreases a
  {
    var k := First(qs);
    if a > 0 && k < |qs| {
      GetsCompose(qs[k := qs[k][1..]], a - 1, b);
    }
  }

  lemma GetsNothing(qs: seq<seq<Pointer>>, n: nat)
    requires forall j :: 0 <= j < |qs| ==> qs[j] == []
    ensures Gets(qs, n) == Taken([], qs) && Flat(qs) == []
  {
    FlatAfterEmpty(qs, |qs|);
  }

  lemma {:induction false} FirstIs(qs: seq<seq<Pointer>>, i: nat)
    requires i < |qs| && qs[i] != [] && forall j :: 0 <= j < i ==> qs[j] == []
    ensures First(qs) == i
  {
  }

  /** Removals from the best non-empty queue take a prefix of that queue. */
  lemma {:induction false} GetsFromOne(qs: seq<seq<Pointer>>, i: nat, m: nat)
    requires i < |qs| && m <= |qs[i]| && forall j :: 0 <= j < i ==> qs[j] == []
    ensures Gets(qs, m) == Taken(qs[i][..m], qs[i := qs[i][m..]])
    decreases m
  {
    if m > 0 {
      FirstIs(qs, i);
      var after := qs[i := qs[i][1..]];
      GetsFromOne(after, i, m - 1);
      assert after[i := after[i][m - 1..]] == qs[i := qs[i][m..]];
      assert [qs[i][0]] + after[i][..m - 1] == qs[i][..m];
    } else {
      assert qs[i := qs[i][0..]] == qs;
    }
  }

  lemma {:induction false} FlatAfterEmpty(qs: seq<seq<Pointer>>, i: nat)
    requires i <= |qs| && forall j :: 0 <= j < i ==> qs[j] == []
    ensures Flat(qs) == Flat(qs[i..])
    decreases i
  {
    if i > 0 {
      FlatAfterEmpty(qs[1..], i - 1);
      assert qs[1..][i - 1..] == qs[i..];
    } else {
      assert qs[0..] == qs;
    }
  }

  ghost predicate AllEmpty(qs: seq<seq<Pointer>>)
  {
    forall j :: 0 <= j < |qs| ==> qs[j] == []
  }

  lemma NoneYet(qs: seq<seq<Pointer>>)
    ensures AllEmpty(qs[..0])
  {
  }

  lemma EmptyGets(qs: seq<seq<Pointer>>)
    requires AllEmpty(qs)
    ensures Flat(qs) == []
  {
    GetsNothing(qs, 0);
  }

  /** A queue whose nodes all lie in its footprint. */
  ghost predicate Good(q: SimpleQueue)
    reads q, q.nodes
  {
    Covers(q.nodes, q.live, q.free) && q.Valid()
  }

  lemma GoodFootprint(q: SimpleQueue)
    requires Good(q)
    ensures q.Valid() && q.size == |q.contents|
    ensures forall n :: n in q.live || n in q.free ==> n in q.nodes
  {
  }

  lemma ValidIsGood(q: SimpleQueue)
    requires q.Valid()
    ensures Good(q)
  {
  }

  class PriorityQueue {
    var queues: seq<SimpleQueue>
    ghost var repr: set<Node>
    ghost var contents: seq<seq<Pointer>>

    /** Each queue is well formed, holds its part of the contents, and shares no
        node with another. */
    ghost predicate Consistent()
      reads this, queues, repr
    {
      && |contents| == |queues|
      && (forall i, j :: 0 <= i < j < |queues| ==> queues[i] != queues[j] && queues[i].nodes !! queues[j].nodes)
      && (forall i :: 0 <= i < |queues| ==>
            queues[i].nodes <= repr && Good(queues[i]) && queues[i].contents == contents[i])
    }

    ghost predicate Valid()
      reads this, queues, repr
    {
      queues != [] && Consistent()
    }

    /** One more queue, opened. */
    method AddQueue()
      requires Consistent()
      modifies this
      ensures Consistent() && |queues| == |old(queues)| + 1 && contents == old(contents) + [[]]
    {
      hide Good, SimpleQueue.Valid;
      var q := new SimpleQueue();
      q.Open();
      ValidIsGood(q);
      queues, repr, contents := queues + [q], repr + q.nodes, contents + [[]];
    }

    /** The constructor and init: at least one queue, all empty. */
    constructor (priorityNum: int)
      ensures Valid() && Flat(contents) == []
      ensures |queues| == if priorityNum <= 0 then 1 else priorityNum
    {
      queues, repr, contents := [], {}, [];
      new;
      var num := if priorityNum <= 0 then 1 else priorityNum;
      hide Good, SimpleQueue.Valid;
      while |queues| < num
        invariant |queues| <= num && |contents| == |queues| && Consistent()
        invariant forall i :: 0 <= i < |contents| ==> contents[i] == []
      {
        AddQueue();
      }
      GetsNothing(contents, 0);
    }

    /** total_size */
    method TotalSize() returns (total: nat)
      requires Valid()
      ensures total == |Flat(contents)|
    {
      total := 0;
      var i := 0;
      assert contents[0..] == contents;
      while i < |queues|
        invariant i <= |queues| && total + |Flat(contents[i..])| == |Flat(contents)|
      {
        assert contents[i..][1..] == contents[i + 1..] && Good(queues[i]);
        total := total + queues[i].size;
        i := i + 1;
      }
    }

    /** One queue's batch, the other queues untouched. */
    method GetFrom(i: nat, v: array<Pointer>, at: nat, want: nat) returns (c: nat)
      requires Valid() && i < |queues| && at + Min(want, |contents[i]|) <= v.Length
      modifies this`contents, queues, repr, v
      ensures Valid() && c == Min(want, |old(contents)[i]|)
      ensures contents == old(contents)[i := old(contents)[i][c..]]
      ensures v[..at + c] == old(v[..at]) + old(contents)[i][..c]
      ensures forall k :: 0 <= k < |queues| ==> queues[k].nodes == old(queues[k].nodes)
    {
      hide Good, SimpleQueue.Valid;
      GoodFootprint(queues[i]);
      c := queues[i].GetM(v, at, want);
      ValidIsGood(queues[i]);
      contents := contents[i := contents[i][c..]];
    }

    lemma Lengths()
      requires Valid()
      ensures |contents| == |queues| > 0
      ensures forall i :: 0 <= i < |queues| ==> queues[i].size == |contents[i]|
    {
      forall i | 0 <= i < |queues| ensures queues[i].size == |contents[i]| {
        GoodFootprint(queues[i]);
      }
    }

    /** One queue's single removal, the other queues untouched. */
    method GetOne(i: nat) returns (value: Pointer)
      requires Valid() && i < |queues| && contents[i] != []
      modifies this`contents, queues, repr
      ensures Valid() && value == old(contents)[i][0]
      ensures contents == old(contents)[i := old(contents)[i][1..]]
      ensures forall k :: 0 <= k < |queues| ==> queues[k].nodes == old(queues[k].nodes)
    {
      hide Good, SimpleQueue.Valid;
      GoodFootprint(queues[i]);
      value := queues[i].Get();
      ValidIsGood(queues[i]);
      contents := contents[i := contents[i][1..]];
    }

    /** _get: one value from the first queue that has one, else null. */
    method Get() returns (value: Pointer)
      requires Valid()
      modifies this`contents, queues, repr
      ensures Valid() && contents == Gets(old(contents), 1).left
      ensures value == if Flat(old(contents)) == [] then 0 else Flat(old(contents))[0]
      ensures forall k :: 0 <= k < |queues| ==> queues[k].nodes == old(queues[k].nodes)
    {
      Lengths();
      hide Valid, Flat, Gets;
      var i := 0;
      while i < |queues|
        invariant i <= |queues| && forall j :: 0 <= j < i ==> contents[j] == []
      {
        if queues[i].size > 0 {
          break;
        }
        i := i + 1;
      }
      if i < |queues| {
        GetsFromOne(contents, i, 1);
        GetsInOrder(contents, 1);
        value := GetOne(i);
      } else {
        GetsNothing(contents, 1);
        value := 0;
      }
    }

    /** One turn of getM's loop: the removals so far and this queue's are that many
        single removals from the start. */
    method GetNext(i: nat, v: array<Pointer>, cur: nat, want: nat, ghost start: seq<seq<Pointer>>)
      returns (ret: nat)
      requires Valid() && i < |queues| == |contents| && AllEmpty(contents[..i])
      requires cur + want <= v.Length && Taken(v[..cur], contents) == Gets(start, cur)
      modifies this`contents, queues, repr, v
      ensures Valid() && |contents| == |queues| && ret <= want
      ensures Taken(v[..cur + ret], contents) == Gets(start, cur + ret)
      ensures ret < want ==> AllEmpty(contents[..i + 1])
      ensures forall k :: 0 <= k < |queues| ==> queues[k].nodes == old(queues[k].nodes)
    {
      hide Valid, Flat, Gets;
      ghost var was := contents;
      assert forall j :: 0 <= j < i ==> was[j] == was[..i][j];
      ret := GetFrom(i, v, cur, want);
      GetsFromOne(was, i, ret);
      GetsCompose(start, cur, ret);
    }

    /** getM: `want` values or all there are. Leaves and returns what that many
        single removals would. */
    method GetM(v: array<Pointer>, want: nat) returns (c: nat)
      requires Valid() && Flat(contents) != [] && Min(want, |Flat(contents)|) <= v.Length
      modifies this`contents, queues, repr, v
      ensures Valid() && c == Min(want, |Flat(old(contents))|)
      ensures Taken(v[..c], contents) == Gets(old(contents), c)
      ensures forall k :: 0 <= k < |queues| ==> queues[k].nodes == old(queues[k].nodes)
    {
      hide Valid, Flat, Gets, AllEmpty;
      var size := TotalSize();
      c := if want > size then size else want;
      var cur: nat, i := 0, 0;
      GetsNone(contents);
      NoneYet(contents);
      assert v[..0] == [];
      Lengths();
      while i < |queues|
        invariant i <= |queues| == |contents| && Valid() && cur <= c
        invariant AllEmpty(contents[..i])
        invariant Taken(v[..cur], contents) == Gets(old(contents), cur)
        invariant forall k :: 0 <= k < |queues| ==> queues[k].nodes == old(queues[k].nodes)
      {
        var ret := GetNext(i, v, cur, c - cur, old(contents));
        if ret == c - cur {
          return;
        }
        cur := cur + ret;
        i := i + 1;
      }
      assert contents[..i] == contents;
      EmptyGets(contents);
      GetsInOrder(old(contents), cur);
    }

    /** _put: at the end of its priority's queue; dropped when there is no such
        priority. */
    method Put(value: Pointer, priority: nat)
      requires Valid()
      modifies this`contents, this`repr, queues, repr
      ensures Valid()
      ensures contents == if priority >= |queues| then old(contents)
                          else old(contents)[priority := old(contents)[priority] + [value]]
    {
      hide Good, SimpleQueue.Valid;
      if priority >= |queues| {
        return;
      }
      GoodFootprint(queues[priority]);
      queues[priority].Put(value);
      ValidIsGood(queues[priority]);
      repr := repr + queues[priority].nodes;
      contents := contents[priority := contents[priority] + [value]];
    }
  }
}
