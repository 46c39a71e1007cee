/** Messages linked through their own `next` field, and the queues built on
    them. */
module MessageChains {

  /** A message, as far as linking and grouping see it. */
  class IMessage {
    var next: IMessage?
    var io: nat
    var conn: nat
    var uid: int
  }

  ghost predicate Distinct(s: seq<IMessage>)
  {
    forall i, j :: 0 <= i < j < |s| ==> s[i] != s[j]
  }

  /** The null-terminated list that starts at `head` is `s`. */
  ghost predicate Chain(head: IMessage?, s: seq<IMessage>)
    reads s
  {
    && head == (if s == [] then null else s[0])
    && Distinct(s)
    && (forall i, j :: 0 <= i < j < |s| && j == i + 1 ==> s[i].next == s[j])
    && (s != [] ==> s[|s| - 1].next == null)
  }

  ghost predicate Apart(a: seq<IMessage>, b: seq<IMessage>)
  {
    forall i, j :: 0 <= i < |a| && 0 <= j < |b| ==> a[i] != b[j]
  }

  lemma ChainNext(head: IMessage?, s: seq<IMessage>, k: nat)
    requires Chain(head, s) && k < |s|
    ensures s[k].next == if k + 1 < |s| then s[k + 1] else null
  {
  }

  // ---- Links as a value ----

  /** The `next` fields of some messages at one moment. */
  type Links = map<IMessage, IMessage?>

  ghost predicate Snapshot(links: Links, s: seq<IMessage>)
    reads s`next
  {
    forall m :: m in s ==> m in links && links[m] == m.next
  }

  ghost function LinksOf(s: seq<IMessage>): (links: Links)
    reads s`next
    ensures Snapshot(links, s)
  {
    map m | m in s :: m.next
  }

  ghost predicate ChainIn(links: Links, head: IMessage?, q: seq<IMessage>)
  {
    && head == (if q == [] then null else q[0])
    && (forall i :: 0 <= i < |q| ==> q[i] in links)
    && (forall i, j :: 0 <= i < j < |q| && j == i + 1 ==> links[q[i]] == q[j])
    && (q != [] ==> links[q[|q| - 1]] == null)
  }

  /** A chain, as its links stood at the moment of the snapshot. */
  lemma ChainTaken(head: IMessage?, s: seq<IMessage>)
    requires Chain(head, s)
    ensures ChainIn(LinksOf(s), head, s)
  {
  }

  class BlockQueue {
    var list: IMessage?
    var tail: IMessage?
    var size: nat
    ghost var elems: seq<IMessage>

    ghost predicate Valid()
      reads this, elems
    {
      && Chain(list, elems)
      && tail == (if elems == [] then null else elems[|elems| - 1])
      && size == |elems|
    }

    constructor ()
      ensures Valid() && elems == []
    {
      list, tail, size, elems := null, null, 0, [];
    }

    /** put: one message at the end; what followed it is cut off. */
    method Put(v: IMessage)
      requires Valid() && v !in elems
      modifies this, v`next, elems`next
      ensures Valid() && elems == old(elems) + [v]
    {
      v.next := null;
      if tail != null {
        tail.next := v;
      } else {
        list := v;
      }
      tail := v;
      size := size + 1;
      elems := elems + [v];
    }

    /** putList: a whole list at the end; walks to its last message. */
    method PutList(v: IMessage, ghost vs: seq<IMessage>)
      requires Valid() && Chain(v, vs) && Apart(elems, vs)
      modifies this, elems`next
      ensures Valid() && elems == old(elems) + vs
    {
      if tail != null {
        tail.next := v;
      } else {
        list := v;
      }
      var last, count := v, 1;
      ghost var k := 0;
      while last.next != null
        invariant 0 <= k < |vs| && last == vs[k] && count == k + 1
        invariant Chain(v, vs)
        decreases |vs| - k
      {
        last := last.next;
        count := count + 1;
        k := k + 1;
      }
      ChainNext(v, vs, k);
      tail := last;
      size := size + count;
      elems := elems + vs;
    }

    /** get: the whole list, in order. */
    method GetAll() returns (head: IMessage?)
      requires Valid()
      modifies this
      ensures Valid() && elems == [] && Chain(head, old(elems))
    {
      head := list;
      list, tail, size, elems := null, null, 0, [];
    }

    /** get(count): the first `count` messages, cut off from the rest. */
    method Get(count: nat) returns (head: IMessage?)
      requires Valid() && elems != [] && count > 0
      modifies this, elems`next
      ensures Valid()
      ensures var n := if old(size) > count then count else old(size);
        elems == old(elems)[n..] && Chain(head, old(elems)[..n])
    {
      head := list;
      if size > count {
        var item := list;
        var left := count - 1;
        ghost var k := 0;
        while left != 0
          invariant 0 <= left < count && k == count - 1 - left
          invariant item == elems[k]
          decreases left
        {
          item := item.next;
          left := left - 1;
          k := k + 1;
        }
        list := item.next;
        item.next := null;
        size := size - count;
        elems := elems[count..];
      } else {
        list, tail, size, elems := null, null, 0, [];
      }
    }
  }

  /** An IO thread's queue: lists go in at the end, everything comes out. */
  class MessageQueue {
    var head: IMessage?
    var tail: IMessage?
    ghost var elems: seq<IMessage>

    ghost predicate Valid()
      reads this, elems
    {
      && Chain(head, elems)
      && tail == (if elems == [] then null else elems[|elems| - 1])
    }

    constructor ()
      ensures Valid() && elems == []
    {
      head, tail, elems := null, null, [];
    }

    method Get() returns (v: IMessage?)
      requires Valid()
      modifies this
      ensures Valid() && elems == [] && Chain(v, old(elems))
    {
      v := head;
      head, tail, elems := null, null, [];
    }

    method Put(v: IMessage, ghost vs: seq<IMessage>)
      requires Valid() && Chain(v, vs) && Apart(elems, vs)
      modifies this, elems`next
      ensures Valid() && elems == old(elems) + vs
    {
      if tail != null {
        tail.next := v;
      } else {
        head := v;
      }
      var last := v;
      ghost var k := 0;
      while last.next != null
        invariant 0 <= k < |vs| && last == vs[k] && Chain(v, vs)
        decreases |vs| - k
      {
        last := last.next;
        k := k + 1;
      }
      ChainNext(v, vs, k);
      tail := last;
      elems := elems + vs;
    }
  }
}

