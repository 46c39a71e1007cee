/** A connection's push list: a chain of push nodes and, through the messages
    themselves, a parallel chain of messages. */
module PushList {
  import opened MessageChains

  class PushData {
    var next: PushData?
    var msg: IMessage

    constructor (msg: IMessage)
      ensures this.msg == msg && next == null
    {
      this.msg, next := msg, null;
    }
  }

  class PushList {
    var list: PushData?
    var tail: PushData?
    var size: nat
    /** The nodes in order, and the message each one carries. */
    ghost var nodes: seq<PushData>
    ghost var msgs: seq<IMessage>

    ghost predicate Ends()
      reads this, nodes
    {
      && |nodes| == |msgs| == size
      && list == (if nodes == [] then null else nodes[0])
      && tail == (if nodes == [] then null else nodes[|nodes| - 1])
      && (forall i, j :: 0 <= i < j < |nodes| ==> nodes[i] != nodes[j])
      && (forall i, j :: 0 <= i < j < |nodes| && j == i + 1 ==> nodes[i].next == nodes[j])
      && (nodes != [] ==> nodes[|nodes| - 1].next == null)
      && (forall i :: 0 <= i < |nodes| ==> nodes[i].msg == msgs[i])
    }

    /** Both chains, in step. */
    ghost predicate Valid()
      reads this, nodes, msgs
    {
      Ends() && Chain(if msgs == [] then null else msgs[0], msgs)
    }

    constructor ()
      ensures Valid() && nodes == [] && msgs == []
    {
      list, tail, size, nodes, msgs := null, null, 0, [], [];
    }

    method Get() returns (item: PushData?)
      requires Valid()
      modifies this, nodes`next, msgs`next
      ensures Valid()
      ensures old(nodes) == [] ==> item == null && nodes == []
      ensures old(nodes) != [] ==> item == old(nodes)[0] && item.next == null && item.msg.next == null
      ensures old(nodes) != [] ==> nodes == old(nodes)[1..] && msgs == old(msgs)[1..]
    {
      item := list;
      if item != null {
        list := list.next;
        item.next := null;
        item.msg.next := null;
        if list == null {
          tail := null;
        }
        size := size - 1;
        nodes, msgs := nodes[1..], msgs[1..];
      }
    }

    method Put(d: PushData)
      requires Valid() && d !in nodes && d.msg !in msgs
      modifies this, d`next, d.msg`next, nodes`next, msgs`next
      ensures Valid() && nodes == old(nodes) + [d] && msgs == old(msgs) + [d.msg]
    {
      d.msg.next := null;
      d.next := null;
      if tail != null {
        tail.next := d;
        tail.msg.next := d.msg;
      } else {
        list := d;
      }
      tail := d;
      size := size + 1;
      nodes, msgs := nodes + [d], msgs + [d.msg];
    }

    method PutFirst(d: PushData)
      requires Valid() && d !in nodes && d.msg !in msgs
      modifies this, d`next, d.msg`next
      ensures Valid() && nodes == [d] + old(nodes) && msgs == [d.msg] + old(msgs)
    {
      d.msg.next := null;
      d.next := list;
      if tail == null {
        tail := d;
      } else {
        d.msg.next := list.msg;
      }
      list := d;
      size := size + 1;
      nodes, msgs := [d] + nodes, [d.msg] + msgs;
    }

    /** stealMsg: the head of the message chain. */
    method StealMsg() returns (head: IMessage?)
      requires Valid()
      ensures Chain(head, msgs)
    {
      head := if list == null then null else list.msg;
    }

    /** shallowClear: frees the nodes, leaves the messages linked. */
    method ShallowClear()
      requires Ends()
      modifies this
      ensures Valid() && nodes == [] && msgs == []
    {
      ghost var k: nat := 0;
      while list != null
        invariant k <= |old(nodes)| && list == (if k < |old(nodes)| then old(nodes)[k] else null)
        decreases |old(nodes)| - k
      {
        list := list.next;
        k := k + 1;
      }
      list, tail, size := null, null, 0;
      nodes, msgs := [], [];
    }

    /** empty compares the two ends, so a list of one message counts as empty. */
    method Empty() returns (empty: bool)
      requires Valid()
      ensures empty <==> |msgs| <= 1
    {
      empty := list == tail;
    }
  }

  /** The message chain goes to the collector, whose put cuts it behind its first
      message; the nodes are freed. */
  method HandOver(push: PushList, collector: BlockQueue) returns (head: IMessage?, ghost links: Links)
    requires push.Valid() && collector.Valid() && Apart(collector.elems, push.msgs)
    modifies push, push.msgs`next, collector, collector.elems`next
    ensures push.Valid() && push.msgs == [] && collector.Valid()
    ensures ChainIn(links, head, old(push.msgs))
    ensures collector.elems == old(collector.elems) + (if old(push.msgs) == [] then [] else [old(push.msgs)[0]])
  {
    hide BlockQueue.Valid;
    head := push.StealMsg();
    links := LinksOf(push.msgs);
    ChainTaken(head, push.msgs);
    if head != null {
      collector.Put(head);
      push.ShallowClear();
    }
  }

  lemma KeepsAll<T>(kept: seq<T>, unsent: seq<T>)
    ensures kept + (if unsent == [] then [] else [unsent[0]]) == kept + unsent <==> |unsent| <= 1
  {
    if |unsent| == 1 {
      assert unsent == [unsent[0]];
    }
  }

  /** whenClosed with a collector: the partly written message goes back to the
      front, and the chain handed over, with the links it had then, is exactly the
      unsent messages in order.
      The collector's put cuts that chain behind its first message, so it keeps
      all of them exactly when there is at most one. */
  method WhenClosed(push: PushList, pending: PushData?, collector: BlockQueue)
    returns (head: IMessage?, ghost links: Links)
    requires push.Valid() && collector.Valid() && Apart(collector.elems, push.msgs)
    requires pending != null ==>
      pending !in push.nodes && pending.msg !in push.msgs && pending.msg !in collector.elems
    modifies push, push.msgs`next, collector, collector.elems`next
    modifies (if pending == null then {} else {pending})`next
    modifies (if pending == null then {} else {pending.msg})`next
    ensures push.Valid() && push.msgs == [] && collector.Valid()
    ensures var unsent := (if pending == null then [] else [old(pending.msg)]) + old(push.msgs);
      && ChainIn(links, head, unsent)
      && collector.elems == old(collector.elems) + (if unsent == [] then [] else [unsent[0]])
      && (collector.elems == old(collector.elems) + unsent <==> |unsent| <= 1)
  {
    hide PushList.Valid, BlockQueue.Valid, ChainIn;
    ghost var kept, unsent := collector.elems, push.msgs;
    if pending != null {
      unsent := [pending.msg] + unsent;
      push.PutFirst(pending);
    }
    assert unsent == (if pending == null then [] else [old(pending.msg)]) + old(push.msgs);
    KeepsAll(kept, unsent);
    head, links := HandOver(push, collector);
  }
}
