/** The three loops that regroup a list of messages in place: by IO thread, by
    user, and by whether the user is online here. */
module Grouping {
  import opened Common
  import opened MessageChains

  /** The messages of `s` whose key is `key`, in order; `keys[i]` is the key of
      `s[i]`. */
  ghost function Pick<K>(s: seq<IMessage>, keys: seq<K>, key: K): (r: seq<IMessage>)
    requires |s| == |keys|
    ensures forall i :: 0 <= i < |r| ==> exists k :: 0 <= k < |s| && s[k] == r[i] && keys[k] == key
  {
    if s == [] then [] else
    var n := |s| - 1;
    Pick(s[..n], keys[..n], key) + if keys[n] == key then [s[n]] else []
  }

  lemma PickStep<K>(s: seq<IMessage>, keys: seq<K>, k: nat, key: K)
    requires |s| == |keys| && k < |s|
    ensures keys[k] == key ==> Pick(s[..k + 1], keys[..k + 1], key) == Pick(s[..k], keys[..k], key) + [s[k]]
    ensures keys[k] != key ==> Pick(s[..k + 1], keys[..k + 1], key) == Pick(s[..k], keys[..k], key)
  {
    assert s[..k + 1][..k] == s[..k] && keys[..k + 1][..k] == keys[..k];
  }

  /** Groups of different keys share no message, and none holds a later one. */
  lemma PickApart<K>(s: seq<IMessage>, keys: seq<K>, k: nat, a: K, b: K)
    requires |s| == |keys| && k <= |s| && Distinct(s)
    ensures a != b ==> Apart(Pick(s[..k], keys[..k], a), Pick(s[..k], keys[..k], b))
    ensures forall i :: k <= i < |s| ==> s[i] !in Pick(s[..k], keys[..k], a)
  {
  }

  lemma PickInside<K>(s: seq<IMessage>, keys: seq<K>, k: nat, key: K)
    requires |s| == |keys| && k <= |s|
    ensures forall m :: m in Pick(s[..k], keys[..k], key) ==> m in s
  {
  }

  /** A group under construction. */
  datatype Slot = Slot(head: IMessage?, tail: IMessage?, count: nat)

  const EmptySlot := Slot(null, null, 0)

  ghost predicate Holds(links: Links, slot: Slot, q: seq<IMessage>)
  {
    && ChainIn(links, slot.head, q) && Distinct(q)
    && slot.tail == (if q == [] then null else q[|q| - 1])
    && slot.count == |q|
  }

  /** The part of the list from `k` on is still linked as it was. */
  ghost predicate Rest(links: Links, list: IMessage?, s: seq<IMessage>, k: nat)
    requires k <= |s|
  {
    && list == (if k < |s| then s[k] else null)
    && (forall i :: 0 <= i < |s| ==> s[i] in links)
    && (forall i, j :: k <= i < j < |s| && j == i + 1 ==> links[s[i]] == s[j])
    && (k < |s| ==> links[s[|s| - 1]] == null)
  }

  ghost function Relinked(links: Links, tail: IMessage?, msg: IMessage): Links
  {
    (if tail != null then links[tail := msg] else links)[msg := null]
  }

  /** Links one more message to a group. */
  method Link(slot: Slot, msg: IMessage) returns (r: Slot)
    requires slot.tail != msg
    modifies (if slot.tail == null then {msg} else {msg, slot.tail})`next
    ensures msg.next == null && (slot.tail != null ==> slot.tail.next == msg)
    ensures r == Slot(if slot.tail == null then msg else slot.head, msg, slot.count + 1)
  {
    msg.next := null;
    r := slot;
    if r.tail != null {
      r.tail.next := msg;
    } else {
      r := r.(head := msg);
    }
    r := r.(tail := msg, count := r.count + 1);
  }

  lemma HoldsMore(links: Links, slot: Slot, q: seq<IMessage>, msg: IMessage)
    requires Holds(links, slot, q) && msg !in q
    ensures Holds(Relinked(links, slot.tail, msg),
                  Slot(if slot.tail == null then msg else slot.head, msg, slot.count + 1), q + [msg])
  {
  }

  lemma HoldsStill(links: Links, slot: Slot, q: seq<IMessage>, tail: IMessage?, msg: IMessage)
    requires Holds(links, slot, q) && msg !in q && (tail == null || tail !in q)
    ensures Holds(Relinked(links, tail, msg), slot, q)
  {
  }

  /** The first `k` messages are in the slots of their keys. */
  ghost predicate Sorted<K>(links: Links, slots: map<K, Slot>, s: seq<IMessage>, keys: seq<K>, k: nat)
    requires k <= |s| == |keys|
  {
    forall key :: key in slots ==> Holds(links, slots[key], Pick(s[..k], keys[..k], key))
  }

  /** Moving `s[k]` to the slot of its key leaves every other slot and the rest
      of the list as they were. */
  lemma SortedMore<K>(links: Links, slots: map<K, Slot>, slot: Slot, s: seq<IMessage>, keys: seq<K>, k: nat)
    requires k < |s| == |keys| && Distinct(s) && Sorted(links, slots, s, keys, k)
    requires Holds(links, slot, Pick(s[..k], keys[..k], keys[k]))
    ensures var r := Slot(if slot.tail == null then s[k] else slot.head, s[k], slot.count + 1);
      Sorted(Relinked(links, slot.tail, s[k]), slots[keys[k] := r], s, keys, k + 1)
  {
    hide Pick, ChainIn;
    var q := Pick(s[..k], keys[..k], keys[k]);
    PickApart(s, keys, k, keys[k], keys[k]);
    PickStep(s, keys, k, keys[k]);
    HoldsMore(links, slot, q, s[k]);
    forall key | key in slots && key != keys[k]
      ensures Holds(Relinked(links, slot.tail, s[k]), slots[key], Pick(s[..k + 1], keys[..k + 1], key))
    {
      PickApart(s, keys, k, keys[k], key);
      PickApart(s, keys, k, key, keys[k]);
      PickStep(s, keys, k, key);
      HoldsStill(links, slots[key], Pick(s[..k], keys[..k], key), slot.tail, s[k]);
    }
  }

  lemma RestLess<K>(links: Links, slot: Slot, s: seq<IMessage>, keys: seq<K>, k: nat)
    requires k < |s| == |keys| && Distinct(s) && Rest(links, s[k], s, k)
    requires Holds(links, slot, Pick(s[..k], keys[..k], keys[k]))
    ensures Rest(Relinked(links, slot.tail, s[k]), links[s[k]], s, k + 1)
  {
    PickApart(s, keys, k, keys[k], keys[k]);
  }

  lemma RestStart(links: Links, first: IMessage?, s: seq<IMessage>)
    requires Chain(first, s) && Snapshot(links, s)
    ensures Distinct(s) && Rest(links, first, s, 0)
  {
  }

  lemma RestFirst(links: Links, list: IMessage?, s: seq<IMessage>, k: nat)
    requires k <= |s| && Rest(links, list, s, k)
    ensures if list == null then k == |s| else k < |s| && list == s[k]
  {
  }

  lemma SortedSlot<K>(links: Links, slots: map<K, Slot>, s: seq<IMessage>, keys: seq<K>, k: nat, key: K)
    requires k <= |s| == |keys| && Sorted(links, slots, s, keys, k) && key in slots
    ensures Holds(links, slots[key], Pick(s[..k], keys[..k], key))
  {
  }

  /** A finished slot's list is its group. */
  lemma SortedGroup<K>(links: Links, slots: map<K, Slot>, s: seq<IMessage>, keys: seq<K>, key: K)
    requires |s| == |keys| && Sorted(links, slots, s, keys, |s|) && Snapshot(links, s) && key in slots
    ensures Chain(slots[key].head, Pick(s, keys, key)) && slots[key].count == |Pick(s, keys, key)|
  {
    hide Pick, Holds;
    assert s[..|s|] == s && keys[..|s|] == keys;
    PickInside(s, keys, |s|, key);
    SlotIsGroup(links, slots[key], s, Pick(s, keys, key));
  }

  lemma EmptySorted<K>(links: Links, slots: map<K, Slot>, s: seq<IMessage>, keys: seq<K>)
    requires |s| == |keys| && forall key :: key in slots ==> slots[key] == EmptySlot
    ensures Sorted(links, slots, s, keys, 0)
  {
  }

  /** A slot's tail is an earlier message of the list. */
  lemma TailBefore<K>(links: Links, slot: Slot, s: seq<IMessage>, keys: seq<K>, k: nat)
    requires k < |s| == |keys| && Distinct(s)
    requires Holds(links, slot, Pick(s[..k], keys[..k], keys[k]))
    ensures slot.tail != s[k] && (slot.tail != null ==> slot.tail in s)
  {
    PickInside(s, keys, k, keys[k]);
    PickApart(s, keys, k, keys[k], keys[k]);
  }

  lemma SlotIsGroup(links: Links, slot: Slot, s: seq<IMessage>, q: seq<IMessage>)
    requires Snapshot(links, s) && Holds(links, slot, q) && forall m :: m in q ==> m in s
    ensures Chain(slot.head, q) && slot.count == |q|
  {
  }

  /** One turn of a regrouping loop: the first message of the list goes to the
      end of its slot. */
  method MoveFirst<K>(slot: Slot, msg: IMessage,
                      ghost links: Links, ghost slots: map<K, Slot>, ghost s: seq<IMessage>, ghost keys: seq<K>, ghost k: nat)
    returns (r: Slot, list: IMessage?, ghost relinked: Links)
    requires k < |s| == |keys| && Distinct(s) && msg == s[k]
    requires Snapshot(links, s) && Rest(links, msg, s, k) && Sorted(links, slots, s, keys, k)
    requires Holds(links, slot, Pick(s[..k], keys[..k], keys[k]))
    modifies s`next
    ensures Snapshot(relinked, s) && Rest(relinked, list, s, k + 1)
    ensures Sorted(relinked, slots[keys[k] := r], s, keys, k + 1)
  {
    hide Pick, Holds, ChainIn, Sorted, Rest;
    SortedMore(links, slots, slot, s, keys, k);
    RestLess(links, slot, s, keys, k);
    TailBefore(links, slot, s, keys, k);
    relinked := Relinked(links, slot.tail, msg);
    list := msg.next;
    r := Link(slot, msg);
  }

  // ---- By IO thread ----

  method ClearSlots(sort: array<Slot>)
    modifies sort
    ensures forall j :: 0 <= j < sort.Length ==> sort[j] == EmptySlot
  {
    for j := 0 to sort.Length
      invariant forall i :: 0 <= i < j ==> sort[i] == EmptySlot
    {
      sort[j] := EmptySlot;
    }
  }

  /** The router's loop: every message of the list goes to the end of its IO
      thread's slot, so each slot's list holds exactly the messages for that
      thread, in their original order, null-terminated. */
  method GroupByIo(first: IMessage?, ghost s: seq<IMessage>, ghost ios: seq<int>, sort: array<Slot>)
    requires Chain(first, s) && |ios| == |s|
    requires forall i :: 0 <= i < |s| ==> s[i].io == ios[i] < sort.Length
    modifies sort, s`next
    ensures forall j :: 0 <= j < sort.Length ==>
      Chain(sort[j].head, Pick(s, ios, j)) && sort[j].count == |Pick(s, ios, j)|
  {
    hide Pick, Holds, ChainIn, Rest, Sorted, Chain, Distinct, LinksOf, Snapshot;
    ClearSlots(sort);
    var list := first;
    ghost var k: nat := 0;
    ghost var links := LinksOf(s);
    ghost var slots := map j | 0 <= j < sort.Length :: sort[j];
    RestStart(links, first, s);
    EmptySorted(links, slots, s, ios);
    while list != null
      invariant k <= |s| && Rest(links, list, s, k) && Snapshot(links, s)
      invariant Sorted(links, slots, s, ios, k)
      invariant forall j :: 0 <= j < sort.Length ==> j in slots && slots[j] == sort[j]
      decreases |s| - k
    {
      RestFirst(links, list, s, k);
      SortedSlot(links, slots, s, ios, k, ios[k]);
      var io := list.io;
      var slot;
      slot, list, links := MoveFirst(sort[io], list, links, slots, s, ios, k);
      slots := slots[ios[k] := slot];
      sort[io] := slot;
      k := k + 1;
    }
    RestFirst(links, list, s, k);
    forall j | 0 <= j < sort.Length
      ensures Chain(sort[j].head, Pick(s, ios, j)) && sort[j].count == |Pick(s, ios, j)|
    {
      SortedGroup(links, slots, s, ios, j);
    }
  }

  // ---- By user ----

  lemma OneMore(uids: seq<int>, k: nat)
    requires k < |uids|
    ensures forall u :: u in uids[..k + 1] <==> u in uids[..k] || u == uids[k]
  {
    assert uids[..k + 1] == uids[..k] + [uids[k]];
  }

  /** The collector's loop: the lists in the map are the users of the messages,
      each user's messages in their original order. */
  method GroupByUid(first: IMessage?, ghost s: seq<IMessage>, ghost uids: seq<int>)
    returns (groups: map<int, Slot>)
    requires Chain(first, s) && |uids| == |s|
    requires forall i :: 0 <= i < |s| ==> s[i].uid == uids[i]
    modifies s`next
    ensures forall u :: u in groups <==> u in uids
    ensures forall u :: u in groups ==>
      Chain(groups[u].head, Pick(s, uids, u)) && groups[u].count == |Pick(s, uids, u)| > 0
  {
    hide Pick, Holds, ChainIn, Rest, Sorted, Chain, Distinct, LinksOf, Snapshot;
    groups := map[];
    var list := first;
    ghost var k: nat := 0;
    ghost var links := LinksOf(s);
    RestStart(links, first, s);
    EmptySorted(links, groups, s, uids);
    while list != null
      invariant k <= |s| && Rest(links, list, s, k) && Snapshot(links, s)
      invariant Sorted(links, groups, s, uids, k)
      invariant forall u :: u in groups <==> u in uids[..k]
      decreases |s| - k
    {
      RestFirst(links, list, s, k);
      var uid := list.uid;
      var target := EmptySlot;
      if uid in groups {
        SortedSlot(links, groups, s, uids, k, uid);
        target := groups[uid];
      } else {
        PickNone(links, s, uids, k, uid);
      }
      var slot;
      slot, list, links := MoveFirst(target, list, links, groups, s, uids, k);
      OneMore(uids, k);
      groups := groups[uid := slot];
      k := k + 1;
    }
    RestFirst(links, list, s, k);
    assert uids[..k] == uids;
    forall u | u in groups
      ensures Chain(groups[u].head, Pick(s, uids, u)) && groups[u].count == |Pick(s, uids, u)| > 0
    {
      SortedGroup(links, groups, s, uids, u);
      PickSome(s, uids, u);
    }
  }

  lemma PickNone<K>(links: Links, s: seq<IMessage>, keys: seq<K>, k: nat, key: K)
    requires k <= |s| == |keys| && key !in keys[..k]
    ensures Holds(links, EmptySlot, Pick(s[..k], keys[..k], key))
  {
    PickNothing(s[..k], keys[..k], key);
  }

  lemma {:induction false} PickNothing<K>(s: seq<IMessage>, keys: seq<K>, key: K)
    requires |s| == |keys| && key !in keys
    ensures Pick(s, keys, key) == []
  {
    if s != [] {
      PickNothing(s[..|s| - 1], keys[..|s| - 1], key);
    }
  }

  lemma {:induction false} PickSome<K>(s: seq<IMessage>, keys: seq<K>, key: K)
    requires |s| == |keys| && key in keys
    ensures Pick(s, keys, key) != []
  {
    var n := |s| - 1;
    if keys[n] != key {
      PickSome(s[..n], keys[..n], key);
    }
  }

  // ---- By whether the user is online here ----

  method Address(m: IMessage, table: map<int, Channel>) returns (online: bool)
    modifies m`io, m`conn
    ensures online == (m.uid in table)
    ensures Addressed(m, table, old(m.io), old(m.conn))
  {
    online := m.uid in table;
    if online {
      m.io := table[m.uid].io;
      m.conn := table[m.uid].conn;
    }
  }

  lemma OnlyOnce(s: seq<IMessage>, k: nat)
    requires Distinct(s) && k < |s|
    ensures forall i :: 0 <= i < |s| && i != k ==> s[i] != s[k]
  {
  }

  /** routeList: messages for registered users go to the local list, addressed
      to their user's channel; the others stay pending. */
  method RouteList(first: IMessage?, table: map<int, Channel>, ghost s: seq<IMessage>, ghost here: seq<bool>)
    returns (local: IMessage?, pending: IMessage?)
    requires Chain(first, s) && |here| == |s|
    requires forall i :: 0 <= i < |s| ==> here[i] == (s[i].uid in table)
    modifies s`next, s`io, s`conn
    ensures Chain(local, Pick(s, here, true)) && Chain(pending, Pick(s, here, false))
    ensures forall i :: 0 <= i < |s| ==> Addressed(s[i], table, old(s[i].io), old(s[i].conn))
  {
    hide Pick, Holds, ChainIn, Rest, Sorted, Chain, Distinct, LinksOf, Snapshot, Addressed;
    var slots := map[true := EmptySlot, false := EmptySlot];
    var list := first;
    ghost var k: nat := 0;
    ghost var links := LinksOf(s);
    RestStart(links, first, s);
    EmptySorted(links, slots, s, here);
    while list != null
      invariant k <= |s| && Rest(links, list, s, k) && Snapshot(links, s)
      invariant true in slots && false in slots && Sorted(links, slots, s, here, k)
      invariant forall i :: 0 <= i < k ==> Addressed(s[i], table, old(s[i].io), old(s[i].conn))
      invariant forall i :: k <= i < |s| ==> s[i].io == old(s[i].io) && s[i].conn == old(s[i].conn)
      decreases |s| - k
    {
      RestFirst(links, list, s, k);
      SortedSlot(links, slots, s, here, k, here[k]);
      OnlyOnce(s, k);
      var online := Address(list, table);
      var slot;
      slot, list, links := MoveFirst(slots[online], list, links, slots, s, here, k);
      slots := slots[online := slot];
      k := k + 1;
    }
    RestFirst(links, list, s, k);
    SortedGroup(links, slots, s, here, true);
    SortedGroup(links, slots, s, here, false);
    local, pending := slots[true].head, slots[false].head;
  }

  ghost predicate Addressed(m: IMessage, table: map<int, Channel>, io: nat, conn: nat)
    reads m`uid, m`io, m`conn
  {
    if m.uid in table then m.io == table[m.uid].io && m.conn == table[m.uid].conn
    else m.io == io && m.conn == conn
  }

  // ---- Stability ----

  /** How many messages of the key come before position `i`. */
  ghost function Rank<K>(s: seq<IMessage>, keys: seq<K>, key: K, i: nat): nat
    requires i <= |s| == |keys|
  {
    |Pick(s[..i], keys[..i], key)|
  }

  /** Every message lands in the group of its key, at its rank, so two messages
      of one group keep their order; and the group holds nothing else. */
  lemma {:induction false} StablePartition<K>(s: seq<IMessage>, keys: seq<K>, i: nat)
    requires i < |s| == |keys|
    ensures Rank(s, keys, keys[i], i) < |Pick(s, keys, keys[i])|
    ensures Pick(s, keys, keys[i])[Rank(s, keys, keys[i], i)] == s[i]
    decreases |s|
  {
    var n := |s| - 1;
    var key := keys[i];
    if i < n {
      StablePartition(s[..n], keys[..n], i);
      assert s[..n][..i] == s[..i] && keys[..n][..i] == keys[..i];
    }
  }

  lemma {:induction false} RankIncreases<K>(s: seq<IMessage>, keys: seq<K>, i: nat, j: nat)
    requires i < j <= |s| == |keys|
    ensures Rank(s, keys, keys[i], i) < Rank(s, keys, keys[i], j)
    decreases j
  {
    if i + 1 == j {
      PickStep(s, keys, i, keys[i]);
    } else {
      RankIncreases(s, keys, i, j - 1);
      PickStep(s, keys, j - 1, keys[i]);
    }
  }

  ghost predicate InGroup<K>(s: seq<IMessage>, keys: seq<K>, key: K, m: IMessage)
    requires |s| == |keys|
  {
    exists i :: 0 <= i < |s| && s[i] == m && keys[i] == key
  }

  lemma InGroupLast<K>(s: seq<IMessage>, keys: seq<K>, key: K, m: IMessage)
    requires |s| == |keys| > 0 && Distinct(s)
    ensures var n := |s| - 1;
      && (InGroup(s, keys, key, m) <==> InGroup(s[..n], keys[..n], key, m) || (s[n] == m && keys[n] == key))
      && (s[n] == m ==> !InGroup(s[..n], keys[..n], key, m))
  {
    var n := |s| - 1;
    if i :| 0 <= i < |s| && s[i] == m && keys[i] == key {
      if i < n {
        assert s[..n][i] == m && keys[..n][i] == key;
      }
    }
    if i :| 0 <= i < n && s[..n][i] == m && keys[..n][i] == key {
      assert s[i] == m && keys[i] == key;
    }
  }

  /** The groups together are the list: each message is in one group, once. */
  lemma {:induction false} PartitionConserves<K>(s: seq<IMessage>, keys: seq<K>, key: K, m: IMessage)
    requires |s| == |keys| && Distinct(s)
    ensures multiset(Pick(s, keys, key))[m] == if InGroup(s, keys, key, m) then 1 else 0
  {
    hide Pick, InGroup, Distinct;
    if s == [] {
      NoGroup(s, keys, key, m);
    } else {
      var n := |s| - 1;
      DistinctPrefix(s, n);
      PartitionConserves(s[..n], keys[..n], key, m);
      InGroupLast(s, keys, key, m);
      PickStep(s, keys, n, key);
      assert s[..n + 1] == s && keys[..n + 1] == keys;
    }
  }

  lemma NoGroup<K>(s: seq<IMessage>, keys: seq<K>, key: K, m: IMessage)
    requires |s| == |keys| && s == []
    ensures Pick(s, keys, key) == [] && !InGroup(s, keys, key, m)
  {
  }

  lemma DistinctPrefix(s: seq<IMessage>, n: nat)
    requires Distinct(s) && n <= |s|
    ensures Distinct(s[..n])
  {
  }
}
