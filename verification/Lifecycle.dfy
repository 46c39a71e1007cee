/** One IO thread's connections: the register of online connections over
    recycled connection objects. */
module Lifecycle {
  import opened CachePolicy

  const INIT_STATE := 0
  const AUTH_STATE := 1
  const MSG_STATE := 2

  datatype Kind = AuthKind | MsgKind | TouchKind | OtherKind

  /** A protobuf pack as its readers see it; uid -1 stands for a missing uid. */
  datatype Pack = Garbled | Pack(kind: Kind, timely: bool, uid: int, token: string, targets: nat)

  /** A message in flight: the state of the connection when it was read, where
      it came from or goes to, and whether its arrival there switches the
      connection's state. */
  datatype Message = Message(
    state: int, io: nat, conn: nat, uid: int, switchState: bool, closeConn: bool, pack: Pack)

  /** A connection object: the connection it was last initialised for, its
      protocol state and its push list. */
  datatype Conn = Conn(id: nat, state: int, pushList: seq<Message>)

  /** `online` maps connection ids to objects. */
  datatype App = App(online: map<nat, nat>, count: int, objs: map<nat, Conn>, pool: Pool)

  const NoApp := App(map[], 0, map[], Start.pool)

  function PushListOf(a: App, obj: nat): seq<Message>
  {
    if obj in a.objs then a.objs[obj].pushList else []
  }

  /** One turn of newConnection's loop. The object's push list is not touched. */
  function OpenOne(a: App, id: nat): App
  {
    var obj := Gotten(a.pool);
    App(a.online[id := obj],
        a.count + 1,
        a.objs[obj := Conn(id, INIT_STATE, PushListOf(a, obj))],
        AfterGet(a.pool))
  }

  function OpenAll(a: App, ids: seq<nat>): App
  {
    if ids == [] then a else OpenOne(OpenAll(a, ids[..|ids| - 1]), ids[|ids| - 1])
  }

  /** newConnection: opens every queued connection, then counts the loop. */
  function Opened(a: App, ids: seq<nat>): App
  {
    var b := OpenAll(a, ids);
    b.(pool := b.pool.(loop := b.pool.loop + 1))
  }

  /** pushMessage for an online connection. */
  function Pushed(a: App, m: Message): App
    requires m.conn in a.online && a.online[m.conn] in a.objs
  {
    var obj := a.online[m.conn];
    var c := a.objs[obj];
    var state := if m.switchState then m.state else c.state;
    a.(objs := a.objs[obj := c.(state := state, pushList := c.pushList + [m])])
  }

  /** A fully written message leaves the push list. */
  function Wrote(a: App, id: nat): App
    requires id in a.online && a.online[id] in a.objs
  {
    var obj := a.online[id];
    var c := a.objs[obj];
    if c.pushList == [] then a
    else a.(objs := a.objs[obj := c.(pushList := c.pushList[1..])])
  }

  /** A connection object is closed and its owner destroys it: the push list is
      given away, the id it was initialised with leaves the register, if it is
      there, and the object is recycled. */
  function Destroyed(a: App, obj: nat): App
    requires obj in a.objs
  {
    App(a.online - {a.objs[obj].id},
        a.count - 1,
        a.objs[obj := a.objs[obj].(pushList := [])],
        AfterRecycle(a.pool, obj))
  }

  function Closed(a: App, id: nat): App
    requires id in a.online && a.online[id] in a.objs
  {
    Destroyed(a, a.online[id])
  }

  /** The reader reports the same failure twice. */
  function ClosedTwice(a: App, id: nat): App
    requires id in a.online && a.online[id] in a.objs
  {
    Destroyed(Closed(a, id), a.online[id])
  }

  // ---- Invariant ----

  ghost function Live(a: App): World
  {
    World(a.pool, multiset(a.online.Values))
  }

  ghost predicate Injective(m: map<nat, nat>)
  {
    forall c, d :: c in m && d in m && m[c] == m[d] ==> c == d
  }

  /** The register is injective and counted; every online id's object is
      initialised with that id; the objects in the register are exactly the
      live ones; and an object outside the register has an empty push list. */
  ghost predicate Sound(a: App)
  {
    && Injective(a.online)
    && a.count == |a.online|
    && Inv(Live(a))
    && (forall c :: c in a.online ==> a.online[c] in a.objs && a.objs[a.online[c]].id == c)
    && (forall o :: o in a.objs && o !in a.online.Values ==> a.objs[o].pushList == [])
    && (forall c :: c in a.online ==>
          forall m :: m in a.objs[a.online[c]].pushList ==> m.conn == c)
  }

  lemma RegisterGrows(m: map<nat, nat>, id: nat, obj: nat)
    requires Injective(m) && id !in m && obj !in m.Values
    ensures Injective(m[id := obj])
    ensures m[id := obj].Values == m.Values + {obj} && |m[id := obj]| == |m| + 1
  {
    var n := m[id := obj];
    assert n[id] == obj;
    forall v | v in m.Values
      ensures v in n.Values
    {
      var c :| c in m && m[c] == v;
      assert n[c] == v;
    }
    forall c, d | c in n && d in n && n[c] == n[d]
      ensures c == d
    {
      assert c != id ==> m[c] in m.Values;
      assert d != id ==> m[d] in m.Values;
    }
  }

  lemma RegisterShrinks(m: map<nat, nat>, id: nat)
    requires Injective(m) && id in m
    ensures Injective(m - {id})
    ensures (m - {id}).Values == m.Values - {m[id]} && |m - {id}| == |m| - 1
  {
    var n := m - {id};
    forall v | v in m.Values && v != m[id]
      ensures v in n.Values
    {
      var c :| c in m && m[c] == v;
      assert n[c] == v;
    }
    assert m.Keys == n.Keys + {id};
  }

  lemma OpenOneObjects(a: App, id: nat, c: nat)
    requires Sound(a) && id !in a.online && Gotten(a.pool) !in a.online.Values
    requires c in OpenOne(a, id).online
    ensures var b := OpenOne(a, id);
      && b.online[c] in b.objs && b.objs[b.online[c]].id == c
      && forall m :: m in b.objs[b.online[c]].pushList ==> m.conn == c
  {
    hide Inv, Gotten, AfterGet, Injective;
    if c != id {
      assert a.online[c] in a.online.Values;
    }
  }

  lemma OpenOneSound(a: App, id: nat)
    requires Sound(a) && id !in a.online
    ensures Sound(OpenOne(a, id))
    ensures OpenOne(a, id).online.Keys == a.online.Keys + {id}
  {
    hide Inv, Gotten, AfterGet, Injective;
    GetKeeps(Live(a));
    assert Gotten(a.pool) !in a.online.Values;
    RegisterGrows(a.online, id, Gotten(a.pool));
    LiveOpened(a, id);
    var b := OpenOne(a, id);
    forall c | c in b.online
      ensures b.online[c] in b.objs && b.objs[b.online[c]].id == c
      ensures forall m :: m in b.objs[b.online[c]].pushList ==> m.conn == c
    {
      OpenOneObjects(a, id, c);
    }
  }

  lemma LiveOpened(a: App, id: nat)
    requires a.online[id := Gotten(a.pool)].Values == a.online.Values + {Gotten(a.pool)}
    requires Gotten(a.pool) !in a.online.Values
    ensures Live(OpenOne(a, id)) == Step(Live(a), Get)
  {
    hide Gotten, AfterGet;
  }

  ghost predicate NoRepeat(ids: seq<nat>)
  {
    forall i, j :: 0 <= i < j < |ids| ==> ids[i] != ids[j]
  }

  lemma {:induction false} OpenAllSound(a: App, ids: seq<nat>)
    requires Sound(a) && NoRepeat(ids)
    requires forall id :: id in ids ==> id !in a.online
    ensures Sound(OpenAll(a, ids))
    ensures OpenAll(a, ids).online.Keys == a.online.Keys + set id | id in ids
  {
    hide Sound, OpenOne;
    if ids != [] {
      var n := |ids| - 1;
      var last := ids[n];
      OpenAllSound(a, ids[..n]);
      assert last !in ids[..n];
      OpenOneSound(OpenAll(a, ids[..n]), last);
      assert ids == ids[..n] + [last];
    }
  }

  /** The connection is served by the same object in the same state. */
  ghost predicate Same(a: App, b: App, c: nat)
    requires c in a.online
  {
    && a.online[c] in a.objs
    && c in b.online && b.online[c] == a.online[c]
    && b.online[c] in b.objs && b.objs[b.online[c]] == a.objs[a.online[c]]
  }

  lemma OpenOneNew(a: App, id: nat, c: nat)
    requires Sound(a) && id !in a.online
    ensures c in a.online ==> Same(a, OpenOne(a, id), c)
    ensures OpenOne(a, id).objs[OpenOne(a, id).online[id]] == Conn(id, INIT_STATE, [])
  {
    hide Inv, Gotten, AfterGet, Injective;
    GetKeeps(Live(a));
    assert Gotten(a.pool) !in a.online.Values;
    if c in a.online {
      assert a.online[c] in a.online.Values;
    }
  }

  /** Each new connection starts in the initial state with nothing to push, and the
      others stay as they are. */
  lemma {:induction false} OpenAllNew(a: App, ids: seq<nat>)
    requires Sound(a) && NoRepeat(ids)
    requires forall id :: id in ids ==> id !in a.online
    ensures forall id :: id in ids ==>
      id in OpenAll(a, ids).online && OpenAll(a, ids).online[id] in OpenAll(a, ids).objs
      && OpenAll(a, ids).objs[OpenAll(a, ids).online[id]] == Conn(id, INIT_STATE, [])
    ensures forall c :: c in a.online ==> Same(a, OpenAll(a, ids), c)
  {
    hide Sound, OpenOne;
    if ids == [] {
      SoundObjects(a);
    } else {
      var n := |ids| - 1;
      var last, b := ids[n], OpenAll(a, ids[..n]);
      OpenAllSound(a, ids[..n]);
      OpenAllNew(a, ids[..n]);
      assert last !in ids[..n] && ids == ids[..n] + [last];
      OpenOneSound(b, last);
      SoundObjects(OpenOne(b, last));
      OpenOneNew(b, last, last);
      forall c | c in b.online
        ensures Same(b, OpenOne(b, last), c)
      {
        OpenOneNew(b, last, c);
      }
    }
  }

  lemma SoundObjects(a: App)
    requires Sound(a)
    ensures forall c :: c in a.online ==> a.online[c] in a.objs
  {
  }

  /** newConnection keeps every promise of the register, whatever objects the
      cache hands back. */
  lemma OpenedSound(a: App, ids: seq<nat>)
    requires Sound(a) && NoRepeat(ids)
    requires forall id :: id in ids ==> id !in a.online
    ensures Sound(Opened(a, ids))
    ensures Opened(a, ids).online.Keys == a.online.Keys + set id | id in ids
    ensures forall id :: id in ids ==> Opened(a, ids).objs[Opened(a, ids).online[id]] == Conn(id, INIT_STATE, [])
    ensures forall c :: c in a.online ==> Same(a, Opened(a, ids), c)
  {
    OpenAllSound(a, ids);
    OpenAllNew(a, ids);
    var b := OpenAll(a, ids);
    assert Live(Opened(a, ids)) == Step(Live(b), Tick);
  }

  lemma ClosedSound(a: App, id: nat)
    requires Sound(a) && id in a.online
    ensures Sound(Closed(a, id)) && Closed(a, id).online == a.online - {id}
    ensures forall c :: c in a.online && c != id ==> Same(a, Closed(a, id), c)
  {
    hide Inv;
    ClosedOthers(a, id);
    hide Injective;
    var obj := a.online[id];
    RegisterShrinks(a.online, id);
    assert obj in a.online.Values;
    RecycleKeeps(Live(a), obj);
    LiveClosed(a, id);
    ClosedObjects(a, id);
  }

  lemma ClosedOthers(a: App, id: nat)
    requires Sound(a) && id in a.online
    ensures forall c :: c in a.online && c != id ==> Same(a, Closed(a, id), c)
  {
    hide Inv;
  }

  lemma LiveClosed(a: App, id: nat)
    requires id in a.online && a.online[id] in a.objs && a.objs[a.online[id]].id == id
    requires (a.online - {id}).Values == a.online.Values - {a.online[id]}
    ensures Live(Closed(a, id)) == Step(Live(a), Recycle(a.online[id]))
  {
    var obj := a.online[id];
    assert multiset(a.online.Values - {obj}) == multiset(a.online.Values) - multiset{obj};
  }

  lemma ClosedObjects(a: App, id: nat)
    requires Sound(a) && id in a.online
    ensures var b := Closed(a, id);
      && (forall c :: c in b.online ==> b.online[c] in b.objs && b.objs[b.online[c]].id == c)
      && (forall o :: o in b.objs && o !in b.online.Values ==> b.objs[o].pushList == [])
      && (forall c :: c in b.online ==>
            forall m :: m in b.objs[b.online[c]].pushList ==> m.conn == c)
  {
    hide Inv;
    RegisterShrinks(a.online, id);
  }

  /** A second destroy always breaks the register's promises: the count is one
      short of the register and the object is recycled twice. */
  lemma ClosedTwiceUnsound(a: App, id: nat)
    requires Sound(a) && id in a.online
    ensures var b := ClosedTwice(a, id);
      b.online == a.online - {id} && b.count == |b.online| - 1 && !Partition(Live(b)) && !Sound(b)
  {
    hide Partition;
    ClosedSound(a, id);
    RegisterShrinks(a.online, id);
    var c, b := Closed(a, id), ClosedTwice(a, id);
    hide Sound, Injective;
    assert b.online == c.online;
    SoundParts(c);
    RecycledTwice(c.pool, multiset(c.online.Values), a.online[id]);
    if Sound(b) {
      SoundParts(b);
    }
  }

  lemma SoundParts(a: App)
    requires Sound(a)
    ensures a.count == |a.online| && Partition(Live(a))
  {
    hide Partition;
  }

  /** A message is pushed onto the object that serves exactly its connection,
      and onto no other; that object's state changes exactly when the message
      switches it. */
  lemma PushedSound(a: App, m: Message)
    requires Sound(a) && m.conn in a.online
    ensures Sound(Pushed(a, m)) && Pushed(a, m).online == a.online
    ensures var obj := a.online[m.conn];
      && a.objs[obj].id == m.conn
      && Pushed(a, m).objs[obj].id == m.conn
      && Pushed(a, m).objs[obj].pushList == a.objs[obj].pushList + [m]
      && Pushed(a, m).objs[obj].state == (if m.switchState then m.state else a.objs[obj].state)
      && (forall o :: o in a.objs && o != obj ==> Pushed(a, m).objs[o] == a.objs[o])
      && (forall c :: c in a.online && c != m.conn ==> a.online[c] != obj)
  {
    hide Inv;
    var b := Pushed(a, m);
    assert Live(b) == Live(a);
  }

  /** A finished message leaves the front of its connection's push list, and nothing
      else changes. */
  lemma WroteSound(a: App, id: nat)
    requires Sound(a) && id in a.online
    ensures Sound(Wrote(a, id)) && Wrote(a, id).online == a.online
    ensures var obj, b := a.online[id], Wrote(a, id);
      && b.objs.Keys == a.objs.Keys
      && (forall o :: o in a.objs && o != obj ==> b.objs[o] == a.objs[o])
      && b.objs[obj].state == a.objs[obj].state && b.objs[obj].id == id
      && (if a.objs[obj].pushList == [] then b.objs[obj].pushList == []
          else a.objs[obj].pushList == [a.objs[obj].pushList[0]] + b.objs[obj].pushList)
  {
    hide Inv;
    assert Live(Wrote(a, id)) == Live(a);
  }
}
