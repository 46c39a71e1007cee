/** One IO thread's event handlers, in the form they run: loops that drain a
    list and update the register, the count and the cache. */
module IoApp {
  import opened CachePolicy
  import opened ConnectionCache
  import opened Lifecycle

  class Impl {
    const cache: Cache
    var online: map<nat, nat>
    var count: int
    var objs: map<nat, Conn>
    var collected: seq<Message>

    ghost function State(): App
      reads this, cache
    {
      App(online, count, objs, cache.pool)
    }

    ghost predicate Valid()
      reads this, cache, cache.idle, cache.cache, cache.recycling, cache.Nodes()
    {
      cache.Valid() && Sound(State())
    }

    constructor ()
      ensures Valid() && State() == NoApp && collected == []
      ensures fresh(cache) && fresh(cache.Nodes()) && fresh(cache.idle) && fresh(cache.cache) && fresh(cache.recycling)
    {
      cache := new Cache();
      online, count, objs, collected := map[], 0, map[], [];
      new;
      assert Live(NoApp) == Start;
      InvAlways([]);
    }

    /** One accepted socket: count it, take an object, initialise it and
        register it. */
    method Open(id: nat)
      requires cache.Valid()
      modifies this`online, this`count, this`objs
      modifies cache, cache.idle, cache.cache, cache.recycling, cache.Nodes()
      ensures cache.Valid() && State() == OpenOne(old(State()), id)
      ensures cache.Nodes() == old(cache.Nodes())
    {
      hide Cache.Lists, Gotten, AfterGet;
      count := count + 1;
      var obj := cache.Get();
      objs := objs[obj := Conn(id, INIT_STATE, if obj in objs then objs[obj].pushList else [])];
      online := online[id := obj];
    }

    /** The loop over the accepted sockets. */
    method OpenList(ids: seq<nat>)
      requires cache.Valid()
      modifies this`online, this`count, this`objs
      modifies cache, cache.idle, cache.cache, cache.recycling, cache.Nodes()
      ensures cache.Valid() && State() == OpenAll(old(State()), ids)
      ensures cache.Nodes() == old(cache.Nodes())
    {
      hide Cache.Valid, OpenOne;
      var list := ids;
      ghost var done := [];
      while list != []
        invariant ids == done + list
        invariant cache.Valid() && State() == OpenAll(old(State()), done)
        invariant cache.Nodes() == old(cache.Nodes())
      {
        var id := list[0];
        list := list[1..];
        Open(id);
        assert (done + [id])[..|done|] == done;
        done := done + [id];
      }
      assert done == ids;
    }

    /** newConnection: drains the queue of accepted sockets, then counts the
        loop. */
    method NewConnection(ids: seq<nat>)
      requires cache.Valid()
      modifies this`online, this`count, this`objs
      modifies cache, cache.idle, cache.cache, cache.recycling, cache.Nodes()
      ensures cache.Valid() && State() == Opened(old(State()), ids)
      ensures old(Sound(State())) && NoRepeat(ids) && (forall id :: id in ids ==> id !in old(online)) ==> Valid()
      ensures cache.Nodes() == old(cache.Nodes())
    {
      hide Cache.Valid, OpenAll, Sound;
      if Sound(State()) && NoRepeat(ids) && forall id :: id in ids ==> id !in online {
        OpenedSound(State(), ids);
      }
      OpenList(ids);
      cache.Tick();
    }

    /** The connection object closes: its push list is stolen, and destroy takes
        the id it was initialised with out of the register and recycles it,
        whether or not that was done before. */
    method Destroy(obj: nat) returns (stolen: seq<Message>)
      requires cache.Valid() && obj in objs
      modifies this`online, this`count, this`objs
      modifies cache, cache.idle, cache.recycling, cache.Nodes()
      ensures cache.Valid() && State() == Destroyed(old(State()), obj)
      ensures stolen == old(objs[obj].pushList)
      ensures old(Sound(State())) && obj in old(online.Values) ==> Valid()
      ensures old(cache.Nodes()) <= cache.Nodes() && fresh(cache.Nodes() - old(cache.Nodes()))
    {
      hide Cache.Valid, Sound;
      if Sound(State()) && obj in online.Values {
        DestroyedSound(State(), obj);
      }
      stolen := Unregister(obj);
      cache.Recycle(obj);
    }

    method Unregister(obj: nat) returns (stolen: seq<Message>)
      requires obj in objs
      modifies this`online, this`count, this`objs
      ensures stolen == old(objs[obj].pushList)
      ensures online == old(online) - {old(objs[obj].id)} && count == old(count) - 1
      ensures objs == old(objs)[obj := old(objs[obj]).(pushList := [])]
    {
      stolen := objs[obj].pushList;
      objs := objs[obj := objs[obj].(pushList := [])];
      count := count - 1;
      online := online - {objs[obj].id};
    }

    /** pushMessage: switch the state if asked, then queue; a message without a
        connection goes to the collector. */
    method PushMessage(m: Message, collecting: bool)
      requires Valid()
      modifies this`objs, this`collected
      ensures Valid()
      ensures m.conn in online ==>
        && State() == Pushed(old(State()), m) && collected == old(collected)
        && objs[online[m.conn]].state == if m.switchState then m.state else old(objs[online[m.conn]].state)
      ensures m.conn !in online ==>
        State() == old(State()) && collected == old(collected) + if collecting then [m] else []
    {
      hide Sound;
      if m.conn in online {
        SoundRegister(State(), m.conn);
        PushedSound(State(), m);
        var conn := objs[online[m.conn]];
        if m.switchState {
          conn := conn.(state := m.state);
        }
        conn := conn.(pushList := conn.pushList + [m]);
        objs := objs[online[m.conn] := conn];
        assert State() == Pushed(old(State()), m);
      } else if collecting {
        collected := collected + [m];
        assert State() == old(State());
      }
    }

    /** push: drains the IO thread's message list in order. */
    method Push(list: seq<Message>, collecting: bool)
      requires Valid()
      modifies this`objs, this`collected
      ensures Valid()
      ensures State() == PushedAll(old(State()), list)
      ensures collected == old(collected) + if collecting then Missed(old(State()), list) else []
    {
      hide Cache.Valid, Sound, Pushed;
      var rest := list;
      ghost var done := [];
      while rest != []
        invariant list == done + rest && Valid() && online == old(online)
        invariant State() == PushedAll(old(State()), done)
        invariant collected == old(collected) + if collecting then Missed(old(State()), done) else []
      {
        var m := rest[0];
        rest := rest[1..];
        if m.conn in online {
          SoundRegister(State(), m.conn);
        }
        PushMessage(m, collecting);
        assert (done + [m])[..|done|] == done;
        done := done + [m];
      }
      assert done == list;
    }
  }

  lemma DestroyedSound(a: App, obj: nat)
    requires Sound(a) && obj in a.online.Values && obj in a.objs
    ensures Sound(Destroyed(a, obj))
  {
    hide Sound;
    var id :| id in a.online && a.online[id] == obj;
    ClosedSound(a, id);
  }

  lemma SoundRegister(a: App, id: nat)
    requires Sound(a) && id in a.online
    ensures a.online[id] in a.objs
  {
  }

  /** The effect of a list of messages, one after the other. */
  ghost function PushedAll(a: App, ms: seq<Message>): App
  {
    if ms == [] then a
    else
      var b := PushedAll(a, ms[..|ms| - 1]);
      var m := ms[|ms| - 1];
      if m.conn in b.online && b.online[m.conn] in b.objs then Pushed(b, m) else b
  }

  /** The messages whose connection is gone. */
  ghost function Missed(a: App, ms: seq<Message>): seq<Message>
  {
    if ms == [] then []
    else
      Missed(a, ms[..|ms| - 1])
      + if ms[|ms| - 1].conn !in a.online then [ms[|ms| - 1]] else []
  }

  ghost function ForConn(ms: seq<Message>, c: nat): seq<Message>
  {
    if ms == [] then []
    else ForConn(ms[..|ms| - 1], c) + if ms[|ms| - 1].conn == c then [ms[|ms| - 1]] else []
  }

  lemma OwnObject(a: App, c: nat)
    requires Sound(a) && c in a.online
    ensures a.online[c] in a.objs && a.objs[a.online[c]].id == c
  {
  }

  lemma PushedOne(b: App, m: Message, c: nat)
    requires Sound(b) && c in b.online
    ensures var after := if m.conn in b.online && b.online[m.conn] in b.objs then Pushed(b, m) else b;
      && Sound(after) && after.online == b.online && b.online[c] in b.objs && b.online[c] in after.objs
      && after.objs[b.online[c]].id == c
      && after.objs[b.online[c]].pushList
         == b.objs[b.online[c]].pushList + if m.conn == c then [m] else []
  {
    hide Inv, Injective;
    if m.conn in b.online {
      PushedSound(b, m);
    }
  }

  /** Draining a list appends to each online connection's push list exactly the
      messages for it, in list order, and leaves the register as it was. */
  lemma {:induction false} DrainKeepsOrder(a: App, ms: seq<Message>, c: nat)
    requires Sound(a) && c in a.online
    ensures Sound(PushedAll(a, ms)) && PushedAll(a, ms).online == a.online
    ensures a.online[c] in a.objs && a.online[c] in PushedAll(a, ms).objs
    ensures PushedAll(a, ms).objs[a.online[c]].pushList
         == a.objs[a.online[c]].pushList + ForConn(ms, c)
    ensures PushedAll(a, ms).objs[a.online[c]].id == c
  {
    hide Sound, Pushed;
    OwnObject(a, c);
    if ms != [] {
      DrainKeepsOrder(a, ms[..|ms| - 1], c);
      PushedOne(PushedAll(a, ms[..|ms| - 1]), ms[|ms| - 1], c);
    }
  }
}
