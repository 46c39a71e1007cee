/** The whole front end as one step machine: accepting, opening, reading,
    authenticating, serving, pushing, closing and re-routing, in any order. */
module AuthGate {
  import opened CachePolicy
  import opened Common
  import opened Lifecycle

  /** `work` holds the messages queued for the workers, `routed` those on their
      way to an IO thread, `collected` those whose connection was gone.
      `accepted` and `closed` are history: the connections an AUTH pack was
      accepted for, and those destroyed. */
  datatype Sys = Sys(
    nextId: nat,
    queues: seq<seq<nat>>,
    apps: seq<App>,
    work: seq<Message>,
    routed: seq<Message>,
    collected: seq<Message>,
    table: map<int, Channel>,
    accepted: set<nat>,
    closed: set<nat>)

  function Init(n: nat): Sys
  {
    Sys(0, seq(n, _ => []), seq(n, _ => NoApp), [], [], [], map[], {}, {})
  }

  /** `dropped`: the accepted socket is closed because the limit is reached.
      `kept`: a collector is installed. `dispatched`: the broker took the
      message. `CloseTwice`: the reader reports one failure twice. */
  datatype Action =
    | Accept(io: nat, dropped: bool)
    | OpenQueued(io: nat)
    | Receive(io: nat, conn: nat, pack: Pack)
    | AuthWork(k: nat)
    | AppWork(k: nat, dispatched: bool, kept: bool)
    | PushNext(k: nat, kept: bool)
    | Written(io: nat, conn: nat)
    | Close(io: nat, conn: nat, kept: bool)
    | CloseTwice(io: nat, conn: nat, kept: bool)
    | Recollect(uid: int, n: nat)
    | Outside(msg: Message)

  // ---- Processors ----

  /** The dispatcher: a first pack becomes an authentication attempt. */
  function Dispatched(m: Message): Message
  {
    if m.state == INIT_STATE then m.(state := AUTH_STATE) else m
  }

  /** processErrorPack: answer by closing the connection. */
  function Refusal(m: Message): Message
  {
    m.(closeConn := true)
  }

  /** processAuthPack of the auth worker accepts. */
  predicate AcceptsAuth(m: Message)
  {
    && m.pack.Pack? && m.pack.kind.AuthKind?
    && m.pack.timely
    && m.state == AUTH_STATE
    && m.pack.uid != -1
    && m.pack.token != ""
  }

  /** The app worker acks and dispatches a MSG pack, or answers a TOUCH pack. */
  predicate Serves(m: Message)
  {
    && m.pack.Pack?
    && m.pack.timely
    && m.state == MSG_STATE
    && m.pack.uid != -1
    && (m.pack.kind.TouchKind? || (m.pack.kind.MsgKind? && m.pack.targets > 0))
  }

  predicate Reauths(m: Message)
  {
    && m.pack.Pack? && m.pack.kind.AuthKind?
    && m.pack.timely
    && m.state == MSG_STATE
    && m.pack.uid != -1
  }

  // ---- Re-routing of collected messages ----

  /** `int new_conn = channel._conn`, read back as an unsigned 64-bit id. */
  function ThroughInt(conn: nat): nat
  {
    var low := conn % 0x1_0000_0000;
    if low < 0x8000_0000 then low else 0xFFFF_FFFF_0000_0000 + low
  }

  function OfUser(ms: seq<Message>, uid: int): seq<Message>
  {
    if ms == [] then []
    else (if ms[0].uid == uid then [ms[0]] else []) + OfUser(ms[1..], uid)
  }

  function OfOthers(ms: seq<Message>, uid: int): seq<Message>
  {
    if ms == [] then []
    else (if ms[0].uid != uid then [ms[0]] else []) + OfOthers(ms[1..], uid)
  }

  function MaxConn(ms: seq<Message>): nat
    requires ms != []
  {
    if |ms| == 1 then ms[0].conn
    else
      var m := MaxConn(ms[..|ms| - 1]);
      if ms[|ms| - 1].conn > m then ms[|ms| - 1].conn else m
  }

  function Redirect(ms: seq<Message>, io: nat, conn: nat): seq<Message>
  {
    if ms == [] then []
    else [ms[0].(io := io, conn := conn)] + Redirect(ms[1..], io, conn)
  }

  /** failureRoute: forget the channel if it is no newer than the failed
      messages, else send them there. */
  function Recollected(s: Sys, uid: int, n: nat): Sys
    requires n <= |s.collected|
  {
    var group := OfUser(s.collected[..n], uid);
    var left := s.(collected := OfOthers(s.collected[..n], uid) + s.collected[n..]);
    if group == [] || uid !in s.table then left
    else if MaxConn(group) >= s.table[uid].conn then left.(table := s.table - {uid})
    else left.(routed := s.routed + Redirect(group, s.table[uid].io, ThroughInt(s.table[uid].conn)))
  }

  lemma FilterFirst(ms: seq<Message>, uid: int)
    requires ms != []
    ensures OfUser(ms, uid) == (if ms[0].uid == uid then [ms[0]] else []) + OfUser(ms[1..], uid)
    ensures OfOthers(ms, uid) == (if ms[0].uid == uid then [] else [ms[0]]) + OfOthers(ms[1..], uid)
  {
  }

  lemma FilterStep(a: seq<Message>, b: seq<Message>, uid: int)
    requires a != []
    requires OfUser(a[1..] + b, uid) == OfUser(a[1..], uid) + OfUser(b, uid)
    requires OfOthers(a[1..] + b, uid) == OfOthers(a[1..], uid) + OfOthers(b, uid)
    ensures OfUser(a + b, uid) == OfUser(a, uid) + OfUser(b, uid)
    ensures OfOthers(a + b, uid) == OfOthers(a, uid) + OfOthers(b, uid)
  {
    hide OfUser, OfOthers;
    assert (a + b)[1..] == a[1..] + b;
    FilterFirst(a, uid);
    FilterFirst(a + b, uid);
  }

  /** Filtering goes through the messages in order. */
  lemma {:induction false} FilterConcat(a: seq<Message>, b: seq<Message>, uid: int)
    ensures OfUser(a + b, uid) == OfUser(a, uid) + OfUser(b, uid)
    ensures OfOthers(a + b, uid) == OfOthers(a, uid) + OfOthers(b, uid)
  {
    if a == [] {
      assert a + b == b;
    } else {
      FilterConcat(a[1..], b, uid);
      FilterStep(a, b, uid);
    }
  }

  /** Each message is the user's or another's, and none is dropped or doubled. */
  lemma {:induction false} FilteredFrom(ms: seq<Message>, uid: int)
    ensures forall m :: m in OfUser(ms, uid) <==> m in ms && m.uid == uid
    ensures forall m :: m in OfOthers(ms, uid) <==> m in ms && m.uid != uid
    ensures |OfUser(ms, uid)| + |OfOthers(ms, uid)| == |ms|
  {
    if ms != [] {
      FilteredFrom(ms[1..], uid);
      assert ms == [ms[0]] + ms[1..];
    }
  }

  lemma {:induction false} RedirectedAt(ms: seq<Message>, io: nat, conn: nat)
    ensures |Redirect(ms, io, conn)| == |ms|
    ensures forall i :: 0 <= i < |ms| ==> Redirect(ms, io, conn)[i] == ms[i].(io := io, conn := conn)
  {
    if ms != [] {
      RedirectedAt(ms[1..], io, conn);
    }
  }

  lemma RedirectedFrom(ms: seq<Message>, io: nat, conn: nat)
    ensures forall x :: x in Redirect(ms, io, conn) ==>
      exists m :: m in ms && x == m.(io := io, conn := conn)
  {
    RedirectedAt(ms, io, conn);
    forall x | x in Redirect(ms, io, conn)
      ensures exists m :: m in ms && x == m.(io := io, conn := conn)
    {
      var i :| 0 <= i < |ms| && Redirect(ms, io, conn)[i] == x;
      assert ms[i] in ms;
    }
  }

  lemma {:induction false} MaxConnReaches(ms: seq<Message>, conn: nat)
    requires ms != []
    ensures MaxConn(ms) >= conn <==> exists m :: m in ms && m.conn >= conn
  {
    var n := |ms| - 1;
    assert ms == ms[..n] + [ms[n]] && ms[n] in ms;
    if n > 0 {
      MaxConnReaches(ms[..n], conn);
    }
  }

  /** What an `int` does to the id of a channel. */
  lemma ThroughIntExactly(conn: nat)
    requires conn < 0x1_0000_0000_0000_0000
    ensures ThroughInt(conn) == conn <==> conn < 0x8000_0000 || conn >= 0xFFFF_FFFF_8000_0000
  {
  }

  /** The user's messages leave the collector, the others stay in order. Some failed
      message as new as the user's channel forgets the channel; else they all follow
      the channel in order. Without a channel they are lost. */
  lemma RecollectExactly(s: Sys, uid: int, n: nat)
    requires n <= |s.collected|
    ensures var t, group := Next(s, Recollect(uid, n)), OfUser(s.collected[..n], uid);
      && t.collected == OfOthers(s.collected[..n], uid) + s.collected[n..]
      && t == s.(collected := t.collected, routed := t.routed, table := t.table)
      && (t.table != s.table <==> uid in s.table && exists m :: m in group && m.conn >= s.table[uid].conn)
      && (t.table != s.table ==> t.table == s.table - {uid} && t.routed == s.routed)
      && (uid !in s.table ==> t.routed == s.routed)
      && (uid in s.table && t.table == s.table ==>
            && |t.routed| == |s.routed| + |group| && t.routed[..|s.routed|] == s.routed
            && forall i :: 0 <= i < |group| ==>
                 t.routed[|s.routed| + i] ==
                 group[i].(io := s.table[uid].io, conn := ThroughInt(s.table[uid].conn)))
  {
    hide OfUser, OfOthers, MaxConn, Redirect, ThroughInt;
    var group := OfUser(s.collected[..n], uid);
    if group != [] && uid in s.table {
      MaxConnReaches(group, s.table[uid].conn);
      RedirectedAt(group, s.table[uid].io, ThroughInt(s.table[uid].conn));
    }
  }

  // ---- Steps ----

  function Without(ms: seq<Message>, k: nat): seq<Message>
    requires k < |ms|
  {
    ms[..k] + ms[k + 1..]
  }

  /** The object registered for the connection was last initialised for it, so
      its socket is the connection's. */
  predicate Serving(a: App, conn: nat)
  {
    conn in a.online && a.online[conn] in a.objs && a.objs[a.online[conn]].id == conn
  }

  predicate Enabled(s: Sys, a: Action)
  {
    match a
    case Accept(io, dropped) => io < |s.queues|
    case OpenQueued(io) => io < |s.queues| && io < |s.apps|
    case Receive(io, conn, _) => io < |s.apps| && Serving(s.apps[io], conn)
    case AuthWork(k) => k < |s.work| && s.work[k].state == AUTH_STATE
    case AppWork(k, _, _) => k < |s.work| && s.work[k].state != AUTH_STATE
    case PushNext(k, _) => k < |s.routed| && s.routed[k].io < |s.apps|
    case Written(io, conn) => io < |s.apps| && Serving(s.apps[io], conn)
    case Close(io, conn, _) => io < |s.apps| && Serving(s.apps[io], conn)
    case CloseTwice(io, conn, _) => io < |s.apps| && Serving(s.apps[io], conn)
    case Recollect(_, n) => n <= |s.collected|
    case Outside(msg) => !msg.switchState
  }

  function AuthWorked(s: Sys, k: nat): Sys
    requires k < |s.work|
  {
    var m := s.work[k];
    var t := s.(work := Without(s.work, k));
    if AcceptsAuth(m) then
      t.(accepted := s.accepted + {m.conn},
         table := s.table[m.pack.uid := Channel(m.io, m.conn)],
         routed := s.routed + [m.(state := MSG_STATE, switchState := true, uid := m.pack.uid)])
    else
      t.(routed := s.routed + [Refusal(m)])
  }

  /** The ack of a MSG pack carries no state switch; its own state is never
      read. */
  function AppWorked(s: Sys, k: nat, dispatched: bool, kept: bool): Sys
    requires k < |s.work|
  {
    var m := s.work[k];
    var t := s.(work := Without(s.work, k));
    if Serves(m) && m.pack.kind.MsgKind? then
      t.(routed := s.routed + [m.(uid := m.pack.uid, switchState := false)],
         collected := s.collected + if !dispatched && kept then [m.(uid := m.pack.uid)] else [])
    else if Serves(m) then
      t.(table := s.table[m.pack.uid := Channel(m.io, m.conn)],
         routed := s.routed + [m.(uid := m.pack.uid)])
    else if Reauths(m) then
      t.(routed := s.routed + [m.(uid := m.pack.uid)])
    else
      t.(routed := s.routed + [Refusal(m)])
  }

  function PushedNext(s: Sys, k: nat, kept: bool): Sys
    requires k < |s.routed| && s.routed[k].io < |s.apps|
  {
    var m := s.routed[k];
    var a := s.apps[m.io];
    var t := s.(routed := Without(s.routed, k));
    if m.conn in a.online && a.online[m.conn] in a.objs then t.(apps := s.apps[m.io := Pushed(a, m)])
    else if kept then t.(collected := s.collected + [m])
    else t
  }

  /** Only the head of the push list reaches the collector: the queue's put
      cuts the chain behind it. */
  function ClosedConn(s: Sys, io: nat, conn: nat, kept: bool): Sys
    requires io < |s.apps| && conn in s.apps[io].online && s.apps[io].online[conn] in s.apps[io].objs
  {
    var a := s.apps[io];
    var list := a.objs[a.online[conn]].pushList;
    s.(apps := s.apps[io := Closed(a, conn)],
       closed := s.closed + {conn},
       collected := s.collected + if kept && list != [] then [list[0]] else [])
  }

  function ClosedConnTwice(s: Sys, io: nat, conn: nat, kept: bool): Sys
    requires io < |s.apps| && conn in s.apps[io].online && s.apps[io].online[conn] in s.apps[io].objs
  {
    ClosedConn(s, io, conn, kept).(apps := s.apps[io := ClosedTwice(s.apps[io], conn)])
  }

  function Received(s: Sys, io: nat, conn: nat, pack: Pack): Sys
    requires io < |s.apps| && conn in s.apps[io].online && s.apps[io].online[conn] in s.apps[io].objs
  {
    var state := s.apps[io].objs[s.apps[io].online[conn]].state;
    s.(work := s.work + [Dispatched(Message(state, io, conn, -1, false, false, pack))])
  }

  /** One atomic step; a step that is not enabled changes nothing. */
  function Next(s: Sys, a: Action): Sys
  {
    if !Enabled(s, a) then s else
    match a
    case Accept(io, dropped) =>
      var t := s.(nextId := s.nextId + 1);
      if dropped then t else t.(queues := s.queues[io := s.queues[io] + [s.nextId + 1]])
    case OpenQueued(io) =>
      s.(queues := s.queues[io := []], apps := s.apps[io := Opened(s.apps[io], s.queues[io])])
    case Receive(io, conn, pack) => Received(s, io, conn, pack)
    case AuthWork(k) => AuthWorked(s, k)
    case AppWork(k, dispatched, kept) => AppWorked(s, k, dispatched, kept)
    case PushNext(k, kept) => PushedNext(s, k, kept)
    case Written(io, conn) => s.(apps := s.apps[io := Wrote(s.apps[io], conn)])
    case Close(io, conn, kept) => ClosedConn(s, io, conn, kept)
    case CloseTwice(io, conn, kept) => ClosedConnTwice(s, io, conn, kept)
    case Recollect(uid, n) => Recollected(s, uid, n)
    case Outside(msg) => s.(routed := s.routed + [msg])
  }

  function Run(s: Sys, actions: seq<Action>): Sys
  {
    if actions == [] then s else Next(Run(s, actions[..|actions| - 1]), actions[|actions| - 1])
  }

  // ---- Every connection id is in one place, and never comes back ----

  /** The ids queued for or online at one IO thread. */
  ghost function Held(q: seq<nat>, a: App): set<nat>
  {
    (set id | id in q) + a.online.Keys
  }

  /** The queued ids are new to the thread. */
  ghost predicate Queued(q: seq<nat>, a: App)
  {
    NoRepeat(q) && forall id :: id in q ==> id !in a.online
  }

  ghost predicate Known(held: set<nat>, nextId: nat, closed: set<nat>)
  {
    forall c :: c in held ==> 1 <= c <= nextId && c !in closed
  }

  ghost predicate IdsPlacedAll(queues: seq<seq<nat>>, apps: seq<App>, nextId: nat, closed: set<nat>)
  {
    && |queues| == |apps|
    && (forall i :: 0 <= i < |apps| ==> Queued(queues[i], apps[i]))
    && (forall i :: 0 <= i < |apps| ==> Known(Held(queues[i], apps[i]), nextId, closed))
    && (forall i, j :: 0 <= i < j < |apps| ==> Held(queues[i], apps[i]) !! Held(queues[j], apps[j]))
    && (forall c :: c in closed ==> 1 <= c <= nextId)
  }

  /** Each id is queued or online at one IO thread at most, and none of a destroyed
      connection is. */
  ghost predicate IdsPlaced(s: Sys)
  {
    IdsPlacedAll(s.queues, s.apps, s.nextId, s.closed)
  }

  ghost predicate AllSound(s: Sys)
  {
    forall i :: 0 <= i < |s.apps| ==> Sound(s.apps[i])
  }

  ghost predicate Placed(s: Sys)
  {
    IdsPlaced(s) && AllSound(s)
  }

  lemma InitPlaced(n: nat)
    ensures Placed(Init(n))
  {
    assert Live(NoApp) == Start;
    InvAlways([]);
    assert Sound(NoApp);
  }

  /** A step at one IO thread that only brings in new ids, and marks as closed
      only ids it drops, keeps every id in one place. */
  lemma PlacedAt(s: Sys, t: Sys, io: nat, q: seq<nat>, a: App)
    requires IdsPlaced(s) && io < |s.apps|
    requires t.queues == s.queues[io := q] && t.apps == s.apps[io := a]
    requires Queued(q, a)
    requires s.nextId <= t.nextId
    requires forall c :: c in Held(q, a) ==>
      c !in t.closed && (c in Held(s.queues[io], s.apps[io]) || s.nextId < c <= t.nextId)
    requires forall c :: c in t.closed ==> c in s.closed || c in Held(s.queues[io], s.apps[io])
    ensures IdsPlaced(t)
  {
    hide Queued, Held;
  }

  lemma PlacedAccept(s: Sys, io: nat, dropped: bool)
    requires IdsPlaced(s) && io < |s.queues|
    ensures IdsPlaced(Next(s, Accept(io, dropped)))
  {
    var id := s.nextId + 1;
    assert id !in Held(s.queues[io], s.apps[io]) && id !in s.closed;
    var q := if dropped then s.queues[io] else s.queues[io] + [id];
    PlacedAt(s, Next(s, Accept(io, dropped)), io, q, s.apps[io]);
  }

  lemma {:induction false} OpenAllKeys(a: App, ids: seq<nat>)
    ensures OpenAll(a, ids).online.Keys == a.online.Keys + set id | id in ids
  {
    hide Gotten, AfterGet;
    if ids != [] {
      var n := |ids| - 1;
      OpenAllKeys(a, ids[..n]);
      assert ids == ids[..n] + [ids[n]];
    }
  }

  lemma PlacedOpen(s: Sys, io: nat)
    requires IdsPlaced(s) && io < |s.queues|
    ensures IdsPlaced(Next(s, OpenQueued(io)))
  {
    hide OpenAll;
    OpenAllKeys(s.apps[io], s.queues[io]);
    PlacedAt(s, Next(s, OpenQueued(io)), io, [], Opened(s.apps[io], s.queues[io]));
  }

  /** A step that leaves a thread's register as it is. */
  lemma PlacedSame(s: Sys, t: Sys, io: nat, b: App)
    requires IdsPlaced(s) && io < |s.apps| && b.online == s.apps[io].online
    requires t.queues == s.queues && t.apps == s.apps[io := b] && t.nextId == s.nextId && t.closed == s.closed
    ensures IdsPlaced(t)
  {
    assert Held(s.queues[io], b) == Held(s.queues[io], s.apps[io]);
    PlacedAt(s, t, io, s.queues[io], b);
  }

  lemma PlacedDrop(s: Sys, t: Sys, io: nat, conn: nat, b: App)
    requires IdsPlaced(s) && io < |s.apps| && conn in s.apps[io].online
    requires b.online == s.apps[io].online - {conn}
    requires t.queues == s.queues && t.apps == s.apps[io := b]
    requires t.nextId == s.nextId && t.closed == s.closed + {conn}
    ensures IdsPlaced(t)
  {
    assert conn in Held(s.queues[io], s.apps[io]);
    PlacedAt(s, t, io, s.queues[io], b);
  }

  lemma IdsPlacedNext(s: Sys, a: Action)
    requires IdsPlaced(s)
    ensures IdsPlaced(Next(s, a))
    ensures s.closed <= Next(s, a).closed && s.nextId <= Next(s, a).nextId
  {
    hide IdsPlacedAll;
    if Enabled(s, a) {
      match a
      case Accept(io, dropped) => SameLength(s); PlacedAccept(s, io, dropped);
      case OpenQueued(io) => PlacedOpen(s, io);
      case PushNext(k, kept) =>
        var m := s.routed[k];
        PlacedSame(s, Next(s, a), m.io, Next(s, a).apps[m.io]);
      case Written(io, conn) => PlacedSame(s, Next(s, a), io, Wrote(s.apps[io], conn));
      case Close(io, conn, kept) => PlacedDrop(s, Next(s, a), io, conn, Closed(s.apps[io], conn));
      case CloseTwice(io, conn, kept) => PlacedDrop(s, Next(s, a), io, conn, ClosedTwice(s.apps[io], conn));
      case Receive(_, _, _) =>
      case AuthWork(_) =>
      case AppWork(_, _, _) =>
      case Recollect(_, _) =>
      case Outside(_) =>
    }
  }

  lemma SameLength(s: Sys)
    requires IdsPlaced(s)
    ensures |s.queues| == |s.apps|
  {
  }

  /** Every step but a second destroy keeps every thread's register sound. */
  lemma SoundNext(s: Sys, a: Action)
    requires Placed(s) && !a.CloseTwice?
    ensures AllSound(Next(s, a))
  {
    hide Sound, Opened, Pushed, Wrote, Closed, AllSound, IdsPlaced, Received, AuthWorked, AppWorked, Recollected;
    if Enabled(s, a) {
      match a
      case OpenQueued(io) =>
        PlacedSound(s, io);
        QueuedThere(s, io);
        OpenedSound(s.apps[io], s.queues[io]);
        SoundAt(s, Next(s, a), io, Opened(s.apps[io], s.queues[io]));
      case PushNext(k, kept) =>
        var m := s.routed[k];
        PlacedSound(s, m.io);
        if m.conn in s.apps[m.io].online {
          PushedSound(s.apps[m.io], m);
        }
        SoundAt(s, Next(s, a), m.io, Next(s, a).apps[m.io]);
      case Written(io, conn) =>
        PlacedSound(s, io);
        WroteSound(s.apps[io], conn);
        SoundAt(s, Next(s, a), io, Wrote(s.apps[io], conn));
      case Close(io, conn, kept) =>
        PlacedSound(s, io);
        ClosedSound(s.apps[io], conn);
        SoundAt(s, Next(s, a), io, Closed(s.apps[io], conn));
      case _ =>
        SameApps(s, a);
        SoundSame(s, Next(s, a));
    }
  }

  lemma SoundAt(s: Sys, t: Sys, io: nat, b: App)
    requires AllSound(s) && io < |s.apps| && t.apps == s.apps[io := b] && Sound(b)
    ensures AllSound(t)
  {
    hide Sound;
  }

  lemma SoundSame(s: Sys, t: Sys)
    requires AllSound(s) && t.apps == s.apps
    ensures AllSound(t)
  {
    hide Sound;
  }

  lemma QueuedThere(s: Sys, io: nat)
    requires IdsPlaced(s) && io < |s.apps|
    ensures |s.queues| == |s.apps| && Queued(s.queues[io], s.apps[io])
  {
    hide Queued, Held;
  }

  lemma SameApps(s: Sys, a: Action)
    requires a.Accept? || a.Receive? || a.AuthWork? || a.AppWork? || a.Recollect? || a.Outside?
    ensures Next(s, a).apps == s.apps
  {
  }

  /** No failure is reported twice. */
  predicate Single(actions: seq<Action>)
  {
    forall a :: a in actions ==> !a.CloseTwice?
  }

  lemma {:induction false} IdsPlacedAlways(n: nat, actions: seq<Action>)
    ensures IdsPlaced(Run(Init(n), actions))
  {
    if actions == [] {
      InitPlaced(n);
    } else {
      var k := |actions| - 1;
      IdsPlacedAlways(n, actions[..k]);
      IdsPlacedNext(Run(Init(n), actions[..k]), actions[k]);
    }
  }

  lemma {:induction false} PlacedAlways(n: nat, actions: seq<Action>)
    requires Single(actions)
    ensures Placed(Run(Init(n), actions))
  {
    hide Next;
    if actions == [] {
      InitPlaced(n);
    } else {
      var k := |actions| - 1;
      PlacedAlways(n, actions[..k]);
      IdsPlacedNext(Run(Init(n), actions[..k]), actions[k]);
      SoundNext(Run(Init(n), actions[..k]), actions[k]);
    }
  }

  /** Until a connection closes, every register is sound. */
  lemma {:induction false} SoundOrClosed(n: nat, actions: seq<Action>)
    ensures AllSound(Run(Init(n), actions)) || Run(Init(n), actions).closed != {}
  {
    hide Next;
    if actions == [] {
      InitPlaced(n);
    } else {
      var k := |actions| - 1;
      var s := Run(Init(n), actions[..k]);
      SoundOrClosed(n, actions[..k]);
      IdsPlacedAlways(n, actions[..k]);
      IdsPlacedNext(s, actions[k]);
      if s.closed == {} {
        SoundOrClosedNext(s, actions[k]);
      }
    }
  }

  lemma SoundOrClosedNext(s: Sys, a: Action)
    requires Placed(s)
    ensures AllSound(Next(s, a)) || Next(s, a).closed != {}
  {
    if a.CloseTwice? {
      hide AllSound;
    } else {
      hide Next;
      SoundNext(s, a);
    }
  }

  /** From `a` to `b` nothing changed but the object that serves `m`'s
      connection: its push list grew by `m`, and its state is now `m`'s if `m`
      switches it. */
  ghost predicate LandsOn(a: App, b: App, m: Message)
  {
    && Injective(a.online) && a.count == |a.online|
    && b.online == a.online && b.objs.Keys == a.objs.Keys
    && (m.conn in a.online ==>
          var o := a.online[m.conn];
          && o in a.objs && a.objs[o].id == m.conn && b.objs[o].id == m.conn
          && b.objs[o].pushList == a.objs[o].pushList + [m]
          && b.objs[o].state == if m.switchState then m.state else a.objs[o].state)
    && forall o :: o in a.objs && b.objs[o] != a.objs[o] ==>
         m.conn in a.online && a.online[m.conn] == o
  }

  /** In every run the register of each IO thread is injective and its size is
      the connection count; a message about to be pushed lands on the object
      initialised with its connection's id and on no other, or, when its
      connection is gone, goes to the collector. */
  lemma PushReachesItsConnection(n: nat, actions: seq<Action>, s: Sys, k: nat, kept: bool)
    requires Single(actions) && s == Run(Init(n), actions) && Enabled(s, PushNext(k, kept))
    ensures var m, t := s.routed[k], Next(s, PushNext(k, kept));
      && LandsOn(s.apps[m.io], t.apps[m.io], m)
      && t.routed == s.routed[..k] + s.routed[k + 1..]
      && t.collected == s.collected + (if m.conn !in s.apps[m.io].online && kept then [m] else [])
      && (forall i :: 0 <= i < |s.apps| && i != m.io ==> t.apps[i] == s.apps[i])
  {
    hide Run, Init, Placed, LandsOn, Pushed;
    hide Sound;
    PlacedAlways(n, actions);
    var m := s.routed[k];
    PlacedSound(s, m.io);
    PushLands(s.apps[m.io], m);
    SoundObjects(s.apps[m.io]);
  }

  lemma PlacedSound(s: Sys, io: nat)
    requires Placed(s) && io < |s.apps|
    ensures Sound(s.apps[io])
  {
  }

  lemma PushLands(a: App, m: Message)
    requires Sound(a)
    ensures LandsOn(a, if m.conn in a.online && a.online[m.conn] in a.objs then Pushed(a, m) else a, m)
  {
    hide Inv;
    if m.conn in a.online {
      PushedSound(a, m);
    }
  }

  lemma {:induction false} ClosedForGood(s: Sys, actions: seq<Action>, c: nat)
    requires IdsPlaced(s) && c in s.closed
    ensures IdsPlaced(Run(s, actions)) && c in Run(s, actions).closed
  {
    if actions != [] {
      var k := |actions| - 1;
      ClosedForGood(s, actions[..k], c);
      IdsPlacedNext(Run(s, actions[..k]), actions[k]);
    }
  }

  ghost predicate OfflineAt(s: Sys, c: nat, i: nat)
  {
    i < |s.apps| ==> c !in s.apps[i].online
  }

  /** However often it was reported, a destroyed connection's id never comes online
      again, so a message still
      in flight for it is never pushed onto whoever reuses its object. */
  lemma NoSecondLife(n: nat, before: seq<Action>, after: seq<Action>, c: nat, i: nat)
    requires c in Run(Init(n), before).closed
    ensures OfflineAt(Run(Run(Init(n), before), after), c, i)
  {
    hide Run, Init;
    IdsPlacedAlways(n, before);
    ClosedForGood(Run(Init(n), before), after, c);
    var s := Run(Run(Init(n), before), after);
    if i < |s.apps| {
      assert Known(Held(s.queues[i], s.apps[i]), s.nextId, s.closed);
    }
  }

  // ---- The gate ----

  /** A state switch in flight is for an accepted connection, or for an id no
      connection has. */
  ghost predicate SwitchOk(m: Message, accepted: set<nat>)
  {
    m.switchState ==>
      m.state == MSG_STATE && (m.conn in accepted || m.conn == 0 || m.conn > 0x1_0000_0000)
  }

  ghost predicate SwitchesOk(ms: seq<Message>, accepted: set<nat>)
  {
    forall m :: m in ms ==> SwitchOk(m, accepted)
  }

  ghost predicate WorkOk(m: Message, nextId: nat, accepted: set<nat>)
  {
    && !m.switchState && 1 <= m.conn <= nextId
    && (m.state == MSG_STATE ==> m.conn in accepted)
  }

  ghost predicate AppOk(a: App, accepted: set<nat>)
  {
    && (forall o :: o in a.objs ==> SwitchesOk(a.objs[o].pushList, accepted))
    && (forall c :: c in a.online && a.online[c] in a.objs && a.objs[a.online[c]].state == MSG_STATE ==>
          c in accepted)
  }

  ghost predicate Guarded(s: Sys)
  {
    && (forall i :: 0 <= i < |s.apps| ==> AppOk(s.apps[i], s.accepted))
    && (forall m :: m in s.work ==> WorkOk(m, s.nextId, s.accepted))
    && SwitchesOk(s.routed, s.accepted)
    && SwitchesOk(s.collected, s.accepted)
    && (forall u :: u in s.table ==> s.table[u].conn in s.accepted)
    && (forall c :: c in s.accepted ==> 1 <= c <= s.nextId)
  }

  lemma OpenOneOk(a: App, id: nat, accepted: set<nat>)
    requires AppOk(a, accepted) && Gotten(a.pool) !in a.online.Values
    ensures AppOk(OpenOne(a, id), accepted)
  {
    hide Gotten, AfterGet, SwitchOk;
    var b := OpenOne(a, id);
    forall c | c in b.online && b.online[c] in b.objs && b.objs[b.online[c]].state == MSG_STATE
      ensures c in accepted
    {
      assert a.online[c] in a.online.Values;
    }
  }

  lemma GottenIsNew(a: App)
    requires Sound(a)
    ensures Gotten(a.pool) !in a.online.Values
  {
    hide Inv, Gotten;
    GetKeeps(Live(a));
  }

  lemma {:induction false} OpenAllOk(a: App, ids: seq<nat>, accepted: set<nat>)
    requires Sound(a) && Queued(ids, a) && AppOk(a, accepted)
    ensures AppOk(OpenAll(a, ids), accepted)
  {
    hide Sound, OpenOne, AppOk;
    if ids != [] {
      var n := |ids| - 1;
      OpenAllOk(a, ids[..n], accepted);
      OpenAllSound(a, ids[..n]);
      GottenIsNew(OpenAll(a, ids[..n]));
      OpenOneOk(OpenAll(a, ids[..n]), ids[n], accepted);
    }
  }

  /** With two ids at most and one of them closed, no two share a thread. */
  ghost predicate Alone(s: Sys)
  {
    s.nextId <= 2 && s.closed != {}
  }

  lemma AloneThere(s: Sys, io: nat, c: nat, d: nat)
    requires IdsPlaced(s) && Alone(s) && io < |s.apps|
    requires c in Held(s.queues[io], s.apps[io]) && d in Held(s.queues[io], s.apps[io])
    ensures c == d
  {
    hide Held, Queued;
    var x :| x in s.closed;
    assert Known(Held(s.queues[io], s.apps[io]), s.nextId, s.closed);
  }

  /** An empty register and one queued id. */
  lemma OpenFirstOk(a: App, ids: seq<nat>, accepted: set<nat>)
    requires AppOk(a, accepted) && (ids == [] || (|ids| == 1 && a.online == map[]))
    ensures AppOk(OpenAll(a, ids), accepted)
  {
    hide OpenOne, AppOk;
    if ids != [] {
      assert ids[..0] == [] && OpenAll(a, []) == a;
      OpenOneOk(a, ids[0], accepted);
    }
  }

  lemma AloneOpens(s: Sys, io: nat)
    requires IdsPlaced(s) && Alone(s) && io < |s.apps|
    ensures s.queues[io] == [] || (|s.queues[io]| == 1 && s.apps[io].online == map[])
  {
    var q, a := s.queues[io], s.apps[io];
    assert Queued(q, a);
    if q != [] {
      if |q| > 1 {
        AloneThere(s, io, q[0], q[1]);
      }
      forall c | c in a.online
        ensures false
      {
        AloneThere(s, io, q[0], c);
      }
    }
  }

  /** The registers are sound, or too few ids are left to share an object. */
  ghost predicate Fit(s: Sys)
  {
    IdsPlaced(s) && (AllSound(s) || Alone(s))
  }

  lemma FitInjective(s: Sys, io: nat)
    requires Fit(s) && io < |s.apps|
    ensures Injective(s.apps[io].online)
  {
    hide IdsPlaced, Inv;
    if AllSound(s) {
      PlacedSound(s, io);
    } else {
      forall c, d | c in s.apps[io].online && d in s.apps[io].online
        ensures c == d
      {
        AloneThere(s, io, c, d);
      }
    }
  }

  lemma GuardedOpen(s: Sys, io: nat)
    requires Fit(s) && Guarded(s) && io < |s.apps|
    ensures Guarded(Next(s, OpenQueued(io)))
  {
    hide WorkOk, SwitchesOk, Sound, OpenAll;
    var a := s.apps[io];
    if AllSound(s) {
      assert Queued(s.queues[io], a);
      OpenAllOk(a, s.queues[io], s.accepted);
    } else {
      AloneOpens(s, io);
      OpenFirstOk(a, s.queues[io], s.accepted);
    }
    var b := Opened(a, s.queues[io]);
    assert AppOk(b, s.accepted);
  }

  lemma GuardedReceive(s: Sys, io: nat, conn: nat, pack: Pack)
    requires IdsPlaced(s) && Guarded(s) && Enabled(s, Receive(io, conn, pack))
    ensures Guarded(Received(s, io, conn, pack))
  {
    hide SwitchesOk, Sound;
    assert conn in Held(s.queues[io], s.apps[io]);
    assert Known(Held(s.queues[io], s.apps[io]), s.nextId, s.closed);
    assert AppOk(s.apps[io], s.accepted);
  }

  lemma GuardedAuth(s: Sys, k: nat)
    requires Guarded(s) && k < |s.work|
    ensures Guarded(AuthWorked(s, k))
  {
    var m := s.work[k];
    assert WorkOk(m, s.nextId, s.accepted);
    var t := AuthWorked(s, k);
    assert s.accepted <= t.accepted;
    forall x | x in t.work
      ensures WorkOk(x, t.nextId, t.accepted)
    {
      assert x in s.work && WorkOk(x, s.nextId, s.accepted);
    }
    forall i | 0 <= i < |s.apps|
      ensures AppOk(t.apps[i], t.accepted)
    {
      assert AppOk(s.apps[i], s.accepted);
    }
  }

  lemma GuardedApp(s: Sys, k: nat, dispatched: bool, kept: bool)
    requires Guarded(s) && k < |s.work|
    ensures Guarded(AppWorked(s, k, dispatched, kept))
  {
    hide AppOk;
    assert WorkOk(s.work[k], s.nextId, s.accepted);
  }

  lemma PushedOk(a: App, m: Message, nextId: nat, accepted: set<nat>)
    requires Injective(a.online) && AppOk(a, accepted) && SwitchOk(m, accepted)
    requires m.conn in a.online && a.online[m.conn] in a.objs && 1 <= m.conn <= nextId <= 0x1_0000_0000
    ensures AppOk(Pushed(a, m), accepted)
  {
    var b := Pushed(a, m);
    var obj := a.online[m.conn];
    forall o | o in b.objs
      ensures SwitchesOk(b.objs[o].pushList, accepted)
    {
      assert SwitchesOk(a.objs[o].pushList, accepted);
    }
  }

  lemma GuardedPush(s: Sys, k: nat, kept: bool)
    requires Fit(s) && Guarded(s) && s.nextId <= 0x1_0000_0000
    requires Enabled(s, PushNext(k, kept))
    ensures Guarded(PushedNext(s, k, kept))
  {
    hide WorkOk, SwitchOk, AppOk, Sound, Pushed;
    var m := s.routed[k];
    var a := s.apps[m.io];
    assert SwitchOk(m, s.accepted);
    if m.conn in a.online && a.online[m.conn] in a.objs {
      assert m.conn in Held(s.queues[m.io], a);
      assert Known(Held(s.queues[m.io], a), s.nextId, s.closed);
      FitInjective(s, m.io);
      PushedOk(a, m, s.nextId, s.accepted);
    }
  }

  lemma GuardedWritten(s: Sys, io: nat, conn: nat)
    requires Guarded(s) && Enabled(s, Written(io, conn))
    ensures Guarded(Next(s, Written(io, conn)))
  {
    hide WorkOk, SwitchOk;
    var a := s.apps[io];
    assert AppOk(a, s.accepted);
    assert SwitchesOk(a.objs[a.online[conn]].pushList, s.accepted);
    assert AppOk(Wrote(a, conn), s.accepted);
  }

  lemma GuardedClose(s: Sys, io: nat, conn: nat, kept: bool)
    requires Guarded(s) && Enabled(s, Close(io, conn, kept))
    ensures Guarded(ClosedConn(s, io, conn, kept))
  {
    hide WorkOk, SwitchOk;
    var a := s.apps[io];
    assert AppOk(a, s.accepted);
    assert SwitchesOk(a.objs[a.online[conn]].pushList, s.accepted);
    assert AppOk(Closed(a, conn), s.accepted);
  }

  lemma GuardedCloseTwice(s: Sys, io: nat, conn: nat, kept: bool)
    requires Guarded(s) && Enabled(s, CloseTwice(io, conn, kept))
    ensures Guarded(ClosedConnTwice(s, io, conn, kept))
  {
    hide WorkOk, SwitchOk;
    var a := s.apps[io];
    assert AppOk(a, s.accepted);
    assert SwitchesOk(a.objs[a.online[conn]].pushList, s.accepted);
    assert AppOk(Closed(a, conn), s.accepted);
    assert AppOk(ClosedTwice(a, conn), s.accepted);
  }

  lemma RedirectedOk(ms: seq<Message>, io: nat, conn: nat, accepted: set<nat>)
    requires SwitchesOk(ms, accepted)
    requires conn in accepted || conn == 0 || conn > 0x1_0000_0000
    ensures SwitchesOk(Redirect(ms, io, conn), accepted)
  {
    RedirectedFrom(ms, io, conn);
    forall x | x in Redirect(ms, io, conn)
      ensures SwitchOk(x, accepted)
    {
      var m :| m in ms && x == m.(io := io, conn := conn);
      assert SwitchOk(m, accepted);
    }
  }

  lemma GuardedRecollect(s: Sys, uid: int, n: nat)
    requires Guarded(s) && n <= |s.collected| && s.nextId <= 0x1_0000_0000
    ensures Guarded(Recollected(s, uid, n))
  {
    hide WorkOk, SwitchOk, AppOk, MaxConn;
    FilteredFrom(s.collected[..n], uid);
    if uid in s.table {
      var conn := s.table[uid].conn;
      assert conn in s.accepted;
      RedirectedOk(OfUser(s.collected[..n], uid), s.table[uid].io, ThroughInt(conn), s.accepted);
    }
  }

  lemma GuardedAccept(s: Sys, io: nat, dropped: bool)
    requires Guarded(s)
    ensures Guarded(Next(s, Accept(io, dropped)))
  {
    hide AppOk, SwitchesOk;
  }

  lemma GuardedNext(s: Sys, a: Action)
    requires Fit(s) && Guarded(s) && Next(s, a).nextId <= 0x1_0000_0000
    ensures Guarded(Next(s, a))
  {
    hide Guarded, IdsPlaced, AllSound, Alone, Received, AuthWorked, AppWorked, ClosedConn, ClosedConnTwice;
    if Enabled(s, a) {
      match a
      case Accept(io, dropped) => GuardedAccept(s, io, dropped);
      case OpenQueued(io) => GuardedOpen(s, io);
      case Receive(io, conn, pack) => GuardedReceive(s, io, conn, pack);
      case AuthWork(k) => GuardedAuth(s, k);
      case AppWork(k, dispatched, kept) => GuardedApp(s, k, dispatched, kept);
      case PushNext(k, kept) => GuardedPush(s, k, kept);
      case Written(io, conn) => GuardedWritten(s, io, conn);
      case Close(io, conn, kept) => GuardedClose(s, io, conn, kept);
      case CloseTwice(io, conn, kept) => GuardedCloseTwice(s, io, conn, kept);
      case Recollect(uid, n) => GuardedRecollect(s, uid, n);
      case Outside(msg) => GuardedOutside(s, msg);
    }
  }

  lemma GuardedOutside(s: Sys, msg: Message)
    requires Guarded(s) && !msg.switchState
    ensures Guarded(Next(s, Outside(msg)))
  {
    hide AppOk, WorkOk;
    assert SwitchOk(msg, s.accepted);
  }

  // ---- What a worker's step does ----

  /** The step accepts an AUTH pack for the connection, and its reply takes the
      connection to the message state. */
  predicate Authenticates(s: Sys, a: Action, c: nat)
  {
    && a.AuthWork? && a.k < |s.work|
    && var m := s.work[a.k];
      && m.conn == c && m.state == AUTH_STATE
      && m.pack.Pack? && m.pack.kind.AuthKind? && m.pack.timely && m.pack.uid != -1 && m.pack.token != ""
      && !m.closeConn
      && Next(s, a).routed == s.routed + [m.(state := MSG_STATE, switchState := true, uid := m.pack.uid)]
  }

  /** The step takes a MSG or TOUCH pack of the connection and routes back one
      message that does not close it. */
  predicate ServesConn(s: Sys, a: Action, c: nat)
  {
    && a.AppWork? && Enabled(s, a)
    && var m, t := s.work[a.k], Next(s, a);
      && m.conn == c && m.pack.Pack? && (m.pack.kind.MsgKind? || m.pack.kind.TouchKind?)
      && |t.routed| == |s.routed| + 1
      && var r := t.routed[|s.routed|];
        r.io == m.io && r.conn == c && !r.closeConn && !r.switchState
  }

  /** An auth worker's step authenticates exactly for a timely AUTH pack with a uid
      and a token, and then the user's channel is the connection; every other pack
      is answered by closing the connection and changes nothing else. */
  lemma AuthExactly(s: Sys, k: nat)
    requires Enabled(s, AuthWork(k)) && !s.work[k].closeConn
    ensures var m, t := s.work[k], Next(s, AuthWork(k));
      var good := m.pack.Pack? && m.pack.kind.AuthKind? && m.pack.timely && m.pack.uid != -1 && m.pack.token != "";
      && t == s.(work := s.work[..k] + s.work[k + 1..], routed := t.routed, table := t.table, accepted := t.accepted)
      && (good <==> Authenticates(s, AuthWork(k), m.conn))
      && (good <==> t.routed != s.routed + [m.(closeConn := true)])
      && t.accepted == s.accepted + (if good then {m.conn} else {})
      && t.table == if good then s.table[m.pack.uid := Channel(m.io, m.conn)] else s.table
  {
    var m, t := s.work[k], Next(s, AuthWork(k));
    assert t.routed[|s.routed|].closeConn <==> t.routed == s.routed + [m.(closeConn := true)];
  }

  /** An app worker answers exactly the timely packs with a uid of a connection in
      the message state that are TOUCH, AUTH, or MSG with a target; every other pack
      is answered by closing the connection. Only a TOUCH pack moves the user's
      channel, and only a MSG pack the broker did not take is collected. */
  lemma AppExactly(s: Sys, k: nat, dispatched: bool, kept: bool)
    requires Enabled(s, AppWork(k, dispatched, kept)) && !s.work[k].closeConn && !s.work[k].switchState
    ensures var m, a := s.work[k], AppWork(k, dispatched, kept);
      var t, p := Next(s, a), m.pack;
      var good := p.Pack? && p.timely && p.uid != -1 && m.state == MSG_STATE;
      var message := good && p.kind.MsgKind? && p.targets > 0;
      var touch := good && p.kind.TouchKind?;
      && t == s.(work := s.work[..k] + s.work[k + 1..], routed := t.routed, table := t.table,
                 collected := t.collected)
      && (message || touch <==> ServesConn(s, a, m.conn))
      && t.routed == s.routed + [if message || touch || (good && p.kind.AuthKind?)
                                 then m.(uid := p.uid) else m.(closeConn := true)]
      && t.table == (if touch then s.table[p.uid := Channel(m.io, m.conn)] else s.table)
      && t.collected == s.collected + if message && !dispatched && kept then [m.(uid := p.uid)] else []
  {
  }

  // ---- Every switch in flight is to the message state ----

  ghost predicate ToMessages(ms: seq<Message>)
  {
    forall m :: m in ms && m.switchState ==> m.state == MSG_STATE
  }

  ghost predicate UniformApp(a: App)
  {
    forall o :: o in a.objs ==> ToMessages(a.objs[o].pushList)
  }

  /** Every switch in flight is to the message state; what waits for a worker neither
      switches nor closes. */
  ghost predicate Uniform(s: Sys)
  {
    && (forall i :: 0 <= i < |s.apps| ==> UniformApp(s.apps[i]))
    && (forall m :: m in s.work ==> !m.switchState && !m.closeConn)
    && ToMessages(s.routed) && ToMessages(s.collected)
  }

  lemma {:induction false} OpenAllUniform(a: App, ids: seq<nat>)
    requires UniformApp(a)
    ensures UniformApp(OpenAll(a, ids))
  {
    hide Gotten, AfterGet;
    if ids != [] {
      OpenAllUniform(a, ids[..|ids| - 1]);
    }
  }

  lemma UniformApps(s: Sys, io: nat)
    requires Uniform(s) && io < |s.apps|
    ensures UniformApp(s.apps[io])
    ensures forall conn :: Serving(s.apps[io], conn) ==> UniformApp(Wrote(s.apps[io], conn))
    ensures forall conn :: Serving(s.apps[io], conn) ==> UniformApp(Closed(s.apps[io], conn))
    ensures forall conn :: Serving(s.apps[io], conn) ==> UniformApp(ClosedTwice(s.apps[io], conn))
  {
  }

  lemma UniformRecollect(s: Sys, uid: int, n: nat)
    requires Uniform(s) && n <= |s.collected|
    ensures Uniform(Recollected(s, uid, n))
  {
    hide UniformApp, MaxConn, ThroughInt;
    var group := OfUser(s.collected[..n], uid);
    FilteredFrom(s.collected[..n], uid);
    if uid in s.table {
      RedirectedFrom(group, s.table[uid].io, ThroughInt(s.table[uid].conn));
    }
  }

  lemma UniformPush(s: Sys, k: nat, kept: bool)
    requires Uniform(s) && Enabled(s, PushNext(k, kept))
    ensures Uniform(PushedNext(s, k, kept))
  {
    var m := s.routed[k];
    assert UniformApp(s.apps[m.io]);
  }

  /** The steps that leave the registers alone. */
  lemma UniformWork(s: Sys, a: Action)
    requires Uniform(s) && Enabled(s, a)
    requires a.Accept? || a.Receive? || a.AuthWork? || a.AppWork? || a.Outside?
    ensures Uniform(Next(s, a))
  {
    hide UniformApp;
  }

  lemma UniformAt(s: Sys, io: nat, b: App, t: Sys)
    requires Uniform(s) && io < |s.apps| && UniformApp(b)
    requires t == s.(apps := s.apps[io := b], queues := t.queues)
    ensures Uniform(t)
  {
    hide UniformApp;
  }

  lemma UniformNext(s: Sys, a: Action)
    requires Uniform(s)
    ensures Uniform(Next(s, a))
  {
    hide Uniform, UniformApp, OpenAll, Wrote, ClosedConn, ClosedConnTwice, Recollected, PushedNext,
         Received, AuthWorked, AppWorked;
    if Enabled(s, a) {
      match a
      case OpenQueued(io) =>
        UniformApps(s, io);
        OpenAllUniform(s.apps[io], s.queues[io]);
        LoopUniform(OpenAll(s.apps[io], s.queues[io]), Opened(s.apps[io], s.queues[io]));
        UniformAt(s, io, Opened(s.apps[io], s.queues[io]), Next(s, a));
      case PushNext(k, kept) => UniformPush(s, k, kept);
      case Written(io, conn) =>
        UniformApps(s, io);
        UniformAt(s, io, Wrote(s.apps[io], conn), Next(s, a));
      case Close(io, conn, kept) => UniformClose(s, io, conn, kept);
      case CloseTwice(io, conn, kept) => UniformClose(s, io, conn, kept);
      case Recollect(uid, n) => UniformRecollect(s, uid, n);
      case _ => UniformWork(s, a);
    }
  }

  lemma LoopUniform(a: App, b: App)
    requires UniformApp(a) && b.objs == a.objs
    ensures UniformApp(b)
  {
  }

  lemma UniformClose(s: Sys, io: nat, conn: nat, kept: bool)
    requires Uniform(s) && io < |s.apps| && Serving(s.apps[io], conn)
    ensures Uniform(ClosedConn(s, io, conn, kept)) && Uniform(ClosedConnTwice(s, io, conn, kept))
  {
    hide Closed, ClosedTwice;
    UniformApps(s, io);
    assert ToMessages(s.apps[io].objs[s.apps[io].online[conn]].pushList);
  }

  lemma {:induction false} UniformAlways(n: nat, actions: seq<Action>)
    ensures Uniform(Run(Init(n), actions))
  {
    hide Next;
    if actions != [] {
      var k := |actions| - 1;
      UniformAlways(n, actions[..k]);
      UniformNext(Run(Init(n), actions[..k]), actions[k]);
    }
  }

  // ---- The theorem over runs ----

  /** A step that routes a switch either authenticates the switch's connection or
      re-routes a switch that was collected; nothing else in the queue changes. */
  lemma SwitchesComeFromAuth(s: Sys, a: Action, i: nat)
    requires Uniform(s) && !a.PushNext? && i < |Next(s, a).routed|
    ensures i < |s.routed| ==> Next(s, a).routed[i] == s.routed[i]
    ensures var m := Next(s, a).routed[i];
      i >= |s.routed| && m.switchState ==>
        || Authenticates(s, a, m.conn)
        || (a.Recollect? && exists x :: x in s.collected && x.switchState && m == x.(io := m.io, conn := m.conn))
  {
    hide OpenAll, Wrote, Closed, ClosedTwice;
    if Enabled(s, a) {
      match a
      case Recollect(uid, n) => RecollectSwitches(s, uid, n, i);
      case _ =>
    }
  }

  lemma RecollectSwitches(s: Sys, uid: int, n: nat, i: nat)
    requires n <= |s.collected| && i < |Recollected(s, uid, n).routed|
    ensures i < |s.routed| ==> Recollected(s, uid, n).routed[i] == s.routed[i]
    ensures var m := Recollected(s, uid, n).routed[i];
      i >= |s.routed| && m.switchState ==>
        exists x :: x in s.collected && x.switchState && m == x.(io := m.io, conn := m.conn)
  {
    hide MaxConn, ThroughInt;
    if i >= |s.routed| {
      var group := OfUser(s.collected[..n], uid);
      FilteredFrom(s.collected[..n], uid);
      RedirectedAt(group, s.table[uid].io, ThroughInt(s.table[uid].conn));
      assert group[i - |s.routed|] in group;
    }
  }

  /** A step makes a connection accepted exactly when it authenticates it. */
  lemma AcceptedGrowsByAuth(s: Sys, a: Action, c: nat)
    requires Uniform(s)
    ensures c in Next(s, a).accepted <==> c in s.accepted || Authenticates(s, a, c)
  {
    hide OpenAll, Pushed, Closed, ClosedTwice, Wrote, OfUser, OfOthers, MaxConn, Redirect, UniformApp;
    if a.AuthWork? && Enabled(s, a) {
      AuthExactly(s, a.k);
    }
  }

  lemma ServedInMessageState(s: Sys, a: Action, c: nat)
    requires Uniform(s) && ServesConn(s, a, c)
    ensures a.AppWork? && a.k < |s.work| && s.work[a.k].conn == c && s.work[a.k].state == MSG_STATE
  {
    hide UniformApp;
    AppExactly(s, a.k, a.dispatched, a.kept);
  }

  /** Some step among the first `k` accepted an AUTH pack for `c`. */
  ghost predicate AuthenticatedBefore(n: nat, actions: seq<Action>, k: nat, c: nat)
    requires k <= |actions|
  {
    exists j :: 0 <= j < k && Authenticates(Run(Init(n), actions[..j]), actions[j], c)
  }

  /** Whenever a connection is served, it was authenticated earlier. */
  ghost predicate GateHolds(n: nat, actions: seq<Action>)
  {
    forall k, c :: 0 <= k < |actions| && ServesConn(Run(Init(n), actions[..k]), actions[k], c) ==>
      AuthenticatedBefore(n, actions, k, c)
  }

  lemma {:induction false} AcceptedWasAuthenticated(n: nat, actions: seq<Action>, k: nat, c: nat)
    requires k <= |actions| && c in Run(Init(n), actions[..k]).accepted
    ensures AuthenticatedBefore(n, actions, k, c)
    decreases k
  {
    hide Next, Authenticates, Uniform;
    if k > 0 {
      assert actions[..k][..k - 1] == actions[..k - 1];
      var s := Run(Init(n), actions[..k - 1]);
      UniformAlways(n, actions[..k - 1]);
      AcceptedGrowsByAuth(s, actions[k - 1], c);
      if c in s.accepted {
        AcceptedWasAuthenticated(n, actions, k - 1, c);
      }
    }
  }

  /** No failure is reported twice, or at most two ids are handed out. */
  ghost predicate Fitting(n: nat, actions: seq<Action>)
  {
    Single(actions) || Run(Init(n), actions).nextId <= 2
  }

  lemma FitAlways(n: nat, actions: seq<Action>)
    requires Fitting(n, actions)
    ensures Fit(Run(Init(n), actions))
  {
    hide Run, Init, Single, AllSound;
    IdsPlacedAlways(n, actions);
    SoundOrClosed(n, actions);
    if Single(actions) {
      PlacedAlways(n, actions);
    }
  }

  lemma {:induction false} GuardedAlways(n: nat, actions: seq<Action>)
    requires Fitting(n, actions) && Run(Init(n), actions).nextId <= 0x1_0000_0000
    ensures Guarded(Run(Init(n), actions))
  {
    hide Next, Fit, IdsPlaced;
    if actions != [] {
      var k := |actions| - 1;
      var s := Run(Init(n), actions[..k]);
      IdsPlacedAlways(n, actions[..k]);
      IdsPlacedNext(s, actions[k]);
      FitAlways(n, actions[..k]);
      GuardedAlways(n, actions[..k]);
      GuardedNext(s, actions[k]);
    }
  }

  lemma {:induction false} IdsOnlyGrow(n: nat, actions: seq<Action>, k: nat)
    requires k <= |actions|
    ensures Run(Init(n), actions[..k]).nextId <= Run(Init(n), actions).nextId
    decreases |actions| - k
  {
    hide Next, IdsPlaced;
    if k == |actions| {
      assert actions[..k] == actions;
    } else {
      assert actions[..k + 1][..k] == actions[..k];
      IdsPlacedAlways(n, actions[..k]);
      IdsPlacedNext(Run(Init(n), actions[..k]), actions[k]);
      IdsOnlyGrow(n, actions, k + 1);
    }
  }

  /** In every run that hands out at most 2^32 connection ids and reports no failure
      twice, or hands out at most two ids, no connection is served before it was
      authenticated. */
  lemma GateHoldsBelowLimit(n: nat, actions: seq<Action>)
    requires Fitting(n, actions) && Run(Init(n), actions).nextId <= 0x1_0000_0000
    ensures GateHolds(n, actions)
  {
    hide Run, Init, ServesConn, Uniform;
    forall k, c | 0 <= k < |actions| && ServesConn(Run(Init(n), actions[..k]), actions[k], c)
      ensures AuthenticatedBefore(n, actions, k, c)
    {
      IdsOnlyGrow(n, actions, k);
      GuardedAlways(n, actions[..k]);
      var s := Run(Init(n), actions[..k]);
      UniformAlways(n, actions[..k]);
      ServedInMessageState(s, actions[k], c);
      assert WorkOk(s.work[actions[k].k], s.nextId, s.accepted);
      AcceptedWasAuthenticated(n, actions, k, c);
    }
  }
}
