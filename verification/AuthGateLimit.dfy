/** How far the authentication gate reaches: exactly 2^32 connection ids, after
    which a re-routed message can name a connection it was not meant for; and, when
    a failure may be reported twice, exactly two, after which two connections can
    share an object. */
module AuthGateLimit {
  import opened CachePolicy
  import opened Common
  import opened Lifecycle
  import opened AuthGate

  lemma {:induction false} RunConcat(s: Sys, a: seq<Action>, b: seq<Action>)
    ensures Run(s, a + b) == Run(Run(s, a), b)
  {
    hide Next;
    if b == [] {
      assert a + b == a;
    } else {
      var k := |b| - 1;
      assert (a + b)[..|a| + k] == a + b[..k];
      RunConcat(s, a, b[..k]);
    }
  }

  lemma {:induction false} RunDrops(s: Sys, n: nat)
    requires |s.queues| > 0
    ensures Run(s, seq(n, _ => Accept(0, true))) == s.(nextId := s.nextId + n)
  {
    if n > 0 {
      var all := seq(n, _ => Accept(0, true));
      assert all[..n - 1] == seq(n - 1, _ => Accept(0, true));
      RunDrops(s, n - 1);
    }
  }

  const AuthPack := Pack(AuthKind, true, 7, "t", 0)
  const MsgPack := Pack(MsgKind, true, 7, "", 1)
  const LATE: nat := 0x1_0000_0001

  // Connection 1 stays open and silent. Connection 2 authenticates as user 7
  // and closes before its reply is pushed.

  const Opening := [Accept(0, false), OpenQueued(0), Accept(0, false), OpenQueued(0)]
  const TwoOnline := Sys(2, [[]],
    [App(map[1 := 0, 2 := 1], 2, map[0 := Conn(1, 0, []), 1 := Conn(2, 0, [])], Pool([], [], 2, 2))],
    [], [], [], map[], {}, {})

  const Leaving := [Receive(0, 2, AuthPack), AuthWork(0), Close(0, 2, true), PushNext(0, true)]
  const Reply := Message(MSG_STATE, 0, 2, 7, true, false, AuthPack)
  const OneOnline := Sys(2, [[]],
    [App(map[1 := 0], 1, map[0 := Conn(1, 0, []), 1 := Conn(2, 0, [])], Pool([], [Entry(1, 2)], 2, 2))],
    [], [], [Reply], map[7 := Channel(0, 2)], {2}, {2})

  // After 2^32 ids, a new connection authenticates as user 7, the collected
  // reply is re-routed to it, and the narrowed id names connection 1.

  const Returning := [Accept(0, false), OpenQueued(0), Receive(0, LATE, AuthPack), AuthWork(0)]
  const LateReply := Message(MSG_STATE, 0, LATE, 7, true, false, AuthPack)
  const Returned := Sys(LATE, [[]],
    [App(map[1 := 0, LATE := 2], 2,
         map[0 := Conn(1, 0, []), 1 := Conn(2, 0, []), 2 := Conn(LATE, 0, [])],
         Pool([], [Entry(1, 2)], 3, 3))],
    [], [LateReply], [Reply], map[7 := Channel(0, LATE)], {2, LATE}, {2})

  const Straying := [Recollect(7, 1), PushNext(1, true), Receive(0, 1, MsgPack)]

  lemma RunFour(s: Sys, a: Action, b: Action, c: Action, d: Action)
    ensures Run(s, [a, b, c, d]) == Next(Next(Next(Next(s, a), b), c), d)
  {
    hide Next;
    assert [a, b, c, d][..3] == [a, b, c] && [a, b, c][..2] == [a, b] && [a, b][..1] == [a];
    assert Run(s, [a]) == Next(s, a);
    assert Run(s, [a, b]) == Next(Next(s, a), b);
    assert Run(s, [a, b, c]) == Next(Next(Next(s, a), b), c);
  }

  /** A new object is allocated when nothing is cached or expired. */
  lemma OpenOneAnew(a: App, id: nat)
    requires a.pool.cache == []
    requires a.pool.recycling == [] || a.pool.loop <= a.pool.recycling[0].epoch
    requires a.pool.created !in a.objs
    ensures Opened(a, [id]) == App(a.online[id := a.pool.created], a.count + 1,
      a.objs[a.pool.created := Conn(id, INIT_STATE, [])],
      Pool([], a.pool.recycling, a.pool.loop + 1, a.pool.created + 1))
  {
    assert [id][..0] == [];
    assert OpenAll(a, []) == a;
    assert OpenAll(a, [id]) == OpenOne(a, id);
    var r := a.pool.recycling;
    assert r[..0] == [] && r[0..] == r;
  }

  /** Accepting into an empty queue and opening it, on one IO thread. */
  lemma AcceptAndOpen(s: Sys, a: App)
    requires |s.apps| == 1 && s.queues == [[]]
    requires Opened(s.apps[0], [s.nextId + 1]) == a
    ensures Next(Next(s, Accept(0, false)), OpenQueued(0)) == s.(nextId := s.nextId + 1, apps := [a])
  {
    hide Opened;
    var q := [s.nextId + 1];
    var s1 := Next(s, Accept(0, false));
    assert s.queues[0] + q == q;
    assert s1 == s.(nextId := s.nextId + 1, queues := [q]);
    assert s.apps[0 := a] == [a];
  }

  lemma OpeningRuns()
    ensures Run(Init(1), Opening) == TwoOnline
  {
    hide Opened, Next;
    RunFour(Init(1), Opening[0], Opening[1], Opening[2], Opening[3]);
    var s0 := Sys(0, [[]], [NoApp], [], [], [], map[], {}, {});
    assert Init(1) == s0;
    OpenOneAnew(NoApp, 1);
    var a := App(map[1 := 0], 1, map[0 := Conn(1, 0, [])], Pool([], [], 1, 1));
    AcceptAndOpen(s0, a);
    OpenOneAnew(a, 2);
    AcceptAndOpen(s0.(nextId := 1, apps := [a]), TwoOnline.apps[0]);
  }

  const Asked := TwoOnline.(work := [Message(AUTH_STATE, 0, 2, -1, false, false, AuthPack)])
  const Answered := TwoOnline.(accepted := {2}, table := map[7 := Channel(0, 2)], routed := [Reply])

  lemma CloseTwo()
    ensures Closed(TwoOnline.apps[0], 2) == OneOnline.apps[0]
  {
    var a, b := TwoOnline.apps[0], Closed(TwoOnline.apps[0], 2);
    assert b.online == map[1 := 0];
    assert b.objs == a.objs;
    assert b.pool == Pool([], [Entry(1, 2)], 2, 2);
  }

  lemma AskTwo()
    ensures Next(TwoOnline, Leaving[0]) == Asked
  {
  }

  lemma AnswerTwo()
    ensures Next(Asked, Leaving[1]) == Answered
  {
  }

  const Left := OneOnline.(routed := [Reply], collected := [])

  lemma LeaveTwo()
    ensures Next(Answered, Leaving[2]) == Left
  {
    hide Closed;
    CloseTwo();
  }

  lemma CollectTwo()
    ensures Next(Left, Leaving[3]) == OneOnline
  {
  }

  lemma LeavingRuns()
    ensures Run(TwoOnline, Leaving) == OneOnline
  {
    hide Next;
    RunFour(TwoOnline, Leaving[0], Leaving[1], Leaving[2], Leaving[3]);
    AskTwo();
    AnswerTwo();
    LeaveTwo();
    CollectTwo();
  }

  const Before := OneOnline.(nextId := 0x1_0000_0000)
  const Arrived := Returned.(routed := [], table := OneOnline.table, accepted := {2})
  const AskedAgain := Arrived.(work := [Message(AUTH_STATE, 0, LATE, -1, false, false, AuthPack)])

  lemma OpenLate()
    ensures Opened(OneOnline.apps[0], [LATE]) == Returned.apps[0]
  {
    OpenOneAnew(OneOnline.apps[0], LATE);
    assert map[1 := 0][LATE := 2] == map[1 := 0, LATE := 2];
  }

  lemma AskAgain()
    ensures Next(AskedAgain, AuthWork(0)) == Returned
  {
  }

  lemma ReturningRuns()
    ensures Run(Before, Returning) == Returned
  {
    hide Opened;
    RunFour(Before, Returning[0], Returning[1], Returning[2], Returning[3]);
    OpenLate();
    AcceptAndOpen(Before, Returned.apps[0]);
    assert Next(Arrived, Returning[2]) == AskedAgain;
    AskAgain();
  }

  const Stray := Reply.(conn := 1)
  const Rerouted := Returned.(routed := [LateReply, Stray], collected := [])
  const Switched := Rerouted.(routed := [LateReply],
    apps := [Returned.apps[0].(objs := Returned.apps[0].objs[0 := Conn(1, MSG_STATE, [Stray])])])
  const Served := Switched.(work := [Message(MSG_STATE, 0, 1, -1, false, false, MsgPack)])

  lemma Reroute()
    ensures Next(Returned, Straying[0]) == Rerouted
  {
    assert [Reply][..1] == [Reply] && [Reply][1..] == [];
    assert OfUser([Reply], 7) == [Reply] && OfOthers([Reply], 7) == [];
    assert Redirect([Reply], 0, 1) == [Stray];
  }

  lemma Switch()
    ensures Next(Rerouted, Straying[1]) == Switched
  {
    var b := Pushed(Rerouted.apps[0], Stray);
    assert b.objs[0] == Conn(1, MSG_STATE, [Stray]);
    assert Without([LateReply, Stray], 1) == [LateReply];
    assert Rerouted.apps[0 := b] == [b];
  }

  lemma Serve()
    ensures Next(Switched, Straying[2]) == Served
  {
  }

  lemma StrayingRuns(s: Sys)
    requires s == Run(Returned, Straying)
    ensures s.accepted == {2, LATE} && s.nextId == LATE
    ensures ServesConn(s, AppWork(0, true, true), 1)
  {
    hide Next;
    assert Straying[..2] == [Straying[0], Straying[1]] && Straying[..2][..1] == [Straying[0]];
    Reroute();
    Switch();
    Serve();
    assert Run(Returned, [Straying[0]]) == Rerouted;
    assert Run(Returned, Straying[..2]) == Switched;
    assert s == Served;
    ServeStray();
  }

  lemma ServeStray()
    ensures ServesConn(Served, AppWork(0, true, true), 1)
  {
    AppExactly(Served, 0, true, true);
  }

  const Drops: nat := 0x1_0000_0000 - 2

  function Story(): seq<Action>
  {
    Opening + Leaving + seq(Drops, _ => Accept(0, true)) + Returning + Straying
  }

  lemma StoryRuns()
    ensures Run(Init(1), Story()) == Run(Returned, Straying)
  {
    hide Next, Init;
    var drops := seq(Drops, _ => Accept(0, true));
    RunConcat(Init(1), Opening, Leaving);
    OpeningRuns();
    LeavingRuns();
    RunConcat(Init(1), Opening + Leaving, drops);
    RunDrops(OneOnline, Drops);
    RunConcat(Init(1), Opening + Leaving + drops, Returning);
    ReturningRuns();
    RunConcat(Init(1), Opening + Leaving + drops + Returning, Straying);
  }

  lemma {:induction false} AcceptedStays(s: Sys, actions: seq<Action>, c: nat)
    requires c in s.accepted
    ensures c in Run(s, actions).accepted
  {
    hide Opened, Pushed, Closed, ClosedTwice, Wrote;
    if actions != [] {
      AcceptedStays(s, actions[..|actions| - 1], c);
    }
  }

  lemma AuthenticatedIsAccepted(n: nat, actions: seq<Action>, k: nat, c: nat)
    requires k <= |actions| && AuthenticatedBefore(n, actions, k, c)
    ensures c in Run(Init(n), actions[..k]).accepted
  {
    hide Run, Init;
    var j :| 0 <= j < k && Authenticates(Run(Init(n), actions[..j]), actions[j], c);
    var s := Run(Init(n), actions[..j]);
    assert actions[..k] == actions[..j] + actions[j..k];
    assert actions[j..k] == [actions[j]] + actions[j + 1..k];
    RunConcat(Init(n), actions[..j], actions[j..k]);
    RunConcat(s, [actions[j]], actions[j + 1..k]);
    RunOne(s, actions[j]);
    assert c in Next(s, actions[j]).accepted;
    AcceptedStays(Next(s, actions[j]), actions[j + 1..k], c);
  }

  lemma RunOne(s: Sys, a: Action)
    ensures Run(s, [a]) == Next(s, a)
  {
    hide Next;
    assert Run(s, [a][..0]) == s;
  }

  // ---- A failure reported twice ----

  // Connection 1 is destroyed twice, so its object is handed out to connection 2
  // and, while the reply to 2's AUTH pack is on its way, to connection 3.

  const Doubling := [Accept(0, false), OpenQueued(0), CloseTwice(0, 1, true), OpenQueued(0)]
  const Doubled := Sys(1, [[]],
    [App(map[], -1, map[0 := Conn(1, 0, [])], Pool([], [Entry(0, 1), Entry(0, 1)], 2, 1))],
    [], [], [], map[], {}, {1})

  const Sharing := [Accept(0, false), OpenQueued(0), Receive(0, 2, AuthPack), AuthWork(0)]
  const Shared := Sys(2, [[]],
    [App(map[2 := 0], 0, map[0 := Conn(2, 0, [])], Pool([Entry(0, 1)], [], 3, 1))],
    [], [Reply], [], map[7 := Channel(0, 2)], {2}, {1})

  const Confusing := [Accept(0, false), OpenQueued(0), PushNext(0, true), Receive(0, 3, MsgPack)]
  const Confused := Sys(3, [[]],
    [App(map[2 := 0, 3 := 0], 1, map[0 := Conn(3, MSG_STATE, [Reply])], Pool([], [], 4, 1))],
    [Message(MSG_STATE, 0, 3, -1, false, false, MsgPack)], [], [], map[7 := Channel(0, 2)], {2}, {1})

  /** An object is taken from the cache, or from the expired ones. */
  lemma OpenOneAgain(a: App, id: nat, cache: seq<Entry>)
    requires cache != [] && cache[0].conn in a.objs
    requires Migrated(a.pool) == Pool(cache, [], a.pool.loop, a.pool.created)
    ensures var obj := cache[0].conn;
      Opened(a, [id]) == App(a.online[id := obj], a.count + 1,
        a.objs[obj := Conn(id, INIT_STATE, a.objs[obj].pushList)],
        Pool(cache[1..], [], a.pool.loop + 1, a.pool.created))
  {
    hide Migrated;
    assert [id][..0] == [];
    assert OpenAll(a, []) == a;
    assert OpenAll(a, [id]) == OpenOne(a, id);
  }

  lemma DoublingRuns()
    ensures Run(Init(1), Doubling) == Doubled
  {
    hide Opened;
    RunFour(Init(1), Doubling[0], Doubling[1], Doubling[2], Doubling[3]);
    var s0 := Sys(0, [[]], [NoApp], [], [], [], map[], {}, {});
    assert Init(1) == s0;
    OpenOneAnew(NoApp, 1);
    var a := App(map[1 := 0], 1, map[0 := Conn(1, 0, [])], Pool([], [], 1, 1));
    AcceptAndOpen(s0, a);
    var b := App(map[], -1, map[0 := Conn(1, 0, [])], Pool([], [Entry(0, 1), Entry(0, 1)], 1, 1));
    CloseOneTwice(a, b);
    var s2 := s0.(nextId := 1, apps := [a]);
    var s3 := s0.(nextId := 1, apps := [b], closed := {1});
    assert Next(s2, Doubling[2]) == s3;
    OpenNone(b);
    assert Next(s3, Doubling[3]) == Doubled;
  }

  lemma CloseOneTwice(a: App, b: App)
    requires a == App(map[1 := 0], 1, map[0 := Conn(1, 0, [])], Pool([], [], 1, 1))
    requires b == App(map[], -1, map[0 := Conn(1, 0, [])], Pool([], [Entry(0, 1), Entry(0, 1)], 1, 1))
    ensures ClosedTwice(a, 1) == b
  {
    assert map[1 := 0] - {1} == map[];
    assert [Entry(0, 1)] + [Entry(0, 1)] == [Entry(0, 1), Entry(0, 1)];
  }

  lemma OpenNone(a: App)
    ensures Opened(a, []) == a.(pool := a.pool.(loop := a.pool.loop + 1))
  {
  }

  const SharedOpen := Shared.(routed := [], table := map[], accepted := {})
  const SharedAsked := SharedOpen.(work := [Message(AUTH_STATE, 0, 2, -1, false, false, AuthPack)])

  lemma OpenShared()
    ensures Opened(Doubled.apps[0], [2]) == Shared.apps[0]
  {
    var twice := [Entry(0, 1), Entry(0, 1)];
    assert twice[..2] == twice && twice[2..] == [];
    ExpiredIs(twice, 2, 2);
    OpenOneAgain(Doubled.apps[0], 2, twice);
  }

  lemma AskShared()
    ensures Next(SharedOpen, Sharing[2]) == SharedAsked
  {
  }

  lemma AcceptShared()
    ensures Next(SharedAsked, Sharing[3]) == Shared
  {
  }

  lemma SharingRuns()
    ensures Run(Doubled, Sharing) == Shared
  {
    hide Opened, Next;
    RunFour(Doubled, Sharing[0], Sharing[1], Sharing[2], Sharing[3]);
    OpenShared();
    AcceptAndOpen(Doubled, Shared.apps[0]);
    AskShared();
    AcceptShared();
  }

  const ConfusedOpen := Shared.(nextId := 3,
    apps := [App(map[2 := 0, 3 := 0], 1, map[0 := Conn(3, 0, [])], Pool([], [], 4, 1))])

  lemma OpenConfused()
    ensures Opened(Shared.apps[0], [3]) == ConfusedOpen.apps[0]
  {
    OpenOneAgain(Shared.apps[0], 3, [Entry(0, 1)]);
    assert map[2 := 0][3 := 0] == map[2 := 0, 3 := 0];
  }

  lemma PushConfused()
    ensures Next(ConfusedOpen, Confusing[2]) == Confused.(work := [])
  {
    var a := ConfusedOpen.apps[0];
    var b := Pushed(a, Reply);
    assert a.objs[0].pushList + [Reply] == [Reply];
    assert b.objs[0] == Conn(3, MSG_STATE, [Reply]);
    assert b.objs == map[0 := Conn(3, MSG_STATE, [Reply])];
    assert Without([Reply], 0) == [];
    assert ConfusedOpen.apps[0 := b] == [b];
  }

  lemma AskConfused()
    ensures Next(Confused.(work := []), Confusing[3]) == Confused
  {
  }

  lemma ConfusingRuns()
    ensures Run(Shared, Confusing) == Confused
  {
    hide Opened, Next;
    RunFour(Shared, Confusing[0], Confusing[1], Confusing[2], Confusing[3]);
    OpenConfused();
    AcceptAndOpen(Shared, ConfusedOpen.apps[0]);
    PushConfused();
    AskConfused();
  }

  lemma ServeConfused()
    ensures ServesConn(Confused, AppWork(0, true, true), 3)
  {
    AppExactly(Confused, 0, true, true);
  }

  /** With three ids and one failure reported twice, a connection that never
      authenticated is served. */
  lemma GateFailsWhenDoubled(actions: seq<Action>)
    requires actions == Doubling + Sharing + Confusing + [AppWork(0, true, true)]
    ensures Run(Init(1), actions).nextId == 3 && !GateHolds(1, actions)
  {
    hide Run, Init;
    var story := Doubling + Sharing + Confusing;
    RunConcat(Init(1), Doubling, Sharing);
    RunConcat(Init(1), Doubling + Sharing, Confusing);
    DoublingRuns();
    SharingRuns();
    ConfusingRuns();
    ServeConfused();
    ServedUnknown(story, actions, 3);
  }

  /** A served connection outside the accepted ones breaks the gate. */
  lemma ServedUnknown(story: seq<Action>, actions: seq<Action>, c: nat)
    requires actions == story + [AppWork(0, true, true)]
    requires var s := Run(Init(1), story);
      ServesConn(s, AppWork(0, true, true), c) && c !in s.accepted
    ensures Run(Init(1), actions).nextId == Run(Init(1), story).nextId && !GateHolds(1, actions)
  {
    hide Run, Init;
    var k := |story|;
    var s := Run(Init(1), story);
    assert actions[..k] == story && actions[k] == AppWork(0, true, true);
    RunConcat(Init(1), story, [AppWork(0, true, true)]);
    RunOne(s, AppWork(0, true, true));
    if AuthenticatedBefore(1, actions, k, c) {
      AuthenticatedIsAccepted(1, actions, k, c);
    }
  }

  /** With one id more than 2^32, a connection that never authenticated is
      served. */
  lemma GateFailsBeyondLimit(actions: seq<Action>)
    requires actions == Story() + [AppWork(0, true, true)]
    ensures Run(Init(1), actions).nextId == LATE && !GateHolds(1, actions) && Single(actions)
  {
    hide Run, Init;
    StoryRuns();
    StrayingRuns(Run(Returned, Straying));
    ServedUnknown(Story(), actions, 1);
  }

  /** The gate holds in every run that hands out at most `limit` ids exactly when
      `limit` is at most 2^32, if no failure is reported twice, and exactly when it
      is at most 2, if one may be. */
  lemma GateExactly(limit: nat, twice: bool)
    ensures (forall n, actions :: Run(Init(n), actions).nextId <= limit && (twice || Single(actions)) ==>
               GateHolds(n, actions))
      <==> limit <= if twice then 2 else 0x1_0000_0000
  {
    hide Run, Init, GateHolds;
    if limit <= if twice then 2 else 0x1_0000_0000 {
      forall n, actions | Run(Init(n), actions).nextId <= limit && (twice || Single(actions))
        ensures GateHolds(n, actions)
      {
        GateHoldsBelowLimit(n, actions);
      }
    } else if twice {
      GateFailsWhenDoubled(Doubling + Sharing + Confusing + [AppWork(0, true, true)]);
    } else {
      GateFailsBeyondLimit(Story() + [AppWork(0, true, true)]);
    }
  }
}
