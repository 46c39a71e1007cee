/** How far a connection gets: a new one that authenticates is served, one that does
    not is refused, and a served one stays served until it is closed. */
module AuthPath {
  import opened CachePolicy
  import opened Common
  import opened Lifecycle
  import opened AuthGate
  import opened AuthGateLimit

  ghost predicate InState(s: Sys, io: nat, c: nat, state: int)
  {
    && io < |s.apps| && Serving(s.apps[io], c)
    && s.apps[io].objs[s.apps[io].online[c]].state == state
  }

  // ---- A connection in the message state stays in it ----

  lemma StaysAt(s: Sys, t: Sys, io: nat, c: nat, j: nat, b: App)
    requires InState(s, io, c, MSG_STATE) && j < |s.apps| && t.apps == s.apps[j := b]
    requires j == io ==> Serving(b, c) && b.objs[b.online[c]].state == MSG_STATE
    ensures InState(t, io, c, MSG_STATE)
  {
  }

  lemma StaysOpen(s: Sys, io: nat, c: nat, j: nat)
    requires Fit(s) && InState(s, io, c, MSG_STATE) && Enabled(s, OpenQueued(j))
    ensures InState(Next(s, OpenQueued(j)), io, c, MSG_STATE)
  {
    hide Opened, IdsPlaced, AllSound, Alone, Sound;
    var a, q := s.apps[j], s.queues[j];
    if j == io {
      if AllSound(s) {
        PlacedSound(s, j);
        QueuedThere(s, j);
        OpenedSound(a, q);
      } else {
        AloneOpens(s, j);
        OpenNone(a);
      }
    }
    StaysAt(s, Next(s, OpenQueued(j)), io, c, j, Opened(a, q));
  }

  lemma StaysPushed(s: Sys, io: nat, c: nat, k: nat, kept: bool)
    requires Uniform(s) && InState(s, io, c, MSG_STATE) && Enabled(s, PushNext(k, kept))
    ensures InState(Next(s, PushNext(k, kept)), io, c, MSG_STATE)
  {
    hide UniformApp;
    var m := s.routed[k];
    assert m in s.routed;
    StaysAt(s, Next(s, PushNext(k, kept)), io, c, m.io, Next(s, PushNext(k, kept)).apps[m.io]);
  }

  lemma StaysClosed(s: Sys, io: nat, c: nat, a: Action)
    requires InState(s, io, c, MSG_STATE) && (a.Close? || a.CloseTwice?) && Enabled(s, a)
    requires c !in Next(s, a).closed
    ensures InState(Next(s, a), io, c, MSG_STATE)
  {
    hide AfterRecycle;
    StaysAt(s, Next(s, a), io, c, a.io, Next(s, a).apps[a.io]);
  }

  lemma StaysNext(s: Sys, io: nat, c: nat, a: Action)
    requires Fit(s) && Uniform(s) && InState(s, io, c, MSG_STATE) && c !in Next(s, a).closed
    ensures InState(Next(s, a), io, c, MSG_STATE)
  {
    hide Fit, Uniform, InState, Opened, Pushed, Closed, ClosedTwice, Wrote, Recollected;
    if Enabled(s, a) {
      match a
      case OpenQueued(j) => StaysOpen(s, io, c, j);
      case PushNext(k, kept) => StaysPushed(s, io, c, k, kept);
      case Written(j, conn) => StaysWritten(s, io, c, j, conn);
      case Close(_, _, _) => StaysClosed(s, io, c, a);
      case CloseTwice(_, _, _) => StaysClosed(s, io, c, a);
      case _ =>
        SameApps(s, a);
        StaysSame(s, Next(s, a), io, c);
    }
  }

  lemma StaysWritten(s: Sys, io: nat, c: nat, j: nat, conn: nat)
    requires InState(s, io, c, MSG_STATE) && Enabled(s, Written(j, conn))
    ensures InState(Next(s, Written(j, conn)), io, c, MSG_STATE)
  {
    StaysAt(s, Next(s, Written(j, conn)), io, c, j, Wrote(s.apps[j], conn));
  }

  lemma StaysSame(s: Sys, t: Sys, io: nat, c: nat)
    requires InState(s, io, c, MSG_STATE) && t.apps == s.apps
    ensures InState(t, io, c, MSG_STATE)
  {
  }

  /** From any point of the run at which a connection is in the message state, it is
      in it at the end unless it was closed. */
  ghost predicate Stays(n: nat, actions: seq<Action>)
  {
    forall k, io, c :: 0 <= k <= |actions| && InState(Run(Init(n), actions[..k]), io, c, MSG_STATE) ==>
      StaysUntilClosed(Run(Init(n), actions), io, c)
  }

  ghost predicate StaysUntilClosed(s: Sys, io: nat, c: nat)
  {
    InState(s, io, c, MSG_STATE) <==> c !in s.closed
  }

  lemma ClosedIsGone(s: Sys, io: nat, c: nat, state: int)
    requires IdsPlaced(s) && InState(s, io, c, state)
    ensures c !in s.closed
  {
    assert c in Held(s.queues[io], s.apps[io]);
    assert Known(Held(s.queues[io], s.apps[io]), s.nextId, s.closed);
  }

  lemma {:induction false} StaysFrom(n: nat, actions: seq<Action>, k: nat, io: nat, c: nat)
    requires Fitting(n, actions) && k <= |actions| && InState(Run(Init(n), actions[..k]), io, c, MSG_STATE)
    ensures StaysUntilClosed(Run(Init(n), actions), io, c)
  {
    hide Next, Fit, Uniform, InState, IdsPlaced;
    IdsPlacedAlways(n, actions);
    var m := |actions| - 1;
    if k == |actions| {
      assert actions[..k] == actions;
      ClosedIsGone(Run(Init(n), actions), io, c, MSG_STATE);
    } else {
      var s := Run(Init(n), actions[..m]);
      assert actions[..m][..k] == actions[..k];
      IdsPlacedAlways(n, actions[..m]);
      IdsPlacedNext(s, actions[m]);
      StaysFrom(n, actions[..m], k, io, c);
      FitAlways(n, actions[..m]);
      UniformAlways(n, actions[..m]);
      if InState(Run(Init(n), actions), io, c, MSG_STATE) {
        ClosedIsGone(Run(Init(n), actions), io, c, MSG_STATE);
      } else if c !in Next(s, actions[m]).closed {
        StaysNext(s, io, c, actions[m]);
      }
    }
  }

  // Connection 2 is in the message state when connection 3 is given its object.

  const Ousting := [PushNext(0, true), Accept(0, false), OpenQueued(0)]
  const InTouch := Shared.(routed := [],
    apps := [App(map[2 := 0], 0, map[0 := Conn(2, MSG_STATE, [Reply])], Pool([Entry(0, 1)], [], 3, 1))])
  const Ousted := InTouch.(nextId := 3,
    apps := [App(map[2 := 0, 3 := 0], 1, map[0 := Conn(3, 0, [Reply])], Pool([], [], 4, 1))])

  lemma PushInTouch()
    ensures Next(Shared, Ousting[0]) == InTouch
  {
    var a := Shared.apps[0];
    var b := Pushed(a, Reply);
    assert a.objs[0].pushList + [Reply] == [Reply];
    assert b.objs == map[0 := Conn(2, MSG_STATE, [Reply])];
    assert Without([Reply], 0) == [];
    assert Shared.apps[0 := b] == [b];
  }

  lemma OpenOusted()
    ensures Opened(InTouch.apps[0], [3]) == Ousted.apps[0]
  {
    OpenOneAgain(InTouch.apps[0], 3, [Entry(0, 1)]);
    assert map[2 := 0][3 := 0] == map[2 := 0, 3 := 0];
  }

  /** With three ids and one failure reported twice, a connection in the message
      state falls back to the initial state while it is open. */
  lemma FallsBackWhenDoubled(actions: seq<Action>)
    requires actions == Doubling + Sharing + Ousting
    ensures Run(Init(1), actions).nextId == 3 && !Stays(1, actions)
  {
    hide Run, Init, Next, Opened;
    RunConcat(Init(1), Doubling, Sharing);
    DoublingRuns();
    SharingRuns();
    var story := Doubling + Sharing;
    assert actions[..9] == story + [Ousting[0]];
    RunConcat(Init(1), story, [Ousting[0]]);
    RunOne(Shared, Ousting[0]);
    PushInTouch();
    assert actions == actions[..9] + ([Ousting[1]] + [Ousting[2]]);
    RunConcat(Init(1), actions[..9], [Ousting[1]] + [Ousting[2]]);
    RunConcat(InTouch, [Ousting[1]], [Ousting[2]]);
    RunOne(InTouch, Ousting[1]);
    RunOne(Next(InTouch, Ousting[1]), Ousting[2]);
    OpenOusted();
    AcceptAndOpen(InTouch, Ousted.apps[0]);
    assert InState(InTouch, 0, 2, MSG_STATE) && !StaysUntilClosed(Ousted, 0, 2);
  }

  /** A connection in the message state stays in it until it is closed, in every run
      of at most `limit` ids, exactly when no failure is reported twice or `limit` is
      at most 2. */
  lemma StaysExactly(limit: nat, twice: bool)
    ensures (forall n, actions :: Run(Init(n), actions).nextId <= limit && (twice || Single(actions)) ==>
               Stays(n, actions))
      <==> !twice || limit <= 2
  {
    hide Run, Init, InState;
    if !twice || limit <= 2 {
      forall n, actions | Run(Init(n), actions).nextId <= limit && (twice || Single(actions))
        ensures Stays(n, actions)
      {
        forall k, io, c | 0 <= k <= |actions| && InState(Run(Init(n), actions[..k]), io, c, MSG_STATE)
          ensures StaysUntilClosed(Run(Init(n), actions), io, c)
        {
          StaysFrom(n, actions, k, io, c);
        }
      }
    } else {
      FallsBackWhenDoubled(Doubling + Sharing + Ousting);
    }
  }

  // ---- From the first byte to the first answer ----

  /** A new connection is online, in the initial state, with nothing to push. */
  lemma NewIsOpen(s: Sys, io: nat)
    requires Placed(s) && io < |s.apps|
    ensures var t, id := Next(Next(s, Accept(io, false)), OpenQueued(io)), s.nextId + 1;
      && InState(t, io, id, INIT_STATE) && t.apps[io].objs[t.apps[io].online[id]].pushList == []
      && t.nextId == id && t.work == s.work && t.routed == s.routed
  {
    hide IdsPlaced, AllSound, Sound, Opened;
    SameLength(s);
    var s1 := Next(s, Accept(io, false));
    IdsPlacedNext(s, Accept(io, false));
    PlacedSound(s, io);
    QueuedThere(s1, io);
    OpenedSound(s.apps[io], s1.queues[io]);
    SoundObjects(Opened(s.apps[io], s1.queues[io]));
    assert s1.queues[io][|s.queues[io]|] == s.nextId + 1;
  }

  predicate Authentic(p: Pack)
  {
    p.Pack? && p.kind.AuthKind? && p.timely && p.uid != -1 && p.token != ""
  }

  predicate Servable(p: Pack)
  {
    p.Pack? && p.timely && p.uid != -1 && (p.kind.TouchKind? || (p.kind.MsgKind? && p.targets > 0))
  }

  /** The first pack of a connection, its check by an auth worker and the reply's
      way back: the connection is in the message state if the pack authenticates,
      and else stays where it was and is told to close. */
  lemma FirstPack(s: Sys, io: nat, c: nat, pack: Pack, kept: bool)
    requires InState(s, io, c, INIT_STATE)
    ensures var s2 := Next(Next(s, Receive(io, c, pack)), AuthWork(|s.work|));
      var t := Next(s2, PushNext(|s.routed|, kept));
      && t.work == s.work && t.routed == s.routed && t.nextId == s.nextId
      && InState(t, io, c, if Authentic(pack) then MSG_STATE else INIT_STATE)
      && var list := t.apps[io].objs[t.apps[io].online[c]].pushList;
        list != [] && (list[|list| - 1].closeConn <==> !Authentic(pack))
  {
    var s1 := Next(s, Receive(io, c, pack));
    var m := Message(AUTH_STATE, io, c, -1, false, false, pack);
    assert s1.work[..|s.work|] == s.work && s1.work[|s.work|] == m && s1.work[|s.work| + 1..] == [];
    AuthExactly(s1, |s.work|);
    var s2 := Next(s1, AuthWork(|s.work|));
    assert s2.work == s.work && s2.apps == s.apps && |s2.routed| == |s.routed| + 1;
    PushBack(s, s2, io, c, kept);
  }

  lemma PushBack(s: Sys, t: Sys, io: nat, c: nat, kept: bool)
    requires InState(s, io, c, INIT_STATE) && t.apps == s.apps
    requires |t.routed| == |s.routed| + 1 && t.routed[..|s.routed|] == s.routed
    requires t.routed[|s.routed|].io == io && t.routed[|s.routed|].conn == c
    ensures var m, u := t.routed[|s.routed|], Next(t, PushNext(|s.routed|, kept));
      && u.work == t.work && u.routed == s.routed && u.nextId == t.nextId
      && InState(u, io, c, if m.switchState then m.state else INIT_STATE)
      && var list := u.apps[io].objs[u.apps[io].online[c]].pushList;
        list != [] && list[|list| - 1] == m
  {
  }

  /** A later pack of a connection is served exactly when the connection is in the
      message state and the pack is in order. */
  lemma LaterPack(s: Sys, io: nat, c: nat, state: int, pack: Pack, dispatched: bool, kept: bool)
    requires InState(s, io, c, state)
    ensures var s1, a := Next(s, Receive(io, c, pack)), AppWork(|s.work|, dispatched, kept);
      ServesConn(s1, a, c) <==> state == MSG_STATE && Servable(pack)
  {
    hide AppWorked;
    var s1, a := Next(s, Receive(io, c, pack)), AppWork(|s.work|, dispatched, kept);
    assert s1.work[|s.work|] == Dispatched(Message(state, io, c, -1, false, false, pack));
    if Enabled(s1, a) {
      AppExactly(s1, |s.work|, dispatched, kept);
    }
  }

  function Path(s: Sys, io: nat, auth: Pack, kept: bool): Sys
  {
    var id := s.nextId + 1;
    var begun := Next(Next(s, Accept(io, false)), OpenQueued(io));
    Next(Next(Next(begun, Receive(io, id, auth)), AuthWork(|s.work|)), PushNext(|s.routed|, kept))
  }

  /** From every state of every run that reports no failure twice: a new connection
      whose first pack is `auth` and whose second is `pack` is served exactly when the
      first authenticates and the second is in order. */
  lemma NewConnectionServed(n: nat, actions: seq<Action>, s: Sys, io: nat,
                            auth: Pack, pack: Pack, dispatched: bool, kept: bool)
    requires Single(actions) && s == Run(Init(n), actions) && io < |s.apps|
    ensures var t, id := Path(s, io, auth, kept), s.nextId + 1;
      ServesConn(Next(t, Receive(io, id, pack)), AppWork(|s.work|, dispatched, kept), id)
      <==> Authentic(auth) && Servable(pack)
  {
    hide Run, Init, Next, ServesConn, InState, Authentic, Servable;
    PlacedAlways(n, actions);
    NewIsOpen(s, io);
    var id, begun := s.nextId + 1, Next(Next(s, Accept(io, false)), OpenQueued(io));
    FirstPack(begun, io, id, auth, kept);
    LaterPack(Path(s, io, auth, kept), io, id, if Authentic(auth) then MSG_STATE else INIT_STATE,
              pack, dispatched, kept);
  }

  // ---- Closing ----

  /** A close takes the connection's id out of its thread's register for good, hands
      the first unwritten message to the collector, and leaves every other
      connection as it is. */
  lemma CloseExactly(s: Sys, io: nat, conn: nat, kept: bool)
    requires Placed(s) && Enabled(s, Close(io, conn, kept))
    ensures var a, b := s.apps[io], Closed(s.apps[io], conn);
      var list := a.objs[a.online[conn]].pushList;
      && Next(s, Close(io, conn, kept)) ==
           s.(apps := s.apps[io := b], closed := s.closed + {conn},
              collected := s.collected + if kept && list != [] then [list[0]] else [])
      && conn !in b.online && b.count == |b.online|
      && (forall c :: c in a.online && c != conn ==> Same(a, b, c))
  {
    hide Sound, Closed;
    PlacedSound(s, io);
    ClosedSound(s.apps[io], conn);
    SoundParts(Closed(s.apps[io], conn));
  }
}
