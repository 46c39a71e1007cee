/** The way of a routed message to a connection's push list, as a step machine:
    router queue, per-thread slots, per-thread queue, per-thread batch. */
module Pipeline {
  import MessageChains
  import Grouping

  /** `stamp` is the message's position among all that entered the router
      queue. */
  datatype Msg = Msg(stamp: nat, io: nat, conn: nat)

  /** A message an IO thread has handled, and whether its connection was online
      so that it was pushed. */
  datatype Done = Done(msg: Msg, online: bool)

  /** `log` and `handled` are history: all messages that entered, and those each
      IO thread has taken off its batch, in order. */
  datatype Pipe = Pipe(
    log: seq<Msg>,
    router: seq<Msg>,
    slots: seq<seq<Msg>>,
    queues: seq<seq<Msg>>,
    batches: seq<seq<Msg>>,
    handled: seq<seq<Done>>)

  function Init(n: nat): Pipe
  {
    Pipe([], [], seq(n, _ => []), seq(n, _ => []), seq(n, _ => []), seq(n, _ => []))
  }

  datatype Target = Target(io: nat, conn: nat)

  /** Any thread routes a list; the router takes all that is queued, sorts it
      and dispatches slot by slot; an IO thread takes its queue and handles it
      message by message. */
  datatype Step =
    | Route(list: seq<Target>)
    | Sort
    | Dispatch(i: nat)
    | Take(i: nat)
    | Handle(i: nat, online: bool)

  function ForIo(s: seq<Msg>, i: nat): seq<Msg>
  {
    if s == [] then []
    else ForIo(s[..|s| - 1], i) + if s[|s| - 1].io == i then [s[|s| - 1]] else []
  }

  function Stamped(list: seq<Target>, from: nat): (r: seq<Msg>)
    ensures |r| == |list|
    ensures forall k :: 0 <= k < |r| ==> r[k] == Msg(from + k, list[k].io, list[k].conn)
  {
    seq(|list|, k requires 0 <= k < |list| => Msg(from + k, list[k].io, list[k].conn))
  }

  predicate Enabled(p: Pipe, step: Step)
  {
    match step
    case Route(list) => true
    case Sort => forall i :: 0 <= i < |p.slots| ==> p.slots[i] == []
    case Dispatch(i) => i < |p.slots| && i < |p.queues|
    case Take(i) => i < |p.queues| && i < |p.batches| && p.batches[i] == []
    case Handle(i, _) => i < |p.batches| && i < |p.handled| && p.batches[i] != []
  }

  function Next(p: Pipe, step: Step): Pipe
  {
    if !Enabled(p, step) then p else
    match step
    case Route(list) =>
      var ms := Stamped(list, |p.log|);
      p.(log := p.log + ms, router := p.router + ms)
    case Sort =>
      p.(router := [], slots := seq(|p.slots|, i requires 0 <= i => ForIo(p.router, i)))
    case Dispatch(i) =>
      p.(slots := p.slots[i := []], queues := p.queues[i := p.queues[i] + p.slots[i]])
    case Take(i) =>
      p.(queues := p.queues[i := []], batches := p.batches[i := p.queues[i]])
    case Handle(i, online) =>
      p.(batches := p.batches[i := p.batches[i][1..]],
         handled := p.handled[i := p.handled[i] + [Done(p.batches[i][0], online)]])
  }

  function Run(p: Pipe, steps: seq<Step>): Pipe
  {
    if steps == [] then p else Next(Run(p, steps[..|steps| - 1]), steps[|steps| - 1])
  }

  // ---- Invariant ----

  function Messages(ds: seq<Done>): (r: seq<Msg>)
    ensures |r| == |ds|
  {
    if ds == [] then [] else Messages(ds[..|ds| - 1]) + [ds[|ds| - 1].msg]
  }

  /** Everything on its way to IO thread `i`, oldest first. */
  function Flow(p: Pipe, i: nat): seq<Msg>
    requires i < |p.slots| && i < |p.queues| && i < |p.batches| && i < |p.handled|
  {
    Messages(p.handled[i]) + (p.batches[i] + (p.queues[i] + (p.slots[i] + ForIo(p.router, i))))
  }

  ghost predicate Shape(p: Pipe, n: nat)
  {
    |p.slots| == |p.queues| == |p.batches| == |p.handled| == n
  }

  /** Nothing is lost, duplicated or reordered between the stages. */
  ghost predicate InOrder(p: Pipe, n: nat)
  {
    && Shape(p, n)
    && (forall k :: 0 <= k < |p.log| ==> p.log[k].stamp == k)
    && (forall i :: 0 <= i < n ==> Flow(p, i) == ForIo(p.log, i))
  }

  lemma {:induction false} ForIoConcat(a: seq<Msg>, b: seq<Msg>, i: nat)
    ensures ForIo(a + b, i) == ForIo(a, i) + ForIo(b, i)
  {
    if b == [] {
      assert a + b == a;
    } else {
      var n := |b| - 1;
      assert (a + b)[..|a| + n] == a + b[..n];
      ForIoConcat(a, b[..n], i);
    }
  }

  lemma FlowRoute(p: Pipe, list: seq<Target>, i: nat)
    requires Shape(p, |p.slots|) && i < |p.slots| && Flow(p, i) == ForIo(p.log, i)
    ensures Flow(Next(p, Route(list)), i) == ForIo(Next(p, Route(list)).log, i)
  {
    hide ForIo, Messages, Stamped;
    var ms := Stamped(list, |p.log|);
    ForIoConcat(p.log, ms, i);
    ForIoConcat(p.router, ms, i);
  }

  lemma FlowMoves(p: Pipe, step: Step, i: nat)
    requires Shape(p, |p.slots|) && i < |p.slots| && !step.Route?
    ensures Shape(Next(p, step), |p.slots|) && Flow(Next(p, step), i) == Flow(p, i)
  {
    hide ForIo;
    var q := Next(p, step);
    if Enabled(p, step) && step.Sort? {
      assert ForIo([], i) == [] by { ForIoNone(i); }
    }
    if Enabled(p, step) && step.Handle? && step.i == i {
      MessagesAppend(p.handled[i], Done(p.batches[i][0], step.online));
      assert p.batches[i] == [p.batches[i][0]] + p.batches[i][1..];
    }
  }

  lemma ForIoNone(i: nat)
    ensures ForIo([], i) == []
  {
  }

  lemma MessagesAppend(ds: seq<Done>, d: Done)
    ensures Messages(ds + [d]) == Messages(ds) + [d.msg]
  {
    assert (ds + [d])[..|ds|] == ds;
  }

  lemma {:induction false} InOrderAlways(n: nat, steps: seq<Step>)
    ensures InOrder(Run(Init(n), steps), n)
  {
    if steps != [] {
      var k := |steps| - 1;
      InOrderAlways(n, steps[..k]);
      InOrderNext(Run(Init(n), steps[..k]), n, steps[k]);
    }
  }

  lemma InOrderNext(p: Pipe, n: nat, step: Step)
    requires InOrder(p, n)
    ensures InOrder(Next(p, step), n)
  {
    hide Flow, ForIo;
    forall i | 0 <= i < n
      ensures Flow(Next(p, step), i) == ForIo(Next(p, step).log, i)
    {
      if step.Route? {
        FlowRoute(p, step.list, i);
      } else {
        FlowMoves(p, step, i);
      }
    }
  }

  // ---- What a connection's push list holds ----

  /** The messages pushed for connection `c`, in push order. */
  function PushList(ds: seq<Done>, c: nat): seq<Msg>
  {
    if ds == [] then []
    else
      var d := ds[|ds| - 1];
      PushList(ds[..|ds| - 1], c) + if d.online && d.msg.conn == c then [d.msg] else []
  }

  ghost predicate Increasing(s: seq<Msg>)
  {
    forall a, b :: 0 <= a < b < |s| ==> s[a].stamp < s[b].stamp
  }

  /** Every message of `s` is the log's message of its stamp, for this thread. */
  ghost predicate FromLog(s: seq<Msg>, log: seq<Msg>, i: nat)
  {
    forall a :: 0 <= a < |s| ==> s[a].stamp < |log| && log[s[a].stamp] == s[a] && s[a].io == i
  }

  lemma {:induction false} ForIoIncreasing(log: seq<Msg>, i: nat, k: nat)
    requires k <= |log| && forall a :: 0 <= a < |log| ==> log[a].stamp == a
    ensures Increasing(ForIo(log[..k], i)) && FromLog(ForIo(log[..k], i), log, i)
    ensures forall a :: 0 <= a < |ForIo(log[..k], i)| ==> ForIo(log[..k], i)[a].stamp < k
  {
    if k > 0 {
      ForIoIncreasing(log, i, k - 1);
      assert log[..k][..k - 1] == log[..k - 1];
    }
  }

  lemma {:induction false} PushListFrom(ds: seq<Done>, c: nat)
    ensures forall m :: m in PushList(ds, c) ==> m.conn == c && m in Messages(ds)
  {
    if ds != [] {
      PushListFrom(ds[..|ds| - 1], c);
    }
  }

  /** The push list holds exactly the messages handled while the connection was
      online. */
  lemma {:induction false} PushListExactly(ds: seq<Done>, c: nat, m: Msg)
    ensures m in PushList(ds, c) <==> m.conn == c && exists k :: 0 <= k < |ds| && ds[k] == Done(m, true)
  {
    if ds != [] {
      var n := |ds| - 1;
      PushListExactly(ds[..n], c, m);
      if k :| 0 <= k < |ds| && ds[k] == Done(m, true) {
        assert k < n ==> ds[..n][k] == Done(m, true);
      }
      if k :| 0 <= k < n && ds[..n][k] == Done(m, true) {
        assert ds[k] == Done(m, true);
      }
    }
  }

  lemma IncreasingPrefix(s: seq<Msg>, x: Msg)
    requires Increasing(s + [x])
    ensures Increasing(s) && forall m :: m in s ==> m.stamp < x.stamp
  {
    var t := s + [x];
    assert forall a :: 0 <= a < |s| ==> t[a] == s[a];
    assert t[|s|] == x;
  }

  lemma {:induction false} PushListIncreasing(ds: seq<Done>, c: nat)
    requires Increasing(Messages(ds))
    ensures Increasing(PushList(ds, c))
  {
    if ds != [] {
      var n := |ds| - 1;
      IncreasingPrefix(Messages(ds[..n]), ds[n].msg);
      PushListIncreasing(ds[..n], c);
      PushListFrom(ds[..n], c);
    }
  }

  lemma PushListInside(ds: seq<Done>, c: nat, log: seq<Msg>, i: nat)
    requires Increasing(Messages(ds)) && FromLog(Messages(ds), log, i)
    ensures Increasing(PushList(ds, c)) && FromLog(PushList(ds, c), log, i)
    ensures forall m :: m in PushList(ds, c) ==> m.conn == c && m in Messages(ds)
  {
    PushListIncreasing(ds, c);
    PushListFrom(ds, c);
    hide PushList, Messages, Increasing;
    var s := PushList(ds, c);
    assert forall a :: 0 <= a < |s| ==> s[a] in Messages(ds);
  }

  /** For every interleaving of routing threads, router batches and IO batches,
      a connection's push list holds messages that were routed to it, each at
      most once and in the order they entered the router queue. */
  lemma EndToEndFifo(n: nat, steps: seq<Step>, i: nat, c: nat)
    requires i < n
    ensures i < |Run(Init(n), steps).handled|
    ensures Increasing(PushList(Run(Init(n), steps).handled[i], c))
    ensures FromLog(PushList(Run(Init(n), steps).handled[i], c), Run(Init(n), steps).log, i)
    ensures forall m :: m in PushList(Run(Init(n), steps).handled[i], c) <==>
      m.conn == c && Done(m, true) in Run(Init(n), steps).handled[i]
  {
    hide Run, Init, ForIo;
    InOrderAlways(n, steps);
    var p := Run(Init(n), steps);
    ForIoIncreasing(p.log, i, |p.log|);
    assert p.log[..|p.log|] == p.log;
    var done := Messages(p.handled[i]);
    assert forall a :: 0 <= a < |done| ==> done[a] == ForIo(p.log, i)[a];
    PushListInside(p.handled[i], c, p.log, i);
    forall m
      ensures m in PushList(p.handled[i], c) <==> m.conn == c && Done(m, true) in p.handled[i]
    {
      PushListExactly(p.handled[i], c, m);
    }
  }

  // ---- The router's loop is the machine's sorting step ----

  ghost function Values(s: seq<MessageChains.IMessage>, value: map<MessageChains.IMessage, Msg>): seq<Msg>
    requires forall m :: m in s ==> m in value
  {
    if s == [] then [] else Values(s[..|s| - 1], value) + [value[s[|s| - 1]]]
  }

  lemma ValuesAppend(
      s: seq<MessageChains.IMessage>, m: MessageChains.IMessage, value: map<MessageChains.IMessage, Msg>)
    requires m in value && forall x :: x in s ==> x in value
    ensures Values(s + [m], value) == Values(s, value) + [value[m]]
  {
    assert (s + [m])[..|s|] == s;
  }

  lemma ValuesNone(value: map<MessageChains.IMessage, Msg>)
    ensures Values([], value) == []
  {
  }

  lemma ForIoAppend(s: seq<Msg>, m: Msg, i: nat)
    ensures ForIo(s + [m], i) == if m.io == i then ForIo(s, i) + [m] else ForIo(s, i)
  {
    assert (s + [m])[..|s|] == s;
  }

  /** The list `GroupByIo` leaves in slot `i` is, message by message, what the
      machine's sorting step puts there. */
  lemma {:induction false} SortIsGroupByIo(
      s: seq<MessageChains.IMessage>, ios: seq<int>, value: map<MessageChains.IMessage, Msg>, i: nat, k: nat)
    requires k <= |s| == |ios| && forall m :: m in s ==> m in value
    requires forall j :: 0 <= j < |s| ==> value[s[j]].io == ios[j]
    ensures forall m :: m in Grouping.Pick(s[..k], ios[..k], i) ==> m in value
    ensures Values(Grouping.Pick(s[..k], ios[..k], i), value) == ForIo(Values(s[..k], value), i)
  {
    hide Grouping.Pick, ForIo, Values;
    if k == 0 {
      ValuesNone(value);
      Grouping.PickNothing(s[..k], ios[..k], i);
      ForIoNone(i);
    } else {
      SortIsGroupByIo(s, ios, value, i, k - 1);
      Grouping.PickStep(s, ios, k - 1, i);
      ForIoAppend(Values(s[..k - 1], value), value[s[k - 1]], i);
      assert s[..k] == s[..k - 1] + [s[k - 1]];
      ValuesAppend(s[..k - 1], s[k - 1], value);
      if ios[k - 1] == i {
        ValuesAppend(Grouping.Pick(s[..k - 1], ios[..k - 1], i), s[k - 1], value);
      }
    }
  }
}

