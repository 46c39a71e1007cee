/** A writer and a reader joined by an in-order byte channel. */
module Session {
  import opened Common
  import opened Frames
  import opened Buffers
  import opened Sockets
  import opened Connection

  /** One scheduling step: push a message, let the writer or the reader handle
      an event with the kernel answering as scripted, or let the channel carry
      some bytes. */
  datatype Turn =
    | PushData(data: seq<Byte>)
    | Write(writeScript: seq<Event>)
    | Carry(n: nat)
    | Read(readScript: seq<Event>, beyond: seq<Byte>)

  function Pushes(schedule: seq<Turn>): seq<seq<Byte>>
  {
    if schedule == [] then []
    else
      var last := schedule[|schedule| - 1];
      Pushes(schedule[..|schedule| - 1]) + if last.PushData? then [last.data] else []
  }

  /** Every readable event says what lies behind the read buffer. */
  ghost predicate Surrounded(turn: Turn)
  {
    turn.Read? ==> |turn.beyond| == 4
  }

  ghost predicate Fits(datas: seq<seq<Byte>>)
  {
    forall d :: d in datas ==> |d| <= FRAME_MAX_SIZE - 8
  }

  /** The queue holds the frames of these data, in order. */
  ghost predicate Carries(msgs: seq<Outgoing>, datas: seq<seq<Byte>>)
    requires Fits(datas)
  {
    && |msgs| == |datas|
    && forall i :: 0 <= i < |msgs| ==> msgs[i] == Outgoing(Frame(datas[i]), false)
  }

  lemma {:induction false} CarriesBytes(msgs: seq<Outgoing>, datas: seq<seq<Byte>>)
    requires Fits(datas) && Carries(msgs, datas)
    ensures WireBytes(msgs) == Concat(FrameAll(datas))
  {
    if msgs != [] {
      assert FrameAll(datas) == [Frame(datas[0])] + FrameAll(datas[1..]);
      ConcatCons(Frame(datas[0]), FrameAll(datas[1..]), []);
      CarriesBytes(msgs[1..], datas[1..]);
    }
  }

  lemma {:induction false} WireBytesConcat(a: seq<Outgoing>, b: seq<Outgoing>)
    ensures WireBytes(a + b) == WireBytes(a) + WireBytes(b)
  {
    if a == [] {
      assert a + b == b;
    } else {
      assert (a + b)[1..] == a[1..] + b;
      WireBytesConcat(a[1..], b);
    }
  }

  /** What the kernel took is a prefix of the frames pushed, in push order. */
  lemma SentIsPrefix(out: Output, sent: seq<Byte>)
    requires out.Valid(sent)
    ensures sent <= WireBytes(out.Pushed())
  {
    WireBytesConcat(out.finished, out.Unsent());
    if out.current.Some? {
      assert out.Unsent()[0] == out.current.value.msg;
    }
  }

  lemma SentIsFramed(out: Output, sent: seq<Byte>, datas: seq<seq<Byte>>)
    requires out.Valid(sent) && Fits(datas) && Carries(out.Pushed(), datas)
    ensures sent <= Concat(FrameAll(datas))
  {
    hide FrameAll, Concat, WireBytes;
    SentIsPrefix(out, sent);
    CarriesBytes(out.Pushed(), datas);
  }

  lemma FrameAllAppend(datas: seq<seq<Byte>>, data: seq<Byte>)
    requires Fits(datas) && |data| <= FRAME_MAX_SIZE - 8
    ensures Fits(datas + [data])
    ensures FrameAll(datas + [data]) == FrameAll(datas) + [Frame(data)]
    ensures Concat(FrameAll(datas)) <= Concat(FrameAll(datas + [data]))
  {
    assert FrameAll(datas + [data]) == FrameAll(datas) + [Frame(data)];
    ConcatAppend(FrameAll(datas), [Frame(data)]);
  }

  /** Framed messages make a steady stream. */
  lemma FramedSteady(datas: seq<seq<Byte>>, p: seq<Byte>, handler: Handler)
    requires Fits(datas) && p <= Concat(FrameAll(datas))
    ensures Steady(p, handler)
  {
    hide Decode, FrameAll, Concat, Word;
    DecodeFramed(datas, p, 0, handler);
  }

  class Link {
    const w: IoConnection
    const r: IoConnection
    var carried: nat
    var pushed: seq<seq<Byte>>

    ghost predicate WriterValid()
      reads this`pushed, w, w.socket`open, w.socket`sent
    {
      && Fits(pushed)
      && w.socket.sent <= Concat(FrameAll(pushed))
      && (w.destroys == 0 ==> w.Writing() && w.Open() && w.out.Ready() && Carries(w.out.Pushed(), pushed))
    }

    ghost predicate ReaderValid()
      reads r, r.socket`open, r.socket`received, r.rbuf
    {
      && (r.destroys == 0 && !r.mishap.strayed ==> r.Reading() && r.Open())
      && (Steady(r.socket.received, r.handler) ==>
            !r.mishap.strayed && Decode(r.socket.received, 0, r.handler).frames == r.delivered)
    }

    ghost predicate ChannelValid()
      reads this`carried, w`socket, w.socket, r`socket, r.socket
    {
      && w != r && w.socket != r.socket
      && carried <= |w.socket.sent|
      && r.socket.received + r.socket.inbox == w.socket.sent[..carried]
    }

    ghost predicate Valid()
      reads this, w, w.socket, r, r.socket, r.rbuf
    {
      WriterValid() && ReaderValid() && ChannelValid()
    }

    /** Both ends newly initialised. */
    constructor (w: IoConnection, r: IoConnection)
      requires w != r && w.socket != r.socket
      requires w.Writing() && w.Open() && w.out.Ready() && w.out.Pushed() == [] && w.socket.sent == []
      requires r.Reading() && r.Open() && r.delivered == []
      requires r.socket.received == r.socket.inbox == []
      ensures this.w == w && this.r == r && Valid() && pushed == []
    {
      hide Decode, Settled, Accounts, Frame, FrameAll, Concat, Word, WireBytes;
      DecodeNothing(r.handler);
      this.w, this.r := w, r;
      carried, pushed := 0, [];
    }

    method Push(data: seq<Byte>)
      requires Valid() && |data| <= FRAME_MAX_SIZE - 8
      modifies this`pushed, w`out
      ensures Valid()
      ensures pushed == old(pushed) + if w.destroys == 0 then [data] else []
    {
      hide Decode, Frame, FrameAll, Concat, WireBytes, Settled, Accounts, ReaderValid, Output.Valid;
      if w.destroys == 0 {
        FrameAllAppend(pushed, data);
        w.PushMessage(Outgoing(Frame(data), false));
        pushed := pushed + [data];
      }
      assert pushed == old(pushed) + if w.destroys == 0 then [data] else [];
    }

    method WriterTurn(script: seq<Event>)
      requires Valid()
      modifies w`out, w`destroys, w`handed, w.socket
      ensures Valid() && old(w.destroys) <= w.destroys
    {
      hide Decode, FrameAll, Concat, WireBytes, Output.Valid, ReaderValid, Fits, Carries;
      if w.destroys == 0 {
        w.socket.script := script;
        w.WriteSocket();
        if w.destroys == 0 {
          SentIsFramed(w.out, w.socket.sent, pushed);
        }
      }
    }

    method ChannelTurn(n: nat)
      requires Valid()
      modifies this`carried, r.socket`inbox
      ensures Valid() && carried == old(carried) + Min(n, |w.socket.sent| - old(carried))
    {
      hide Decode, FrameAll, Concat, Output.Valid, Settled, WriterValid, ReaderValid;
      var m := Min(n, |w.socket.sent| - carried);
      assert w.socket.sent[..carried] + w.socket.sent[carried..carried + m] == w.socket.sent[..carried + m];
      r.socket.inbox := r.socket.inbox + w.socket.sent[carried..carried + m];
      carried := carried + m;
    }

    method ReaderTurn(script: seq<Event>, beyond: seq<Byte>)
      requires Valid() && |beyond| == 4
      modifies r, r.rbuf, r.socket
      ensures Valid() && r.handler == old(r.handler) && r.socket == old(r.socket)
      ensures r.rbuf == old(r.rbuf) || fresh(r.rbuf)
      ensures r.socket.received + r.socket.inbox == old(r.socket.received) + old(r.socket.inbox)
      // On a framed stream only the end of the stream, an error or a rate limit closes the reader.
      ensures old(r.destroys) == 0 && Healthy(script) && r.handler.refused == {} ==> r.destroys == 0
      ensures old(r.destroys) == 0 && WillMove(script) && old(r.socket.inbox) != [] ==>
        |r.socket.inbox| < |old(r.socket.inbox)|
    {
      hide Decode, FrameAll, Concat, Output.Valid, Settled, Steady, WordsInRange, Carries, Healthy, WillMove, FirstEvent;
      ReceivedFramed();
      FramedSteady(pushed, r.socket.received, r.handler);
      r.ReadHandler(script, beyond);
      ReceivedFramed();
      FramedSteady(pushed, r.socket.received, r.handler);
      DecodeFramed(pushed, r.socket.received, 0, r.handler);
    }

    lemma ReceivedFramed()
      requires Fits(pushed) && w.socket.sent <= Concat(FrameAll(pushed)) && ChannelValid()
      ensures r.socket.received <= Concat(FrameAll(pushed))
    {
      hide FrameAll, Concat;
      var received := r.socket.received;
      assert received <= received + r.socket.inbox == w.socket.sent[..carried];
    }

    /** What the invariants say of the frames delivered so far. */
    lemma Delivers()
      requires Valid()
      ensures Fits(pushed) && r.delivered <= FrameAll(pushed) && r.socket.received <= Concat(FrameAll(pushed))
      ensures r.socket.received == Concat(FrameAll(pushed)) && r.handler.refused == {} ==>
        r.delivered == FrameAll(pushed)
    {
      hide Decode, FrameAll, Concat, Output.Valid, Settled, Carries, Steady;
      ReceivedFramed();
      FramedSteady(pushed, r.socket.received, r.handler);
      DecodeFramed(pushed, r.socket.received, 0, r.handler);
    }

    method Step(turn: Turn)
      requires Valid() && (turn.PushData? ==> |turn.data| <= FRAME_MAX_SIZE - 8) && Surrounded(turn)
      modifies this, w, w.socket, r, r.rbuf, r.socket
      ensures Valid() && w.socket == old(w.socket) && r.socket == old(r.socket)
      ensures r.handler == old(r.handler) && (r.rbuf == old(r.rbuf) || fresh(r.rbuf))
      ensures pushed == old(pushed)
        + if turn.PushData? && old(w.destroys) == 0 then [turn.data] else []
      ensures w.destroys == 0 ==> old(w.destroys) == 0
    {
      hide Decode, FrameAll, Concat, Output.Valid, Settled, Carries;
      match turn
      case PushData(data) => Push(data);
      case Write(script) => WriterTurn(script);
      case Carry(n) => ChannelTurn(n);
      case Read(script, beyond) => ReaderTurn(script, beyond);
    }
  }

  /** Two new connections joined by an empty channel. */
  method Connect(capacity: nat, handler: Handler) returns (link: Link)
    requires WORD_BYTES <= capacity <= FRAME_MAX_SIZE
    ensures fresh(link) && fresh(link.w) && fresh(link.w.socket)
    ensures fresh(link.r) && fresh(link.r.rbuf) && fresh(link.r.socket)
    ensures link.Valid() && link.pushed == [] && link.r.handler == handler
  {
    hide Decode, FrameAll, Concat, Output.Valid, Settled, Carries;
    var ws := new Socket();
    var rs := new Socket();
    var wbuf, rbuf := new Byte[capacity], new Byte[capacity];
    var w := new IoConnection(wbuf, ws, handler);
    var r := new IoConnection(rbuf, rs, handler);
    link := new Link(w, r);
  }

  lemma PushesNone(schedule: seq<Turn>)
    requires schedule == []
    ensures Pushes(schedule) == []
  {
  }

  lemma {:induction false} PushesInOrder(schedule: seq<Turn>, i: nat)
    requires i < |schedule|
    ensures Pushes(schedule[..i + 1])
      == Pushes(schedule[..i]) + if schedule[i].PushData? then [schedule[i].data] else []
    ensures Pushes(schedule[..i + 1]) <= Pushes(schedule)
    decreases |schedule| - i
  {
    assert schedule[..i + 1][..i] == schedule[..i];
    if i + 1 < |schedule| {
      PushesInOrder(schedule, i + 1);
    } else {
      assert schedule[..i + 1] == schedule;
    }
  }

  /** Every interleaving of pushes, partial sends, channel delays and partial
      receives: the frames delivered are a prefix of the frames pushed, data
      intact, and all of them once every byte has been received and none was
      refused. */
  method Run(capacity: nat, handler: Handler, schedule: seq<Turn>)
    returns (delivered: seq<seq<Byte>>, received: seq<Byte>, pushed: seq<seq<Byte>>)
    requires WORD_BYTES <= capacity <= FRAME_MAX_SIZE
    requires Fits(Pushes(schedule)) && forall i :: 0 <= i < |schedule| ==> Surrounded(schedule[i])
    ensures pushed <= Pushes(schedule) && Fits(pushed)
    ensures delivered <= FrameAll(pushed)
    ensures received <= Concat(FrameAll(pushed))
    ensures received == Concat(FrameAll(pushed)) && handler.refused == {} ==>
      delivered == FrameAll(pushed)
  {
    hide Decode, FrameAll, Concat, Pushes, Link.Valid;
    assert Pushes(schedule[..0]) == [] by {
      PushesNone(schedule[..0]);
    }
    var link := Connect(capacity, handler);
    for i := 0 to |schedule|
      invariant link.Valid() && link.r.handler == handler
      invariant fresh(link.w) && fresh(link.r) && fresh(link)
      invariant fresh(link.w.socket) && fresh(link.r.socket) && fresh(link.r.rbuf)
      invariant link.pushed <= Pushes(schedule[..i])
      invariant link.w.destroys == 0 ==> link.pushed == Pushes(schedule[..i])
    {
      PushesInOrder(schedule, i);
      assert schedule[i].PushData? ==> Pushes(schedule[..i + 1])[|Pushes(schedule[..i])|] == schedule[i].data;
      link.Step(schedule[i]);
    }
    assert schedule[..|schedule|] == schedule;
    delivered, received, pushed := link.r.delivered, link.r.socket.received, link.pushed;
    link.Delivers();
  }

  /** What one readable event meets: the kernel's answers and the memory behind
      the read buffer. */
  datatype Arrivals = Arrivals(script: seq<Event>, beyond: seq<Byte>)

  /** A new connection on memory with the given contents. */
  method Fresh(memory: seq<Byte>, handler: Handler, stream: seq<Byte>) returns (c: IoConnection)
    requires WORD_BYTES <= |memory| <= FRAME_MAX_SIZE
    ensures fresh(c) && fresh(c.rbuf) && fresh(c.socket) && c.handler == handler
    ensures c.Reading() && c.Open() && c.rstate.Framing? && c.rpos == 0 && c.rbuf[..] == memory
    ensures c.delivered == [] && c.mishap == Mishap(false, false)
    ensures c.socket.received == [] && c.socket.inbox == stream
  {
    hide Decode, Accounts, Settled, Steady, Output.Valid, Word;
    var s := new Socket();
    s.inbox := stream;
    var rbuf := new Byte[|memory|];
    forall i | 0 <= i < |memory| {
      rbuf[i] := memory[i];
    }
    c := new IoConnection(rbuf, s, handler);
  }

  /** Every stream and every way of cutting it into receives: as long as the bytes
      received are steady, the frames delivered are those of a one-shot decode of
      them and an open connection buffers exactly the undecoded tail; and the
      handler looks behind the buffer only for a word out of range. */
  method ReadStream(memory: seq<Byte>, handler: Handler, stream: seq<Byte>, events: seq<Arrivals>)
    returns (delivered: seq<seq<Byte>>, received: seq<Byte>, buffered: seq<Byte>, open: bool, mishap: Mishap)
    requires WORD_BYTES <= |memory| <= FRAME_MAX_SIZE
    requires forall e :: e in events ==> |e.beyond| == 4
    ensures received <= stream
    ensures Steady(received, handler) ==> !mishap.strayed && delivered == Decode(received, 0, handler).frames
    ensures open && Steady(received, handler) ==>
      buffered == Decode(received, 0, handler).rest && |buffered| < FRAME_MAX_SIZE
    ensures WordsInRange(received, handler) ==> !mishap.over
    ensures Steady(stream, handler) ==> Steady(received, handler)
  {
    hide Decode, Accounts, Settled, Steady, WordsInRange, Output.Valid, Word, FirstStep;
    DecodeNothing(handler);
    var c := Fresh(memory, handler, stream);
    var s := c.socket;
    for i := 0 to |events|
      invariant fresh(s) && fresh(c) && fresh(c.rbuf) && c.socket == s && c.handler == handler
      invariant c.destroys == 0 && !c.mishap.strayed ==> c.Reading() && c.Open()
      invariant s.received + s.inbox == stream
      invariant Steady(s.received, handler) ==>
        !c.mishap.strayed && c.delivered == Decode(s.received, 0, handler).frames
      invariant WordsInRange(s.received, handler) ==> !c.mishap.over
    {
      ghost var before := s.received;
      c.ReadHandler(events[i].script, events[i].beyond);
      assert s.received == before + s.received[|before|..];
      SteadyPrefix(before, s.received[|before|..], handler);
    }
    SteadyPrefix(s.received, s.inbox, handler);
    delivered, received, buffered, mishap := c.delivered, s.received, [], c.mishap;
    open := c.destroys == 0 && !c.mishap.strayed;
    if open {
      buffered := c.rbuf[..c.rpos];
      SettledFrames(received, delivered, buffered, handler);
    }
  }

  // ---- Everything pushed is sent, and everything sent is delivered ----

  /** Messages with bytes to offer and no request to close. */
  ghost predicate Ordinary(msgs: seq<Outgoing>)
  {
    forall m :: m in msgs ==> !m.closeConn && m.bytes != []
  }

  /** How many bytes the kernel has still to take. */
  ghost function Remaining(out: Output): int
  {
    |WireBytes(out.Unsent())| - out.Pos()
  }

  lemma RemainingPositive(out: Output)
    requires Ordinary(out.Unsent()) && out.Ready()
    ensures out.Unsent() != [] ==> Remaining(out) > 0 && out.Sendable()
    ensures out.Unsent() == [] ==> Remaining(out) == 0
  {
    if out.Unsent() != [] {
      var m := out.Unsent()[0];
      assert m in out.Unsent();
      assert |WireBytes(out.Unsent())| == |m.bytes| + |WireBytes(out.Unsent()[1..])|;
    }
  }

  lemma TakingMoves(out: Output, script: seq<Event>)
    requires out.Sendable() && WillMove(script)
    ensures |out.Taking(FirstEvent(script))| > 0 && !out.Shuts(FirstEvent(script))
  {
  }

  /** Every writable event that moves something leaves less to write. */
  method WriteOne(c: IoConnection)
    requires c.Writing() && c.Open() && c.out.Ready() && Ordinary(c.out.Unsent()) && c.out.Unsent() != []
    requires WillMove(c.socket.script)
    modifies c`out, c`destroys, c`handed, c.socket
    ensures c.Writing() && c.Open() && c.out.Ready() && Ordinary(c.out.Unsent())
    ensures c.out.Pushed() == old(c.out.Pushed()) && Remaining(c.out) < old(Remaining(c.out))
    ensures c.socket.received == old(c.socket.received) && c.socket.inbox == old(c.socket.inbox)
  {
    hide WireBytes, WillMove, FirstEvent, Output.Valid;
    RemainingPositive(c.out);
    TakingMoves(c.out, c.socket.script);
    WireBytesFirst(c.out.Unsent());
    c.WriteSocket();
  }

  lemma WireBytesFirst(msgs: seq<Outgoing>)
    requires msgs != []
    ensures |WireBytes(msgs)| == |msgs[0].bytes| + |WireBytes(msgs[1..])|
  {
  }

  /** After as many moving write events as there are bytes to write, every message is
      finished and every byte sent, in push order. */
  method Flush(c: IoConnection, scripts: seq<seq<Event>>)
    requires c.Writing() && c.Open() && c.out.Ready() && Ordinary(c.out.Unsent())
    requires (forall s :: s in scripts ==> WillMove(s)) && |scripts| >= Remaining(c.out)
    modifies c`out, c`destroys, c`handed, c.socket
    ensures c.Writing() && c.Open() && c.out.Ready() && c.out.Unsent() == []
    ensures c.out.finished == c.out.Pushed() == old(c.out.Pushed())
    ensures c.socket.sent == WireBytes(old(c.out.Pushed()))
    ensures c.socket.received == old(c.socket.received) && c.socket.inbox == old(c.socket.inbox)
  {
    hide WireBytes, WillMove, FirstEvent, Output.Valid;
    RemainingPositive(c.out);
    var i := 0;
    while i < |scripts| && c.out.Unsent() != []
      invariant i <= |scripts| && c.Writing() && c.Open() && c.out.Ready() && Ordinary(c.out.Unsent())
      invariant c.out.Pushed() == old(c.out.Pushed()) && Remaining(c.out) <= |scripts| - i
      invariant c.socket.received == old(c.socket.received) && c.socket.inbox == old(c.socket.inbox)
    {
      c.socket.script := scripts[i];
      WriteOne(c);
      i := i + 1;
    }
    RemainingPositive(c.out);
    SentAll(c.out, c.socket.sent);
  }

  lemma SentAll(out: Output, sent: seq<Byte>)
    requires out.Valid(sent) && out.Unsent() == []
    ensures out.finished == out.Pushed() && sent == WireBytes(out.Pushed())
  {
    assert out.finished + [] == out.finished;
  }

  lemma CarriedOrdinary(out: Output, datas: seq<seq<Byte>>)
    requires Fits(datas) && Carries(out.Pushed(), datas)
    ensures Ordinary(out.Unsent()) && Remaining(out) <= |Concat(FrameAll(datas))|
  {
    CarriesBytes(out.Pushed(), datas);
    WireBytesConcat(out.finished, out.Unsent());
    forall m | m in out.Unsent()
      ensures !m.closeConn && m.bytes != []
    {
      assert m in out.Pushed();
    }
  }

  /** The writer of a link flushes everything pushed. */
  method FlushLink(link: Link, writes: seq<seq<Event>>)
    requires link.Valid() && link.w.destroys == 0
    requires (forall s :: s in writes ==> WillMove(s)) && |writes| >= |Concat(FrameAll(link.pushed))|
    modifies link.w`out, link.w`destroys, link.w`handed, link.w.socket
    ensures link.Valid() && link.w.destroys == 0 && link.w.out.Unsent() == []
    ensures link.w.socket.sent == Concat(FrameAll(link.pushed))
  {
    hide Decode, FrameAll, Concat, WireBytes, Output.Valid, Settled, Carries, Steady, Fits, WillMove, Link.ReaderValid;
    CarriedOrdinary(link.w.out, link.pushed);
    CarriesBytes(link.w.out.Pushed(), link.pushed);
    ghost var before := link.w.socket.sent;
    Flush(link.w, writes);
    assert before <= link.w.socket.sent;
    assert link.w.socket.sent[..link.carried] == before[..link.carried];
  }

  /** From any state of a link with both ends open: once the writer has had as many
      moving events as there are bytes, the channel has carried them, and the reader
      has had as many, exactly the frames pushed are delivered, all of them, and both
      ends are still open. */
  method Complete(link: Link, writes: seq<seq<Event>>, arrivals: seq<Arrivals>)
    requires link.Valid() && link.w.destroys == 0 && link.r.destroys == 0 && link.r.handler.refused == {}
    requires (forall s :: s in writes ==> WillMove(s)) && |writes| >= |Concat(FrameAll(link.pushed))|
    requires forall a :: a in arrivals ==> WillMove(a.script) && Healthy(a.script) && |a.beyond| == 4
    requires |arrivals| >= |Concat(FrameAll(link.pushed))|
    modifies link, link.w, link.w.socket, link.r, link.r.rbuf, link.r.socket
    ensures link.Valid() && link.pushed == old(link.pushed) && link.w.destroys == link.r.destroys == 0
    ensures link.w.out.Unsent() == [] && link.r.delivered == FrameAll(link.pushed)
  {
    hide Decode, FrameAll, Concat, WireBytes, Output.Valid, Settled, Carries, Steady, WillMove, Healthy,
      Link.WriterValid, Link.ReaderValid;
    FlushLink(link, writes);
    link.ChannelTurn(|link.w.socket.sent|);
    ghost var all := link.w.socket.sent;
    assert all[..|all|] == all;
    var i := 0;
    while i < |arrivals| && link.r.socket.inbox != []
      invariant i <= |arrivals| && link.Valid() && link.w.destroys == link.r.destroys == 0
      invariant link.pushed == old(link.pushed) && link.w.out.Unsent() == [] && link.r.handler.refused == {}
      invariant link.w.socket == old(link.w.socket) && link.r.socket == old(link.r.socket)
      invariant link.r.rbuf == old(link.r.rbuf) || fresh(link.r.rbuf)
      invariant link.w.socket.sent == all && link.r.socket.received + link.r.socket.inbox == all
      invariant |link.r.socket.inbox| <= |arrivals| - i
    {
      link.ReaderTurn(arrivals[i].script, arrivals[i].beyond);
      i := i + 1;
    }
    link.Delivers();
  }
}
