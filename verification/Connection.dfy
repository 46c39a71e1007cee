/** One connection: incremental frame reader and partial writer over a
    non-blocking socket. */
module Connection {
  import opened Common
  import opened Frames
  import opened Buffers
  import opened Sockets

  datatype ReadState = Framing | Receiving

  /** A message queued for output: its frame bytes, and whether the connection
      must be closed in its place. */
  datatype Outgoing = Outgoing(bytes: seq<Byte>, closeConn: bool)

  /** The frame being written and how much of it the kernel has taken. */
  datatype Push = Push(msg: Outgoing, wpos: nat)

  /** `over`: the frame handler was shown bytes from behind the read buffer.
      `strayed`: it was led outside what a frame can be, after which nothing is
      known of the connection. */
  datatype Mishap = Mishap(over: bool, strayed: bool)

  const READ_BUFFER_INCREMENT := 64

  /** The buffer after `bytes` arrived at `at`. */
  function Filled(buf: seq<Byte>, at: nat, bytes: seq<Byte>): seq<Byte>
    requires at + |bytes| <= |buf|
  {
    buf[..at] + bytes + buf[at + |bytes|..]
  }

  lemma FilledBeyond(buf: seq<Byte>, beyond: seq<Byte>, at: nat, bytes: seq<Byte>)
    requires at + |bytes| <= |buf|
    ensures Filled(buf + beyond, at, bytes) == Filled(buf, at, bytes) + beyond
  {
  }

  lemma RestOfInbox(r: seq<Byte>, inbox: seq<Byte>, bytes: seq<Byte>, r': seq<Byte>, inbox': seq<Byte>)
    requires bytes <= inbox && r' == r + bytes && r' + inbox' == r + inbox
    ensures inbox' == inbox[|bytes|..]
  {
    assert inbox' == (r' + inbox')[|r'|..];
    assert inbox[|bytes|..] == (r + inbox)[|r| + |bytes|..];
  }

  lemma FilledNothing(buf: seq<Byte>, at: nat)
    requires at <= |buf|
    ensures Filled(buf, at, []) == buf
  {
  }

  /** The buffer after the tail from `off` moved to its front. */
  function Shifted(buf: seq<Byte>, off: nat, rpos: nat): seq<Byte>
    requires off <= rpos <= |buf|
  {
    buf[off..rpos] + buf[rpos - off..]
  }

  // ---- What one readable event meets, on values ----

  /** The reader, its buffer and its socket at one moment. */
  datatype View = View(
    buf: seq<Byte>, beyond: seq<Byte>, rpos: nat, frameSize: nat, frames: nat, handler: Handler,
    open: bool, inbox: seq<Byte>, script: seq<Event>)
  {
    predicate Fits()
    {
      rpos <= |buf| && |beyond| == 4
    }

    function Event(): Event
    {
      FirstEvent(script)
    }

    /** What the first receive of a frame brings in. */
    function Incoming(): (bytes: seq<Byte>)
      requires Fits()
      ensures bytes <= inbox && rpos + |bytes| <= |buf|
    {
      Brought(Event(), inbox, |buf| - rpos)
    }

    /** What is buffered after it. */
    function Arrived(): seq<Byte>
      requires Fits()
    {
      buf[..rpos] + Incoming()
    }

    predicate HasHeader()
      requires Fits()
    {
      |Arrived()| >= WORD_BYTES
    }

    lemma EndingBringsNothing()
      requires Fits() && Ending(Event())
      ensures Incoming() == [] && Arrived() == buf[..rpos]
    {
    }

    lemma MovingBrings()
      requires Fits() && WillMove(script) && inbox != []
      ensures rpos < |buf| ==> Incoming() != []
    {
    }

    /** The size the framing state computes. */
    function Size(): nat
      requires Fits() && HasHeader()
    {
      FramingSize(Word(Arrived()))
    }

    predicate TooLong()
      requires Fits()
    {
      HasHeader() && Size() > FRAME_MAX_SIZE
    }

    /** What the first receive brings in completes a frame. */
    predicate Completes()
      requires Fits()
    {
      !Ending(Event()) && HasHeader() && Size() <= |Arrived()|
    }

    /** What a receive brings in for the rest of the current frame. */
    function Lacking(): (bytes: seq<Byte>)
      requires Fits() && frameSize <= |buf|
      ensures bytes <= inbox && rpos + |bytes| <= |buf|
    {
      if open && rpos < frameSize then Brought(Event(), inbox, frameSize - rpos) else []
    }

    /** That receive meets the end of the stream or an error. */
    predicate Breaks()
    {
      rpos < frameSize && (!open || Ending(Event()))
    }

    /** The receiving state shuts the connection: the receive breaks, or what it
        completes is refused. */
    predicate DataCloses()
      requires Fits() && WORD_BYTES <= rpos && frameSize <= |buf|
    {
      || Breaks()
      || (rpos + |Lacking()| >= frameSize
          && Batched(Filled(buf, rpos, Lacking()) + beyond, rpos + |Lacking()|, 0, frames, handler).end.Closed?)
    }

    /** The same reader behind the framing state's receive. */
    function Framed(): View
      requires Fits() && HasHeader()
    {
      this.(buf := Filled(buf, rpos, Incoming()), rpos := rpos + |Incoming()|, frameSize := Size(),
            inbox := inbox[|Incoming()|..], script := AfterFirst(script))
    }

    /** Exactly when a readable event shuts the connection in the framing state: the
        receive meets the end of the stream or an error, the length word is too
        large, or the receiving state behind it shuts it. */
    predicate HeaderCloses()
      requires Fits() && |buf| == FRAME_MAX_SIZE
    {
      Ending(Event()) || TooLong() || (HasHeader() && Framed().DataCloses())
    }
  }

  // ---- Output: a partly written frame and the queue behind it ----

  /** `finished` is history: the messages whose every byte the kernel took. */
  datatype Output = Output(
    current: Option<Push>, pushList: seq<Outgoing>, armed: bool, finished: seq<Outgoing>)
  {
    /** The messages not yet fully taken by the kernel, in push order. */
    function Unsent(): seq<Outgoing>
    {
      (if current.Some? then [current.value.msg] else []) + pushList
    }

    function Pushed(): seq<Outgoing>
    {
      finished + Unsent()
    }

    /** How much of the first unsent message the kernel has taken. */
    function Pos(): nat
    {
      if current.Some? then current.value.wpos else 0
    }

    /** The first unsent message has bytes to offer. */
    predicate Sendable()
    {
      Unsent() != [] && !Unsent()[0].closeConn && Pos() < |Unsent()[0].bytes|
    }

    /** The bytes of it the kernel takes when it answers so. */
    function Taking(e: Event): (bytes: seq<Byte>)
      requires Unsent() != [] && Pos() <= |Unsent()[0].bytes|
      ensures Pos() + |bytes| <= |Unsent()[0].bytes|
    {
      Brought(e, Unsent()[0].bytes[Pos()..], |Unsent()[0].bytes| - Pos())
    }

    /** A writable event shuts the connection: the first unsent message asks for it,
        or offering its bytes fails. */
    predicate Shuts(e: Event)
    {
      Unsent() != [] && (Unsent()[0].closeConn || (Pos() < |Unsent()[0].bytes| && e.Failure?))
    }

    /** The kernel has taken all of it with that answer. */
    predicate Completes(e: Event)
      requires Unsent() != [] && Pos() <= |Unsent()[0].bytes|
    {
      Pos() + |Taking(e)| == |Unsent()[0].bytes|
    }

    /** No message is current whose every byte was taken. */
    predicate Ready()
    {
      current.Some? ==> current.value.wpos < |current.value.msg.bytes| || current.value.wpos == 0
    }

    /** The kernel has taken the finished frames and a prefix of the current
        one, and pending output keeps the write event armed. */
    ghost predicate Valid(sent: seq<Byte>)
    {
      && (current.Some? ==> current.value.wpos <= |current.value.msg.bytes|)
      && sent == WireBytes(finished)
              + (if current.Some? then current.value.msg.bytes[..current.value.wpos] else [])
      && (Unsent() != [] ==> armed)
    }
  }

  function WireBytes(msgs: seq<Outgoing>): seq<Byte>
  {
    if msgs == [] then [] else msgs[0].bytes + WireBytes(msgs[1..])
  }

  const NoOutput := Output(None, [], false, [])

  // ---- The connection object ----

  class IoConnection {
    var socket: Socket
    var handler: Handler

    var rstate: ReadState
    var rbuf: array<Byte>
    /** Four bytes of the memory behind the buffer. */
    var beyond: seq<Byte>
    var rpos: nat
    var frameSize: nat
    var delivered: seq<seq<Byte>>
    var mishap: Mishap

    var out: Output

    /** How often the owner was told to destroy the connection, and the unsent
        messages handed over when it was. */
    var destroys: nat
    var handed: seq<Outgoing>

    ghost predicate Sized()
      reads this
    {
      WORD_BYTES <= rbuf.Length <= FRAME_MAX_SIZE && |beyond| == 4
    }

    /** The reader between two events. */
    ghost predicate Reading()
      reads this, rbuf, socket`received
    {
      && Sized()
      && rpos < rbuf.Length
      && Settled(socket.received, delivered, rbuf[..rpos], handler)
      && (rstate.Framing? && rpos >= WORD_BYTES ==> rpos < LoopSize(Word(rbuf[..rpos])))
      && (rstate.Receiving? ==>
            WORD_BYTES <= rpos < frameSize == FramingSize(Word(rbuf[..rpos])) <= rbuf.Length)
    }

    ghost predicate Writing()
      reads this`out, this`socket, socket`sent
    {
      out.Valid(socket.sent)
    }

    ghost predicate Open()
      reads this`destroys, this`socket, this`mishap, socket`open
    {
      destroys == 0 && socket.open && !mishap.strayed
    }

    ghost function Memory(): seq<Byte>
      reads this, rbuf
    {
      rbuf[..] + beyond
    }

    /** A new object on memory as it was allocated, and its first
        initialisation. */
    constructor (rbuf: array<Byte>, socket: Socket, handler: Handler)
      requires WORD_BYTES <= rbuf.Length <= FRAME_MAX_SIZE
      requires socket.open && socket.received == [] && socket.sent == []
      ensures this.rbuf == rbuf && this.socket == socket && this.handler == handler
      ensures Reading() && Writing() && Open() && rstate.Framing? && rpos == 0
      ensures delivered == [] && out.Ready() && out.Pushed() == [] && handed == [] && mishap == Mishap(false, false)
    {
      this.rbuf, beyond := rbuf, [0, 0, 0, 0];
      this.socket, this.handler := socket, handler;
      rstate, rpos, frameSize, delivered := Framing, 0, 0, [];
      mishap := Mishap(false, false);
      out, handed, destroys := NoOutput, [], 0;
      new;
      SettledAtStart(rbuf[..rpos], handler);
    }

    method ClearReader()
      requires Sized() && socket.received == []
      modifies this`rstate, this`rpos, this`frameSize, this`delivered
      ensures Reading() && delivered == [] && rstate.Framing? && rpos == 0
    {
      rstate, rpos, frameSize, delivered := Framing, 0, 0, [];
      SettledAtStart(rbuf[..rpos], handler);
    }

    /** Reuse of a destroyed object for a new connection: the read buffer is
        kept with its old contents. */
    method Initialize(socket: Socket, handler: Handler)
      requires destroys > 0 && !mishap.strayed && out.Unsent() == [] && !out.armed && Sized()
      requires socket.open && socket.received == [] && socket.sent == []
      modifies this
      ensures this.socket == socket && this.handler == handler && rbuf == old(rbuf)
      ensures Reading() && Writing() && Open() && rstate.Framing? && rpos == 0
      ensures delivered == [] && out.Ready() && out.Pushed() == []
    {
      hide Decode, Accounts, Settled, Word, LoopSize, FramingSize, Steady;
      this.socket, this.handler := socket, handler;
      out, destroys := NoOutput, 0;
      ClearReader();
    }

    /** Appends received bytes to the buffer. */
    method Store(bytes: seq<Byte>, ghost before: seq<Byte>)
      requires rpos + |bytes| <= rbuf.Length
      requires Accounts(before, delivered, rbuf[..rpos], handler)
      modifies this`rpos, rbuf
      ensures rpos == old(rpos) + |bytes|
      ensures rbuf[..] == Filled(old(rbuf[..]), old(rpos), bytes)
      ensures Accounts(before + bytes, delivered, rbuf[..rpos], handler)
      ensures old(rpos) >= WORD_BYTES ==> Word(rbuf[..rpos]) == old(Word(rbuf[..rpos]))
    {
      hide Decode, Accounts;
      AccountsForMore(before, delivered, rbuf[..rpos], bytes, handler);
      forall i | 0 <= i < |bytes| {
        rbuf[rpos + i] := bytes[i];
      }
      rpos := rpos + |bytes|;
      assert rbuf[..rpos] == old(rbuf[..rpos]) + bytes;
    }

    /** closeSocket and resetSocket: both shut the socket, hand the unsent
        messages over, the partly written one first, and report the
        connection destroyed. */
    method Shut()
      modifies this`destroys, this`handed, this`out, socket
      ensures destroys == old(destroys) + 1 && !socket.open
      ensures socket.received == old(socket.received) && socket.sent == old(socket.sent)
      ensures socket.inbox == old(socket.inbox)
      ensures handed == old(handed) + old(out.Unsent())
      ensures out == old(out).(current := None, pushList := [], armed := false)
    {
      socket.Close();
      var pending := out.current;
      out := out.(current := None, armed := false);
      if pending.Some? {
        out := out.(pushList := [pending.value.msg] + out.pushList);
      }
      handed := handed + out.pushList;
      out := out.(pushList := []);
      destroys := destroys + 1;
    }

    ghost function Sight(): View
      reads this, rbuf, socket
    {
      View(rbuf[..], beyond, rpos, frameSize, |delivered|, handler, socket.open, socket.inbox, socket.script)
    }

    /** The bytes arrived behind what was buffered. */
    ghost predicate Took(was: View, bytes: seq<Byte>, received: seq<Byte>)
      requires was.rpos + |bytes| <= |was.buf|
      reads this, rbuf, socket`received
    {
      && rpos == was.rpos + |bytes| && rbuf[..] == Filled(was.buf, was.rpos, bytes)
      && socket.received == received + bytes
    }

    /** The first receive of a frame: takes whatever fits the buffer. The end of the
        stream shuts the connection and ends the call; an error other than EAGAIN
        and EINTR shuts the connection but does not end the call. */
    method RecvFraming() returns (ended: bool)
      requires Reading() && Open()
      modifies this`rpos, this`destroys, this`handed, this`out, rbuf, socket
      ensures rpos <= rbuf.Length
      ensures Accounts(socket.received, delivered, rbuf[..rpos], handler)
      ensures socket.received + socket.inbox == old(socket.received) + old(socket.inbox)
      ensures Took(old(Sight()), old(Sight().Incoming()), old(socket.received))
      ensures ended <==> old(Sight()).Event().Hangup?
      ensures destroys == if Ending(old(Sight()).Event()) then 1 else 0
      ensures destroys == 0 ==> socket.open && out == old(out) && handed == old(handed)
      ensures destroys == 0 ==> socket.sent == old(socket.sent) && socket.script == AfterFirst(old(socket.script))
      ensures destroys > 0 ==> !socket.open && handed == old(handed) + old(out.Unsent()) && out.Unsent() == []
    {
      hide Decode, Accounts, FirstEvent, AfterFirst, AnswerTo, Brought, Filled, Settled, Word, LoopSize, FramingSize;
      ghost var v := Sight();
      FilledNothing(rbuf[..], rpos);
      AnswerBrings(v.Event(), v.inbox, rbuf.Length - rpos);
      SettledAccounts(socket.received, delivered, rbuf[..rpos], handler);
      var a := socket.RecvSome(rbuf.Length - rpos);
      assert rbuf[..] == v.buf && rbuf[..rpos] == old(rbuf[..rpos]);
      match a
      case Moved(bytes) =>
        Store(bytes, old(socket.received));
        return false;
      case Ended =>
        Shut();
        return true;
      case Blocked =>
        return false;
      case Failed =>
        Shut();
        return false;
    }

    /** A whole length word is buffered and the frame fits the buffer. */
    ghost predicate Loaded()
      reads this, rbuf, socket`received
    {
      && Sized()
      && WORD_BYTES <= rpos <= rbuf.Length
      && frameSize == FramingSize(Word(rbuf[..rpos])) <= rbuf.Length
      && Accounts(socket.received, delivered, rbuf[..rpos], handler)
    }

    /** Enlarges the read buffer, keeping its contents. */
    method Grow()
      requires rpos <= rbuf.Length < frameSize <= FRAME_MAX_SIZE
      modifies this`rbuf
      ensures fresh(rbuf) && rbuf.Length == Min(frameSize + READ_BUFFER_INCREMENT, FRAME_MAX_SIZE)
      ensures rbuf[..rpos] == old(rbuf[..rpos])
    {
      var size := frameSize + READ_BUFFER_INCREMENT;
      if size > FRAME_MAX_SIZE {
        size := FRAME_MAX_SIZE;
      }
      var buf := new Byte[size];
      forall i | 0 <= i < rpos {
        buf[i] := rbuf[i];
      }
      rbuf := buf;
    }

    /** Receives at most the bytes the current frame still lacks. */
    method RecvData() returns (stop: bool)
      requires Loaded()
      modifies this`rpos, this`destroys, this`handed, this`out, rbuf, socket
      ensures Loaded()
      ensures socket.received + socket.inbox == old(socket.received) + old(socket.inbox)
      ensures Took(old(Sight()), old(Sight().Lacking()), old(socket.received))
      ensures stop <==> old(rpos) < frameSize && old(Sight().Lacking()) == []
      ensures destroys == old(destroys) + if old(Sight()).Breaks() then 1 else 0
      ensures !old(Sight()).Breaks() ==>
        socket.open == old(socket.open) && out == old(out) && handed == old(handed) && socket.sent == old(socket.sent)
      ensures old(Sight()).Breaks() ==> !socket.open && handed == old(handed) + old(out.Unsent()) && out.Unsent() == []
    {
      hide Decode, Accounts, FirstEvent, Word, FramingSize, AnswerTo, Brought, AfterFirst, Filled;
      ghost var v := Sight();
      FilledNothing(rbuf[..], rpos);
      if rpos >= frameSize {
        return false;
      }
      AnswerBrings(v.Event(), v.inbox, frameSize - rpos);
      var a := socket.RecvSome(frameSize - rpos);
      assert rbuf[..] == v.buf && rbuf[..rpos] == old(rbuf[..rpos]);
      match a
      case Moved(bytes) =>
        Store(bytes, old(socket.received));
        stop := false;
      case Ended =>
        Shut();
        stop := true;
      case Blocked =>
        stop := true;
      case Failed =>
        Shut();
        stop := true;
    }

    /** whenReceivedFrame on the bytes at `off`: it is shown the four bytes behind
        the length word as they stand in memory. */
    method Deliver(off: nat, size: int) returns (verdict: Verdict)
      requires Sized() && off + WORD_BYTES <= rpos <= rbuf.Length && size <= rpos - off
      modifies this`delivered, this`mishap
      ensures verdict == Judge(Memory()[off + 4..off + 8], size, |old(delivered)|, handler)
      ensures verdict.Delivered? ==> size > 0
      ensures delivered == old(delivered) + if verdict.Delivered? then [rbuf[off..off + size]] else []
      ensures mishap.over == (old(mishap).over || off + 8 > rbuf.Length)
      ensures mishap.strayed == (old(mishap).strayed || verdict.Strayed?)
    {
      var window := if off + 8 <= rbuf.Length then rbuf[off + 4..off + 8] else (rbuf[off + 4..] + beyond)[..4];
      assert window == Memory()[off + 4..off + 8];
      verdict := Judge(window, size, |delivered|, handler);
      mishap := Mishap(mishap.over || off + 8 > rbuf.Length, mishap.strayed || verdict.Strayed?);
      if verdict.Delivered? {
        delivered := delivered + [rbuf[off..off + size]];
      }
    }

    /** Back to framing with the tail from `off` moved to the front. */
    method KeepTail(off: nat)
      requires off <= rpos <= rbuf.Length
      modifies this`rpos, this`rstate, rbuf
      ensures rstate.Framing? && rpos == old(rpos) - off
      ensures rbuf[..] == Shifted(old(rbuf[..]), off, old(rpos))
    {
      forall i | 0 <= i < rpos - off {
        rbuf[i] := rbuf[off + i];
      }
      rpos := rpos - off;
      rstate := Framing;
    }

    /** The loop over a buffer that holds more than one frame: it ends as
        `Batched` says, before the tail is moved or the connection shut. */
    method Drain(ghost mem: seq<Byte>, ghost all: Batch) returns (off: nat, closed: bool)
      requires Sized() && WORD_BYTES <= rpos <= rbuf.Length && mem == Memory()
      requires LoopSize(Word(rbuf[..rpos])) == frameSize <= rpos
      requires all == Batched(mem, rpos, 0, |delivered|, handler) && !mishap.strayed
      modifies this`delivered, this`mishap
      ensures delivered == old(delivered) + all.frames
      ensures mishap.over == (old(mishap).over || all.over)
      ensures all.end == if mishap.strayed then Lost else if closed then Closed else Kept(off)
      ensures off <= rpos && (closed ==> !mishap.strayed)
    {
      hide Batched, Judge, Word, LoopSize;
      off, closed := 0, false;
      var size: int := frameSize;
      assert rbuf[..rpos] == mem[0..rpos];
      while rpos - off >= size
        invariant off + WORD_BYTES <= rpos && size == LoopSize(Word(mem[off..rpos])) && !mishap.strayed
        invariant Partway(mem, off, all, old(delivered), old(mishap).over)
        decreases rpos - off
      {
        assert rbuf[..rpos] == mem[..rpos];
        BatchedTurn(mem, rpos, off, |delivered|, handler);
        var verdict := Deliver(off, size);
        if verdict.Strayed? {
          return;
        }
        if verdict.Refused? {
          closed := true;
          return;
        }
        assert rbuf[off..off + size] == mem[off..off + size];
        off := off + size;
        if rpos - off < WORD_BYTES {
          break;
        }
        assert rbuf[off..rpos] == mem[off..rpos];
        size := LoopSize(Word(rbuf[off..rpos]));
      }
      if rpos - off >= WORD_BYTES {
        BatchedTurn(mem, rpos, off, |delivered|, handler);
      }
    }

    /** What is delivered so far and what the rest of the loop adds is the whole
        batch. */
    ghost predicate Partway(mem: seq<Byte>, off: nat, all: Batch, before: seq<seq<Byte>>, over: bool)
      requires off + WORD_BYTES <= rpos && rpos + 4 <= |mem|
      reads this
    {
      var rest := Batched(mem, rpos, off, |delivered|, handler);
      && before + all.frames == delivered + rest.frames
      && all.end == rest.end
      && (over || all.over) == (mishap.over || rest.over)
    }

    /** The buffer was drained as `b` says. */
    ghost predicate Drained(b: Batch, mem: seq<Byte>, filled: nat, before: seq<seq<Byte>>)
      requires filled + 4 <= |mem|
      reads this, rbuf
    {
      && delivered == before + b.frames
      && mishap.strayed == b.end.Lost?
      && (b.end.Kept? ==>
            && b.end.off <= filled
            && rstate.Framing? && rpos == filled - b.end.off
            && rbuf[..] == Shifted(mem[..|mem| - 4], b.end.off, filled))
    }

    /** Shows the handler the one frame, or each of several. */
    method JudgeFrames() returns (off: nat, closed: bool, ghost b: Batch)
      requires Sized() && WORD_BYTES <= rpos <= rbuf.Length && !mishap.strayed
      requires LoopSize(Word(rbuf[..rpos])) == frameSize <= rpos
      modifies this`delivered, this`mishap
      ensures b == Batched(Memory(), rpos, 0, |old(delivered)|, handler)
      ensures delivered == old(delivered) + b.frames
      ensures mishap.over == (old(mishap).over || b.over)
      ensures b.end == if mishap.strayed then Lost else if closed then Closed else Kept(off)
      ensures off <= rpos && (closed ==> !mishap.strayed)
    {
      hide Batched, Judge, Word, LoopSize;
      ghost var mem := Memory();
      b := Batched(mem, rpos, 0, |delivered|, handler);
      if rpos == frameSize {
        assert rbuf[..rpos] == mem[0..rpos] == mem[..rpos] && rbuf[0..rpos] == mem[..rpos];
        BatchedOne(mem, rpos, |delivered|, handler);
        var verdict := Deliver(0, frameSize);
        off, closed := rpos, verdict.Refused?;
      } else {
        off, closed := Drain(mem, b);
      }
    }

    /** Delivers a complete frame, with any that follow it in the buffer. */
    method TakeFrames() returns (ghost b: Batch)
      requires Sized() && WORD_BYTES <= rpos <= rbuf.Length && !mishap.strayed
      requires LoopSize(Word(rbuf[..rpos])) == frameSize <= rpos
      modifies this`rpos, this`rstate, this`delivered, this`mishap, this`destroys, this`handed, this`out, rbuf, socket
      ensures b == Batched(old(Memory()), old(rpos), 0, |old(delivered)|, handler)
      ensures Drained(b, old(Memory()), old(rpos), old(delivered))
      ensures mishap.over == (old(mishap).over || b.over)
      ensures socket.received == old(socket.received) && socket.inbox == old(socket.inbox)
      ensures socket.sent == old(socket.sent)
      ensures b.end.Closed? ==> destroys == old(destroys) + 1 && !socket.open
      ensures b.end.Closed? ==> handed == old(handed) + old(out.Unsent()) && out.Unsent() == []
      ensures !b.end.Closed? ==> destroys == old(destroys) && out == old(out) && handed == old(handed)
      ensures !b.end.Closed? ==> socket.open == old(socket.open)
    {
      hide Batched, Word, LoopSize;
      ghost var mem := Memory();
      assert mem[..rbuf.Length] == rbuf[..];
      var off: nat, closed: bool;
      off, closed, b := JudgeFrames();
      if closed {
        Shut();
      } else if !mishap.strayed {
        KeepTail(off);
      }
    }

    lemma Settles(b: Batch, mem: seq<Byte>, filled: nat, before: seq<seq<Byte>>)
      requires Sized() && filled + 4 <= |mem| && b.end.Kept? && (b.end.off == 0 ==> filled < rbuf.Length)
      requires Drained(b, mem, filled, before) && Outcome(b, mem, filled, socket.received, before, handler)
      requires filled <= rbuf.Length == |mem| - 4
      ensures Reading()
    {
      hide Settled, Word, LoopSize, Decode, Steady, WordsInRange;
      var off := b.end.off;
      assert rbuf[..rpos] == mem[off..filled];
    }

    /** Delivers what is complete: on a steady stream, what the decoder delivers. */
    method FinishFrame()
      requires Loaded() && Open() && frameSize <= rpos
      modifies this`rpos, this`rstate, this`delivered, this`mishap, this`destroys, this`handed, this`out, rbuf, socket
      ensures socket.received == old(socket.received) && socket.inbox == old(socket.inbox)
      ensures socket.sent == old(socket.sent)
      ensures Steady(socket.received, handler) ==>
        !mishap.strayed && Decode(socket.received, 0, handler).frames == delivered
      ensures WordsInRange(socket.received, handler) ==> mishap.over == old(mishap).over
      ensures destroys == 0 && !mishap.strayed ==> Reading() && Open()
      ensures destroys == 0 ==> out == old(out) && handed == old(handed)
      ensures destroys > 0 ==> destroys == 1 && !socket.open && handed == old(handed) + old(out.Unsent()) && out.Unsent() == []
      ensures destroys > 0 && Steady(socket.received, handler) ==>
        !Decode(socket.received, 0, handler).status.NeedMore?
      ensures var b := Batched(old(Memory()), old(rpos), 0, |old(delivered)|, handler);
        && Drained(b, old(Memory()), old(rpos), old(delivered))
        && destroys == (if b.end.Closed? then 1 else 0)
    {
      hide Decode, Accounts, Settled, Steady, WordsInRange, FirstStep, Word, Batched, LoopSize, FramingSize;
      LoadedSize(Word(rbuf[..rpos]));
      ghost var mem, filled, before := Memory(), rpos, delivered;
      assert mem[0..rpos] == rbuf[..rpos];
      BatchAgrees(mem, rpos, 0, socket.received, delivered, handler);
      ghost var b := TakeFrames();
      if b.end.Kept? {
        Settles(b, mem, filled, before);
        SettledFrames(socket.received, delivered, rbuf[..rpos], handler);
      }
    }

    /** The bytes arrived behind what was buffered and, if that completed a frame of
        this size, the buffer was drained; otherwise nothing was delivered. */
    ghost predicate Absorbed(was: View, bytes: seq<Byte>, size: nat, before: seq<seq<Byte>>)
      requires was.Fits() && was.rpos + |bytes| <= |was.buf| && WORD_BYTES <= was.rpos + |bytes|
      reads this, rbuf
    {
      var mem, filled := Filled(was.buf, was.rpos, bytes) + was.beyond, was.rpos + |bytes|;
      var b := Batched(mem, filled, 0, |before|, handler);
      if filled < size then delivered == before && !mishap.strayed
      else Drained(b, mem, filled, before) && destroys == if b.end.Closed? then 1 else 0
    }

    /** The receiving state: complete the current frame and deliver it, with
        any that follow it in the buffer. */
    method ReceiveFrame()
      requires Loaded() && rstate.Receiving? && !mishap.strayed
      requires Open() || (destroys == 1 && !socket.open && rpos < frameSize)
      modifies this`rpos, this`rstate, this`delivered, this`mishap, this`destroys, this`handed, this`out, rbuf, socket
      ensures socket.received + socket.inbox == old(socket.received) + old(socket.inbox)
      ensures socket.received == old(socket.received) + old(Sight().Lacking())
      ensures Steady(socket.received, handler) ==>
        !mishap.strayed && Decode(socket.received, 0, handler).frames == delivered
      ensures WordsInRange(socket.received, handler) ==> mishap.over == old(mishap).over
      ensures destroys == 0 && !mishap.strayed ==> Reading() && Open()
      ensures destroys == 0 ==> out == old(out) && handed == old(handed) && socket.sent == old(socket.sent)
      ensures destroys != old(destroys) ==> handed == old(handed) + old(out.Unsent()) && out.Unsent() == []
      ensures destroys != old(destroys) ==> !socket.open
      ensures old(destroys) == 1 ==> destroys == 2
      ensures destroys == old(destroys) + if old(Sight().DataCloses()) then 1 else 0
      ensures destroys > old(destroys) && !old(Sight()).Breaks() && Steady(socket.received, handler) ==>
        !Decode(socket.received, 0, handler).status.NeedMore?
      ensures Absorbed(old(Sight()), old(Sight().Lacking()), frameSize, old(delivered))
    {
      hide Decode, Accounts, Settled, Steady, WordsInRange, FirstStep, Word, Batched, LoopSize, FramingSize, Drained,
        Filled, Output.Unsent;
      var stop := RecvData();
      if rpos < frameSize {
        StillNeedsMore(socket.received, delivered, rbuf[..rpos], frameSize, handler);
        return;
      }
      FinishFrame();
    }

    /** Checks the length word and makes room for the frame. */
    method SizeFrame() returns (fits: bool)
      requires Sized() && WORD_BYTES <= rpos <= rbuf.Length
      requires Accounts(socket.received, delivered, rbuf[..rpos], handler)
      modifies this`frameSize, this`rbuf, this`rstate, this`destroys, this`handed, this`out, socket
      ensures rbuf == old(rbuf) || fresh(rbuf)
      ensures rpos <= rbuf.Length && rbuf[..rpos] == old(rbuf[..rpos])
      ensures socket.received == old(socket.received) && socket.inbox == old(socket.inbox)
      ensures fits <==> FramingSize(Word(rbuf[..rpos])) <= FRAME_MAX_SIZE
      ensures fits ==> Loaded() && rstate.Receiving?
      ensures fits ==> destroys == old(destroys) && out == old(out) && handed == old(handed) && unchanged(socket)
      ensures fits && frameSize <= old(rbuf.Length) ==> rbuf == old(rbuf)
      ensures !fits ==> destroys == old(destroys) + 1 && !socket.open
      ensures !fits ==> handed == old(handed) + old(out.Unsent()) && out.Unsent() == []
      ensures !fits && Steady(socket.received, handler) ==>
        Decode(socket.received, 0, handler) == Decoded(delivered, rbuf[..rpos], Oversize(Word(rbuf[..rpos])))
    {
      hide Decode, Accounts, Steady;
      frameSize := FramingSize(Word(rbuf[..rpos]));
      if frameSize > FRAME_MAX_SIZE {
        if Steady(socket.received, handler) {
          AccountsWhenStopped(socket.received, delivered, rbuf[..rpos], handler);
        }
        Shut();
        return false;
      }
      if frameSize > rbuf.Length {
        Grow();
      }
      rstate := Receiving;
      fits := true;
    }

    /** The framing state: receive what there is and, once a length word is
        complete, check it and make room for the frame. */
    method ReadHeader() returns (done: bool)
      requires Reading() && Open() && rstate.Framing?
      modifies this`rpos, this`rbuf, this`frameSize, this`rstate, this`destroys, this`handed, this`out, rbuf, socket
      ensures rbuf == old(rbuf) || fresh(rbuf)
      ensures socket.received + socket.inbox == old(socket.received) + old(socket.inbox)
      ensures socket.received == old(socket.received) + old(Sight().Incoming())
      ensures destroys == 0 ==> Open() && out == old(out) && handed == old(handed) && socket.sent == old(socket.sent)
      ensures destroys == 0 ==> socket.script == AfterFirst(old(socket.script))
      ensures destroys > 0 ==> !socket.open && handed == old(handed) + old(out.Unsent()) && out.Unsent() == []
      ensures destroys == 0 && done ==> Reading()
      ensures done <==> old(Sight()).Event().Hangup? || old(!Sight().HasHeader() || Sight().TooLong())
      ensures !done ==> Loaded() && rstate.Receiving? && frameSize == old(Sight().Size())
      ensures !done && destroys > 0 ==> rpos < frameSize
      ensures !done && destroys == 0 && frameSize <= old(rbuf.Length) ==> Sight() == old(Sight().Framed())
      ensures done && Steady(socket.received, handler) ==> Decode(socket.received, 0, handler).frames == delivered
      ensures done && destroys > 0 && !Ending(old(Sight()).Event()) && Steady(socket.received, handler) ==>
        Decode(socket.received, 0, handler).status.Oversize?
      ensures destroys == (if Ending(old(Sight()).Event()) then 1 else 0)
        + (if !old(Sight()).Event().Hangup? && old(Sight().TooLong()) then 1 else 0)
    {
      hide Decode, Accounts, Steady, FirstEvent, AfterFirst, Settled, FirstStep, Word, FramingSize, LoopSize, Brought,
        Filled, Output.Unsent, View.Incoming, View.Arrived, View.Framed, Took;
      SettledFrames(socket.received, delivered, rbuf[..rpos], handler);
      ghost var v := Sight();
      var ended := RecvFraming();
      TookArrived(v, v.Incoming(), old(socket.received));
      RestOfInbox(old(socket.received), v.inbox, v.Incoming(), socket.received, socket.inbox);
      if Ending(v.Event()) {
        v.EndingBringsNothing();
      }
      if ended {
        assert socket.received == old(socket.received);
        return true;
      }
      if rpos < WORD_BYTES {
        KeptSettles(socket.received, delivered, rbuf[..rpos], handler);
        SettledFrames(socket.received, delivered, rbuf[..rpos], handler);
        return true;
      }
      BothSizes(Word(rbuf[..rpos]));
      ghost var filled := rbuf[..];
      var fits := SizeFrame();
      done := !fits;
      if fits && destroys == 0 && frameSize <= |v.buf| {
        assert rbuf[..] == filled;
        FramedIs(v, Sight());
      }
    }

    lemma TookArrived(v: View, bytes: seq<Byte>, received: seq<Byte>)
      requires v.Fits() && bytes == v.Incoming() && Took(v, bytes, received)
      ensures rpos == v.rpos + |bytes| && rbuf[..rpos] == v.Arrived() && |v.Arrived()| == rpos
      ensures rbuf[..] == Filled(v.buf, v.rpos, bytes) && socket.received == received + bytes
    {
    }

    lemma FramedIs(v: View, w: View)
      requires v.Fits() && v.HasHeader()
      requires w == View(Filled(v.buf, v.rpos, v.Incoming()), v.beyond, v.rpos + |v.Incoming()|, v.Size(), v.frames,
                         v.handler, v.open, v.inbox[|v.Incoming()|..], AfterFirst(v.script))
      ensures w == v.Framed()
    {
    }

    lemma HeaderFacts(v: View)
      requires v.Fits() && v.rpos < |v.buf|
      ensures WillMove(v.script) && v.inbox != [] ==> v.Incoming() != []
      ensures Ending(v.Event()) ==> v.Arrived() == v.buf[..v.rpos]
      ensures |v.Arrived()| == v.rpos + |v.Incoming()|
      ensures Healthy(v.script) ==> !Ending(v.Event()) && !Ending(FirstEvent(AfterFirst(v.script)))
      ensures v.HasHeader() ==> v.Framed().script == AfterFirst(v.script) && v.Framed().open == v.open
      ensures v.Completes() ==> v.Framed().rpos >= v.Framed().frameSize == v.Size()
    {
      hide FirstEvent, AfterFirst, Word, FramingSize, Healthy;
      if WillMove(v.script) && v.inbox != [] {
        v.MovingBrings();
      }
      if Healthy(v.script) {
        HealthyFirst(v.script);
        HealthyFirst(AfterFirst(v.script));
      }
    }

    /** Judged in place, whether the frame was complete before the call or not. */
    lemma AbsorbedTogether(v: View, before: seq<seq<Byte>>)
      requires v.Fits() && v.HasHeader() && v.Completes()
      requires Absorbed(v.Framed(), [], v.Size(), before)
      ensures Absorbed(v, v.Incoming(), v.Size(), before)
    {
      hide Batched, Word, FramingSize, FirstEvent, AfterFirst;
      FilledNothing(v.Framed().buf, v.Framed().rpos);
    }

    /** A readable event in the framing state. */
    method ReadNewFrame()
      requires Reading() && Open() && rstate.Framing?
      modifies this, rbuf, socket
      ensures socket == old(socket) && handler == old(handler) && beyond == old(beyond)
      ensures rbuf == old(rbuf) || fresh(rbuf)
      ensures socket.received + socket.inbox == old(socket.received) + old(socket.inbox)
      ensures Steady(socket.received, handler) ==>
        !mishap.strayed && Decode(socket.received, 0, handler).frames == delivered
      ensures WordsInRange(socket.received, handler) ==> mishap.over == old(mishap).over
      ensures destroys == 0 && !mishap.strayed ==> Reading() && Open()
      ensures destroys == 0 ==> out == old(out) && handed == old(handed) && socket.sent == old(socket.sent)
      ensures destroys > 0 ==> !socket.open && handed == old(handed) + old(out.Unsent()) && out.Unsent() == []
      ensures old(socket.received) <= socket.received
      ensures WillMove(old(socket.script)) && old(socket.inbox) != [] ==>
        old(socket.received) < socket.received
      ensures Healthy(old(socket.script)) && destroys > 0 && Steady(socket.received, handler) ==>
        !Decode(socket.received, 0, handler).status.NeedMore?
      ensures old(rbuf.Length) == FRAME_MAX_SIZE ==> (destroys > 0 <==> old(Sight().HeaderCloses()))
      ensures Ending(old(Sight()).Event()) ==> destroys > 0
      ensures old(Sight()).Event().Hangup? ==> destroys == 1
      ensures destroys <= 2
      ensures destroys == 2 <==> old(rpos) >= WORD_BYTES && old(Sight()).Event().Failure?
      ensures old(Sight().Completes()) ==>
        && socket.received == old(socket.received) + old(Sight().Incoming())
        && Absorbed(old(Sight()), old(Sight().Incoming()), old(Sight().Size()), old(delivered))
    {
      hide Decode, Accounts, Steady, WordsInRange, Word, Batched, FirstStep, LoopSize, FramingSize, Drained, Healthy,
        FirstEvent, AfterFirst, Absorbed, Settled, Brought, Filled, View.DataCloses, View.Incoming, View.Arrived,
        View.Size, View.Framed;
      ghost var v := Sight();
      HeaderFacts(v);
      var done := ReadHeader();
      if !done {
        ghost var w := Sight();
        ReceiveFrame();
        if v.Completes() {
          AbsorbedTogether(v, old(delivered));
        }
      }
    }

    /** One readable event. On a steady stream, whatever the kernel hands over and
        however it cuts it, the frames delivered are exactly those the one-shot
        decoder finds in all bytes received so far, and an open connection
        buffers exactly its undecoded tail. */
    method ReadSocket()
      requires Reading() && Open()
      modifies this, rbuf, socket
      ensures socket == old(socket) && handler == old(handler) && beyond == old(beyond)
      ensures rbuf == old(rbuf) || fresh(rbuf)
      ensures socket.received + socket.inbox == old(socket.received) + old(socket.inbox)
      ensures Steady(socket.received, handler) ==>
        !mishap.strayed && Decode(socket.received, 0, handler).frames == delivered
      ensures WordsInRange(socket.received, handler) ==> mishap.over == old(mishap).over
      ensures destroys == 0 && !mishap.strayed ==> Reading() && Open()
      ensures destroys == 0 ==> out == old(out) && handed == old(handed) && socket.sent == old(socket.sent)
      ensures destroys > 0 ==> !socket.open && handed == old(handed) + old(out.Unsent()) && out.Unsent() == []
      ensures old(socket.received) <= socket.received
      ensures WillMove(old(socket.script)) && old(socket.inbox) != [] ==>
        old(socket.received) < socket.received
      // The end of the stream and an error close it; else only a refused or oversize frame does.
      ensures Ending(old(Sight()).Event()) ==> destroys > 0
      ensures old(Sight()).Event().Hangup? ==> destroys == 1
      ensures Healthy(old(socket.script)) && destroys > 0 && Steady(socket.received, handler) ==>
        !Decode(socket.received, 0, handler).status.NeedMore?
      ensures old(rstate).Receiving? ==> (destroys > 0 <==> old(Sight().DataCloses()))
      ensures old(rstate).Framing? && old(rbuf.Length) == FRAME_MAX_SIZE ==>
        (destroys > 0 <==> old(Sight().HeaderCloses()))
      // The owner is told twice exactly when an error meets a buffered length word.
      ensures destroys <= 2
      ensures destroys == 2 <==>
        old(rstate).Framing? && old(rpos) >= WORD_BYTES && old(Sight()).Event().Failure?
      // Bytes that complete a frame are judged in place, steady stream or not.
      ensures old(rstate).Framing? && old(Sight().Completes()) ==>
        && socket.received == old(socket.received) + old(Sight().Incoming())
        && Absorbed(old(Sight()), old(Sight().Incoming()), old(Sight().Size()), old(delivered))
    {
      hide Decode, Accounts, Steady, WordsInRange, Word, Batched, FirstStep, LoopSize, FramingSize, Drained, Healthy,
        FirstEvent, AfterFirst, Absorbed;
      if Healthy(socket.script) {
        HealthyFirst(socket.script);
      }
      if rstate.Framing? {
        hide View.DataCloses;
        ReadNewFrame();
      } else {
        ReceiveFrame();
      }
    }

    /** readHandler: a readable event, ignored once the connection is destroyed,
        and by this model once the reader has strayed. The kernel answers as
        scripted. */
    method ReadHandler(script: seq<Event>, beyond: seq<Byte>)
      requires |beyond| == 4
      requires destroys == 0 && !mishap.strayed ==> Reading() && Open()
      requires Steady(socket.received, handler) ==>
        !mishap.strayed && Decode(socket.received, 0, handler).frames == delivered
      modifies this, rbuf, socket
      ensures socket == old(socket) && handler == old(handler)
      ensures rbuf == old(rbuf) || fresh(rbuf)
      ensures socket.received + socket.inbox == old(socket.received) + old(socket.inbox)
      ensures Steady(socket.received, handler) ==>
        !mishap.strayed && Decode(socket.received, 0, handler).frames == delivered
      ensures WordsInRange(socket.received, handler) ==> mishap.over == old(mishap).over
      ensures destroys == 0 && !mishap.strayed ==> Reading() && Open()
      ensures old(socket.received) <= socket.received
      ensures old(Open()) && WillMove(script) && old(socket.inbox) != [] ==> old(socket.received) < socket.received
      ensures old(Open()) && Healthy(script) && destroys > 0 && Steady(socket.received, handler) ==>
        !Decode(socket.received, 0, handler).status.NeedMore?
      ensures old(Open()) && Ending(FirstEvent(script)) ==> destroys > 0 && !socket.open
      ensures !old(Open()) && old(destroys > 0 || mishap.strayed) ==> unchanged(this) && unchanged(rbuf) && unchanged(socket)
    {
      hide Decode, Accounts, Settled, Steady, WordsInRange, Word, Batched, FirstStep, LoopSize, FramingSize, Healthy,
        FirstEvent, View.DataCloses, View.HeaderCloses;
      if destroys == 0 && !mishap.strayed {
        socket.script := script;
        this.beyond := beyond;
        assert rbuf[..rpos] == old(rbuf[..rpos]);
        ReadSocket();
      }
    }

    /** pushMessage on an online connection: arm the write event, then queue. */
    method PushMessage(msg: Outgoing)
      requires Writing() && Open()
      modifies this`out
      ensures Writing() && out.armed && out.current == old(out.current) && out.finished == old(out.finished)
      ensures out.Unsent() == old(out.Unsent()) + [msg] && out.Pushed() == old(out.Pushed()) + [msg]
    {
      out := out.(armed := true);
      out := out.(pushList := out.pushList + [msg]);
      assert out.Unsent() == old(out.Unsent()) + [msg];
    }

    /** getPushData: the next queued message becomes the current one; without
        one the write event is disarmed. */
    method NextPush()
      requires out.current == None && out.Valid(socket.sent)
      modifies this`out
      ensures out.Valid(socket.sent) && out.Unsent() == old(out.Unsent()) && out.Pos() == 0
      ensures out.finished == old(out.finished) && out.Pushed() == old(out.Pushed())
      ensures out.current == None <==> old(out.pushList) == []
      ensures if out.current == None then out.Unsent() == [] && !out.armed else out.armed == old(out).armed
    {
      if out.pushList == [] {
        out := out.(armed := false);
      } else {
        out := out.(current := Some(Push(out.pushList[0], 0)), pushList := out.pushList[1..]);
        assert out.Unsent() == old(out.Unsent());
      }
    }

    /** Offers the rest of the current frame to the kernel. */
    method SendCurrent() returns (stop: bool)
      requires Writing() && Open() && out.current.Some? && !out.current.value.msg.closeConn
      modifies this`out, this`destroys, this`handed, socket
      ensures socket.received == old(socket.received) && socket.inbox == old(socket.inbox)
      ensures destroys == if old(out).Shuts(FirstEvent(old(socket.script))) then 1 else 0
      ensures destroys == 0 ==> Writing() && Open() && out.current.Some? && handed == old(handed)
      ensures destroys == 0 ==> out.Unsent() == old(out.Unsent()) && out.finished == old(out.finished)
      ensures destroys == 0 ==> out.Pushed() == old(out.Pushed()) && out.armed == old(out.armed)
      ensures destroys == 0 ==> out.Pos() == old(out.Pos()) + |old(out.Taking(FirstEvent(socket.script)))|
      ensures destroys == 0 ==> socket.sent == old(socket.sent) + old(out.Taking(FirstEvent(socket.script)))
      ensures stop <==> destroys == 1 || old(out.Pos() < |out.Unsent()[0].bytes| && out.Taking(FirstEvent(socket.script)) == [])
      ensures destroys == 1 ==> !socket.open && handed == old(handed) + old(out.Unsent())
      ensures destroys == 1 ==> out.Unsent() == [] && !out.armed && out.finished == old(out.finished)
      ensures destroys == 1 ==> socket.sent == old(socket.sent)
    {
      hide FirstEvent, AnswerTo, Brought, WireBytes;
      var msg, wpos := out.current.value.msg, out.current.value.wpos;
      ghost var e := FirstEvent(socket.script);
      assert out.Unsent()[0] == msg;
      if wpos == |msg.bytes| {
        NothingToTake(e, msg.bytes[wpos..]);
        return false;
      }
      var left := msg.bytes[wpos..];
      AnswerBrings(e, left, |left|);
      assert left[..|left|] == left;
      var a := socket.SendSome(left);
      match a
      case Moved(bytes) =>
        out := out.(current := Some(Push(msg, wpos + |bytes|)));
        assert out.Unsent() == old(out.Unsent());
        assert msg.bytes[..wpos + |bytes|] == msg.bytes[..wpos] + bytes;
        stop := false;
      case Ended =>
        stop := true;
      case Blocked =>
        stop := true;
      case Failed =>
        Shut();
        stop := true;
    }

    /** One writable event. The bytes the kernel has taken are always the
        finished messages in push order followed by a prefix of the current
        one; nothing pushed is lost, duplicated or reordered; and a closed
        connection hands over exactly the messages not finished. */
    method WriteSocket()
      requires Writing() && Open()
      modifies this`out, this`destroys, this`handed, socket
      ensures socket.received == old(socket.received) && socket.inbox == old(socket.inbox)
      ensures destroys == 0 ==> Writing() && Open() && handed == old(handed)
      // Exactly a message that asks for it, or a failing send, shuts the connection.
      ensures destroys == if old(out).Shuts(FirstEvent(old(socket.script))) then 1 else 0
      ensures destroys == 1 ==> !socket.open && handed == old(handed) + old(out.Unsent())
      ensures destroys == 1 ==> out.Unsent() == [] && !out.armed && out.finished == old(out.finished)
      ensures destroys == 1 ==> socket.sent == old(socket.sent)
      // With nothing to write the event is disarmed and nothing else changes.
      ensures old(out.Unsent()) == [] ==>
        out.Unsent() == [] && !out.armed && out.finished == old(out.finished) && socket.sent == old(socket.sent)
      // Otherwise the kernel takes what it answers for, and a message wholly taken is
      // finished and makes room for the next.
      ensures destroys == 0 && old(out.Unsent()) != [] ==>
        && socket.sent == old(socket.sent) + old(out.Taking(FirstEvent(socket.script)))
        && (if old(out.Completes(FirstEvent(socket.script)))
            then out.finished == old(out.finished) + [old(out.Unsent())[0]] && out.Unsent() == old(out.Unsent())[1..]
            else out.finished == old(out.finished) && out.Unsent() == old(out.Unsent()))
        && out.Pos() == (if old(out.Completes(FirstEvent(socket.script))) then 0
                         else old(out.Pos()) + |old(out.Taking(FirstEvent(socket.script)))|)
      ensures destroys == 0 ==> out.Pushed() == old(out.Pushed())
      ensures out.Ready() && (out.armed <==> out.Unsent() != [])
    {
      hide FirstEvent, Brought, WireBytes;
      if out.current == None {
        NextPush();
        if out.current == None {
          return;
        }
      }
      assert out.Unsent()[0] == out.current.value.msg;
      if out.current.value.msg.closeConn {
        Shut();
        return;
      }
      var stop := SendCurrent();
      if !stop && out.current.value.wpos == |out.current.value.msg.bytes| {
        FinishCurrent();
        NextPush();
      }
    }

    /** destroyMsgData on a fully written message. */
    method FinishCurrent()
      requires Writing() && out.current.Some?
      requires out.current.value.wpos == |out.current.value.msg.bytes|
      modifies this`out
      ensures Writing() && out.current == None && out.Unsent() == old(out.Unsent())[1..]
      ensures out.finished == old(out.finished) + [old(out.Unsent())[0]] && out.armed == old(out.armed)
      ensures out.Pushed() == old(out.Pushed())
    {
      hide Output.Valid, Output.Pushed, Output.Unsent, WireBytes;
      Finishing(out, socket.sent);
      out := out.(current := None, finished := out.finished + [out.current.value.msg]);
    }
  }

  lemma Finishing(o: Output, sent: seq<Byte>)
    requires o.Valid(sent) && o.current.Some? && o.current.value.wpos == |o.current.value.msg.bytes|
    ensures var p := o.(current := None, finished := o.finished + [o.current.value.msg]);
      && p.Valid(sent) && p.Unsent() == o.Unsent()[1..] && p.Pushed() == o.Pushed()
    ensures o.Unsent() != [] && o.Unsent()[0] == o.current.value.msg
  {
    hide WireBytes;
    var msg := o.current.value.msg;
    WireBytesAppend(o.finished, msg);
    assert msg.bytes[..|msg.bytes|] == msg.bytes;
    assert o.finished + ([msg] + o.pushList) == (o.finished + [msg]) + o.pushList;
  }

  lemma {:induction false} WireBytesAppend(msgs: seq<Outgoing>, msg: Outgoing)
    ensures WireBytes(msgs + [msg]) == WireBytes(msgs) + msg.bytes
  {
    if msgs == [] {
    } else {
      assert (msgs + [msg])[1..] == msgs[1..] + [msg];
      WireBytesAppend(msgs[1..], msg);
    }
  }
}
