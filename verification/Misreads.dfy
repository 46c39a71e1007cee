/** Streams the reader does not read as the one-shot decoder does, and a failure
    it reports twice. */
module Misreads {
  import opened Common
  import opened Frames
  import opened Buffers
  import opened Sockets
  import opened Connection
  import opened Session

  /** One event that brings in exactly `n` bytes, which complete a frame. */
  method ReadExactly(c: IoConnection, n: nat)
    requires c.Reading() && c.Open() && c.rstate.Framing? && c.rpos == 0
    requires WORD_BYTES <= n <= |c.socket.inbox| && n <= c.rbuf.Length
    requires FramingSize(Word(c.socket.inbox[..n])) <= n
    modifies c, c.rbuf, c.socket
    ensures c.socket.received + c.socket.inbox == old(c.socket.received) + old(c.socket.inbox)
    ensures c.socket == old(c.socket) && c.handler == old(c.handler)
    ensures c.rbuf == old(c.rbuf) || fresh(c.rbuf)
    ensures c.beyond == old(c.beyond) && c.socket.inbox == old(c.socket.inbox)[n..]
    ensures c.socket.received == old(c.socket.received) + old(c.socket.inbox)[..n]
    ensures var mem := Filled(old(c.Memory()), 0, old(c.socket.inbox)[..n]);
      var b := Batched(mem, n, 0, |old(c.delivered)|, c.handler);
      c.Drained(b, mem, n, old(c.delivered)) && c.destroys == if b.end.Closed? then 1 else 0
    ensures c.destroys == 0 && !c.mishap.strayed ==> c.Reading() && c.Open()
  {
    hide Decode, Accounts, Settled, Steady, WordsInRange, Word, Batched, FirstStep, LoopSize, FramingSize,
      View.DataCloses, View.HeaderCloses, IoConnection.Drained;
    c.socket.script := [Move(n)];
    ghost var v := c.Sight();
    assert v.Incoming() == c.socket.inbox[..n] && v.Arrived() == c.socket.inbox[..n];
    assert c.rbuf[..c.rpos] == [];
    FilledBeyond(c.rbuf[..], c.beyond, 0, v.Incoming());
    c.ReadSocket();
    RestOfInbox(old(c.socket.received), v.inbox, v.Incoming(), c.socket.received, c.socket.inbox);
  }

  // ---- Short frames ----

  /** A frame arriving alone where the magic word already stands is delivered if
      its own bytes do not contradict it, however short it is. */
  lemma TakenAlone(mem: seq<Byte>, n: nat, k: nat, handler: Handler)
    requires 4 <= n <= FRAME_MAX_SIZE && n + 4 <= |mem| && |mem| >= 12
    requires Word(mem[..n]) == n - 4 && mem[4..8] == MAGIC && k !in handler.refused
    ensures Batched(mem, n, 0, k, handler) == Batch([mem[..n]], Kept(n), false)
  {
    assert mem[0..n] == mem[..n];
    BatchedOne(mem, n, k, handler);
  }

  /** Words whose size wraps around to 0..3. */
  lemma WrappedAlone(mem: seq<Byte>, k: nat, handler: Handler)
    requires |mem| >= 12 && Word(mem[..4]) >= 0xFFFF_FFFC && mem[4..8] == MAGIC && k !in handler.refused
    ensures var b := Batched(mem, 4, 0, k, handler);
      b.end.Lost? || |b.frames| == 1
  {
    assert mem[0..4] == mem[..4];
  }

  ghost predicate Idle(c: IoConnection)
    reads c, c.rbuf, c.socket
  {
    && c.Reading() && c.Open() && c.rstate.Framing? && c.rpos == 0
    && c.rbuf.Length == FRAME_MAX_SIZE && c.rbuf[4..8] == MAGIC
  }

  /** Reads one acceptable frame alone; the magic word stays in place. */
  method ReadAlone(c: IoConnection, n: nat)
    requires Idle(c) && FirstStep(c.socket.inbox, |c.delivered|, c.handler) == Take(n)
    modifies c, c.rbuf, c.socket
    ensures c.socket.received + c.socket.inbox == old(c.socket.received) + old(c.socket.inbox)
    ensures c.socket == old(c.socket) && c.handler == old(c.handler)
    ensures c.rbuf == old(c.rbuf) || fresh(c.rbuf)
    ensures c.socket.inbox == old(c.socket.inbox)[n..]
    ensures c.delivered == old(c.delivered) + [old(c.socket.inbox)[..n]]
    ensures Idle(c)
  {
    hide Decode, Accounts, Settled, Steady, WordsInRange, Batched;
    ghost var k := |c.delivered|;
    ghost var frame := c.socket.inbox[..n];
    ghost var mem := Filled(c.Memory(), 0, frame);
    assert mem[..n] == frame && frame[4..8] == mem[4..8];
    WordOfPrefix(c.socket.inbox, n);
    TakenAlone(mem, n, k, c.handler);
    ReadExactly(c, n);
  }

  /** The decoder stops at a frame too short to hold the magic word whose bytes do
      not contradict it, or at a word whose size wraps around; and the handler
      would not refuse the call anyway. */
  ghost predicate Wavers(stream: seq<Byte>, handler: Handler)
  {
    var d := Decode(stream, 0, handler);
    && !Steady(stream, handler)
    && (Word(d.rest) < 4 || Word(d.rest) >= 0xFFFF_FFFC)
  }

  lemma WavingRest(stream: seq<Byte>, handler: Handler)
    requires Wavers(stream, handler)
    ensures var d := Decode(stream, 0, handler);
      && |d.rest| >= WORD_BYTES && |d.frames| !in handler.refused && FirstStep(d.rest, |d.frames|, handler).Stop?
      && (Word(d.rest) < 4 || Word(d.rest) >= 0xFFFF_FFFC)
      && (Word(d.rest) < 4 ==> Word(d.rest) + 4 <= |d.rest| && d.rest[4..Word(d.rest) + 4] <= MAGIC)
  {
    hide Decode;
    DecodeStopped(stream, 0, handler);
  }

  /** Delivers, one by one, the frames the decoder finds. */
  method ReadAllAlone(c: IoConnection, ghost stream: seq<Byte>)
    requires Idle(c) && c.delivered == [] && c.socket.inbox == stream
    modifies c, c.rbuf, c.socket
    ensures c.socket.received + c.socket.inbox == old(c.socket.received) + old(c.socket.inbox)
    ensures c.socket == old(c.socket) && c.handler == old(c.handler) && Idle(c)
    ensures c.rbuf == old(c.rbuf) || fresh(c.rbuf)
    ensures c.delivered == Decode(stream, 0, c.handler).frames
    ensures c.socket.inbox == Decode(stream, 0, c.handler).rest
  {
    hide Decode, Word, FirstStep, Idle;
    PrependNone(Decode(stream, 0, c.handler));
    DecodeUnfolds(c.socket.inbox, |c.delivered|, c.handler);
    while FirstStep(c.socket.inbox, |c.delivered|, c.handler).Take?
      invariant c.socket.received + c.socket.inbox == old(c.socket.received) + old(c.socket.inbox)
      invariant c.socket == old(c.socket) && c.handler == old(c.handler) && Idle(c)
      invariant c.rbuf == old(c.rbuf) || fresh(c.rbuf)
      invariant Prepend(c.delivered, Decode(c.socket.inbox, |c.delivered|, c.handler)) == Decode(stream, 0, c.handler)
      decreases |c.socket.inbox|
    {
      var n := FirstStep(c.socket.inbox, |c.delivered|, c.handler).n;
      ghost var k, inbox := |c.delivered|, c.socket.inbox;
      TakeSize(inbox, k, c.handler);
      DecodeUnfolds(inbox, k, c.handler);
      PrependTwice(c.delivered, [inbox[..n]], Decode(inbox[n..], k + 1, c.handler));
      ReadAlone(c, n);
    }
    DecodeUnfolds(c.socket.inbox, |c.delivered|, c.handler);
    assert c.delivered + [] == c.delivered;
  }

  lemma TakeSize(s: seq<Byte>, k: nat, handler: Handler)
    requires FirstStep(s, k, handler).Take?
    ensures 0 < FirstStep(s, k, handler).n <= |s|
  {
  }

  /** One event after `ReadAllAlone`: the reader delivers one frame more than the
      decoder, or strays. */
  method ReadOneMore(c: IoConnection)
    requires Idle(c) && |c.socket.inbox| >= WORD_BYTES && |c.delivered| !in c.handler.refused
    requires Word(c.socket.inbox) < 4 || Word(c.socket.inbox) >= 0xFFFF_FFFC
    requires var w := Word(c.socket.inbox);
      w < 4 ==> w + 4 <= |c.socket.inbox| && c.socket.inbox[4..w + 4] <= MAGIC
    modifies c, c.rbuf, c.socket
    ensures c.socket.received + c.socket.inbox == old(c.socket.received) + old(c.socket.inbox)
    ensures c.socket == old(c.socket) && c.handler == old(c.handler)
    ensures c.mishap.strayed || |c.delivered| == |old(c.delivered)| + 1
  {
    hide Decode, Accounts, Settled, Steady, WordsInRange, Batched;
    var n := if Word(c.socket.inbox) < 4 then Word(c.socket.inbox) + 4 else 4;
    WordOfPrefix(c.socket.inbox, n);
    ghost var bytes := c.socket.inbox[..n];
    ghost var mem := Filled(c.Memory(), 0, bytes);
    ghost var k := |c.delivered|;
    assert mem[..n] == bytes && mem[..4] == bytes[..4];
    WordOfPrefix(bytes, 4);
    assert forall i :: 4 <= i < 8 ==> mem[i] == MAGIC[i - 4] by {
      assert c.rbuf[4..8] == MAGIC;
    }
    assert mem[4..8] == MAGIC;
    if n > 4 || Word(c.socket.inbox) < 4 {
      TakenAlone(mem, n, k, c.handler);
    } else {
      WrappedAlone(mem, k, c.handler);
    }
    ReadExactly(c, n);
  }

  /** For every such stream there is memory and a way of cutting it for which the
      reader delivers a frame the decoder refuses, or strays. With
      `Session.ReadStream`, this is exactly when the reader reads such a stream as
      the decoder does. */
  method Misread(stream: seq<Byte>, handler: Handler) returns (c: IoConnection)
    requires Wavers(stream, handler)
    ensures fresh(c) && c.handler == handler && c.socket.received <= stream
    ensures c.mishap.strayed || |c.delivered| == |Decode(stream, 0, handler).frames| + 1
  {
    hide Decode, Accounts, Settled, Steady, WordsInRange, Batched, FirstStep, Word, Wavers;
    var memory := seq(FRAME_MAX_SIZE, i => if 4 <= i < 8 then MAGIC[i - 4] else 0);
    c := Fresh(memory, handler, stream);
    assert c.rbuf[4..8] == c.rbuf[..][4..8] == MAGIC;
    ReadAllAlone(c, stream);
    WavingRest(stream, handler);
    ReadOneMore(c);
    assert c.socket.received + c.socket.inbox == [] + stream == stream;
  }

  // ---- Concrete runs ----

  const EMPTY: seq<Byte> := [0, 0, 0, 4] + MAGIC
  const SHORT: seq<Byte> := [0, 0, 0, 0]
  const OTHER: seq<Byte> := [1, 2, 3, 4]

  /** A buffer filled with one empty frame and a length word more. */
  lemma TwoWords(mem: seq<Byte>, rpos: nat, handler: Handler)
    requires handler.refused == {} && 12 <= rpos <= FRAME_MAX_SIZE && rpos + 4 <= |mem| && mem[..8] == EMPTY
    ensures var size := LoopSize(Word(mem[8..12]));
      var b := Batched(mem, rpos, 0, 0, handler);
      if rpos - 8 < size then b == Batch([EMPTY], Kept(8), false)
      else mem[12..16] != MAGIC ==> b.frames == [EMPTY] && b.end == Closed
    ensures var size := LoopSize(Word(mem[8..12]));
      size <= 0 && mem[12..16] == MAGIC ==> Batched(mem, rpos, 0, 0, handler).end == Lost
  {
    hide Batched;
    assert mem[0..rpos][..4] == mem[..8][..4] == [0, 0, 0, 4];
    WordOfPrefix(mem[0..rpos], 4);
    assert mem[4..8] == mem[..8][4..8] == MAGIC && mem[0 + 4..0 + 8] == mem[4..8];
    BatchedTurn(mem, rpos, 0, 0, handler);
    assert mem[0..8] == EMPTY;
    assert mem[8..rpos][..4] == mem[8..12];
    WordOfPrefix(mem[8..rpos], 4);
    assert mem[8 + 4..8 + 8] == mem[12..16];
    BatchedTurn(mem, rpos, 8, 1, handler);
  }

  /** The empty frame read alone. */
  method ReadFirst(c: IoConnection, stream: seq<Byte>)
    requires c.Reading() && c.Open() && c.rstate.Framing? && c.rpos == 0 && c.rbuf.Length == FRAME_MAX_SIZE
    requires c.delivered == [] && c.handler.refused == {}
    requires c.socket.received == [] && c.socket.inbox == stream && EMPTY <= stream
    modifies c, c.rbuf, c.socket
    ensures c.socket == old(c.socket) && c.handler == old(c.handler) && Idle(c)
    ensures c.rbuf == old(c.rbuf) || fresh(c.rbuf)
    ensures c.delivered == [EMPTY] && c.socket.received == EMPTY && c.socket.inbox == stream[8..]
  {
    hide Decode, Accounts, Settled, Steady, WordsInRange, Batched, FirstStep;
    assert stream[..8] == EMPTY;
    ghost var mem := Filled(c.Memory(), 0, EMPTY);
    assert mem[..8] == EMPTY && mem[4..8] == EMPTY[4..8] == MAGIC;
    TakenAlone(mem, 8, 0, c.handler);
    ReadExactly(c, 8);
  }

  /** One event that brings in the empty frame and eight bytes more. */
  method ReadSixteen(memory: seq<Byte>, handler: Handler, word: seq<Byte>, next: seq<Byte>)
    returns (c: IoConnection)
    requires |memory| == FRAME_MAX_SIZE && handler.refused == {} && |word| == |next| == 4
    requires LoopSize(Word(word)) <= 8
    ensures fresh(c) && fresh(c.rbuf) && fresh(c.socket)
    ensures c.socket.received == EMPTY + word + next
    ensures next != MAGIC ==> c.delivered == [EMPTY] && c.destroys == 1
    ensures LoopSize(Word(word)) <= 0 && next == MAGIC ==> c.mishap.strayed
  {
    hide Decode, Accounts, Settled, Steady, WordsInRange, Batched, FirstStep, LoopSize;
    var stream := EMPTY + word + next;
    c := Fresh(memory, handler, stream);
    assert stream[..16] == stream && stream[..16][..4] == [0, 0, 0, 4];
    WordOfPrefix(stream[..16], 4);
    ghost var mem := Filled(c.Memory(), 0, stream);
    assert mem[..8] == EMPTY && mem[8..12] == word && mem[12..16] == next;
    TwoWords(mem, 16, handler);
    ReadExactly(c, 16);
  }

  /** The empty frame and then a short one, each read alone. */
  method ReadShortAlone(memory: seq<Byte>, handler: Handler, stream: seq<Byte>) returns (c: IoConnection)
    requires |memory| == FRAME_MAX_SIZE && handler.refused == {} && EMPTY + SHORT <= stream
    ensures fresh(c) && c.socket.received == EMPTY + SHORT && c.delivered == [EMPTY, SHORT]
  {
    hide Decode, Accounts, Settled, Steady, WordsInRange, Batched, FirstStep, Word, LoopSize, FramingSize;
    c := Fresh(memory, handler, stream);
    assert stream[..8] == EMPTY && stream[8..12] == SHORT;
    ReadFirst(c, stream);
    assert c.socket.inbox[..4] == SHORT;
    ReadShort(c);
  }

  /** The short frame read alone where the magic word still stands. */
  method ReadShort(c: IoConnection)
    requires Idle(c) && c.handler.refused == {} && SHORT <= c.socket.inbox
    modifies c, c.rbuf, c.socket
    ensures c.socket == old(c.socket) && c.socket.received == old(c.socket.received) + SHORT
    ensures c.delivered == old(c.delivered) + [SHORT]
  {
    hide Decode, Accounts, Settled, Steady, WordsInRange, Batched, FirstStep;
    assert c.socket.inbox[..4] == SHORT;
    ghost var mem := Filled(c.Memory(), 0, SHORT);
    assert mem[..4] == SHORT && forall i :: 4 <= i < 8 ==> mem[i] == c.rbuf[i];
    assert mem[4..8] == c.rbuf[4..8];
    TakenAlone(mem, 4, |c.delivered|, c.handler);
    ReadExactly(c, 4);
  }

  /** The same stream, read in one piece and cut behind each of its two frames:
      the short frame is refused in the one run and delivered in the other. */
  method ShortFrameDependsOnCut(memory: seq<Byte>, handler: Handler) returns (whole: IoConnection, cut: IoConnection)
    requires |memory| == FRAME_MAX_SIZE && handler.refused == {}
    ensures whole.socket.received == EMPTY + SHORT + OTHER && whole.delivered == [EMPTY]
    ensures cut.socket.received == EMPTY + SHORT && cut.delivered == [EMPTY, SHORT]
  {
    hide Decode;
    whole := ReadSixteen(memory, handler, SHORT, OTHER);
    cut := ReadShortAlone(memory, handler, EMPTY + SHORT + OTHER);
  }

  const HUGE: seq<Byte> := [0x7F, 0xFF, 0xFF, 0xFC]

  /** The least word out of range strays in one piece; the decoder, and the framing
      state that meets it first, take it for oversize. */
  method HugeWordStrays(memory: seq<Byte>, handler: Handler) returns (c: IoConnection)
    requires |memory| == FRAME_MAX_SIZE && handler.refused == {}
    ensures c.socket.received == EMPTY + HUGE + MAGIC && c.mishap.strayed
    ensures FramingSize(Word(HUGE)) > FRAME_MAX_SIZE && FirstStep(HUGE, 1, handler) == Stop(Oversize(Word(HUGE)))
  {
    hide Decode;
    c := ReadSixteen(memory, handler, HUGE, MAGIC);
  }

  /** One event that leaves a length word in the buffer. */
  method LeaveWord(memory: seq<Byte>, handler: Handler) returns (c: IoConnection)
    requires |memory| == FRAME_MAX_SIZE && handler.refused == {}
    ensures fresh(c) && fresh(c.rbuf) && fresh(c.socket) && c.Reading() && c.Open()
    ensures c.rstate.Framing? && c.rpos == 4
    ensures c.socket.received == EMPTY + [0, 0, 0, 4] && c.socket.inbox == []
  {
    hide Decode, Accounts, Settled, Steady, WordsInRange, Batched, FirstStep, Word, LoopSize, FramingSize;
    var word := [0, 0, 0, 4];
    var stream := EMPTY + word;
    EightBytes(word);
    c := Fresh(memory, handler, stream);
    assert stream[..12] == stream && stream[..12][..4] == word;
    WordOfPrefix(stream[..12], 4);
    ghost var mem := Filled(c.Memory(), 0, stream);
    assert mem[..8] == EMPTY && mem[8..12] == word;
    TwoWords(mem, 12, handler);
    ReadExactly(c, 12);
  }

  lemma EightBytes(word: seq<Byte>)
    requires word == [0, 0, 0, 4]
    ensures Word(word) == 4 && LoopSize(4) == FramingSize(4) == 8
  {
  }

  /** A new connection whose owner is told twice that it is destroyed: the first
      event leaves a length word in the buffer, the second is an error. */
  method DestroyedTwice(memory: seq<Byte>, handler: Handler) returns (c: IoConnection)
    requires |memory| == FRAME_MAX_SIZE && handler.refused == {}
    ensures c.socket.received == EMPTY + [0, 0, 0, 4] && c.destroys == 2
  {
    hide Decode, Accounts, Settled, Steady, WordsInRange, Batched, FirstStep, Word, LoopSize, FramingSize;
    c := LeaveWord(memory, handler);
    c.socket.script := [Failure];
    c.ReadSocket();
  }
}
