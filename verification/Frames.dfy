/** Frame layout and the one-shot decoder.

    A frame is a big-endian length word counting the bytes after it, the magic
    word in host (little-endian) order, and the data. */
module Frames {

  type Byte = b: int | 0 <= b < 256

  const WORD_BYTES := 4
  const FRAME_MAX_SIZE := 1024
  const MAGIC: seq<Byte> := [0x6D, 0x69, 0x6D, 0x69]

  /** ntohl on the first four bytes. */
  function Word(b: seq<Byte>): nat
    requires |b| >= WORD_BYTES
  {
    ((b[0] as int * 256 + b[1] as int) * 256 + b[2] as int) * 256 + b[3] as int
  }

  /** htonl as bytes. */
  function WordBytes(w: nat): (b: seq<Byte>)
    requires w < 0x1_0000_0000
    ensures |b| == WORD_BYTES && Word(b) == w
  {
    var x := w / 256;
    var y := x / 256;
    [y / 256, y % 256, x % 256, w % 256]
  }

  /** Frame size as the framing state computes it: an unsigned 32-bit sum. */
  function FramingSize(w: nat): nat
  {
    (w + 4) % 0x1_0000_0000
  }

  /** Frame size as the loop over several buffered frames computes it: the sum
      stored into a signed 32-bit int. */
  function LoopSize(w: nat): int
  {
    var u := (w + 4) % 0x1_0000_0000;
    if u < 0x8000_0000 then u else u - 0x1_0000_0000
  }

  /** The two computations give the frame's true size exactly below 2^31 - 4; the
      framing state's limit is still the decoder's below 2^32 - 4. */
  lemma SizesExactBelowLimit(w: nat)
    requires w < 0x1_0000_0000
    ensures FramingSize(w) == LoopSize(w) == w + 4 <==> w < 0x7FFF_FFFC
    ensures (FramingSize(w) > FRAME_MAX_SIZE <==> w + 4 > FRAME_MAX_SIZE) <==> w < 0xFFFF_FFFC
  {
  }

  function Frame(data: seq<Byte>): (f: seq<Byte>)
    requires |data| + 4 < 0x1_0000_0000
  {
    WordBytes(|data| + 4) + MAGIC + data
  }

  function Concat(frames: seq<seq<Byte>>): seq<Byte>
  {
    if frames == [] then [] else frames[0] + Concat(frames[1..])
  }

  lemma ConcatCons(f: seq<Byte>, fs: seq<seq<Byte>>, rest: seq<Byte>)
    ensures Concat([f] + fs) + rest == f + (Concat(fs) + rest)
  {
    assert ([f] + fs)[1..] == fs;
  }

  lemma {:induction false} ConcatAppend(a: seq<seq<Byte>>, b: seq<seq<Byte>>)
    ensures Concat(a + b) == Concat(a) + Concat(b)
  {
    if a == [] {
      assert a + b == b;
    } else {
      assert (a + b)[1..] == a[1..] + b;
      ConcatAppend(a[1..], b);
    }
  }

  /** How the frame handler answers its calls on one connection: `refused` lists
      the calls it refuses whatever the frame, because a rate limit is reached. */
  datatype Handler = Handler(refused: set<nat>)

  /** A frame is acceptable when it holds the magic word. */
  predicate Accepts(handler: Handler, k: nat, frame: seq<Byte>)
  {
    k !in handler.refused && |frame| >= 8 && frame[4..8] == MAGIC
  }

  datatype Status = NeedMore | Oversize(word: nat) | Rejected

  datatype Decoded = Decoded(frames: seq<seq<Byte>>, rest: seq<Byte>, status: Status)

  function Prepend(frames: seq<seq<Byte>>, d: Decoded): Decoded
  {
    d.(frames := frames + d.frames)
  }

  /** What the front of a stream allows: take a frame of `n` bytes, or stop. */
  datatype Step = Take(n: nat) | Stop(status: Status)

  function FirstStep(s: seq<Byte>, k: nat, handler: Handler): (step: Step)
    ensures step.Take? ==> 4 <= step.n <= |s| && step.n <= FRAME_MAX_SIZE && step.n == Word(s) + 4
  {
    if |s| < WORD_BYTES then Stop(NeedMore)
    else if Word(s) + 4 > FRAME_MAX_SIZE then Stop(Oversize(Word(s)))
    else if |s| < Word(s) + 4 then Stop(NeedMore)
    else if Accepts(handler, k, s[..Word(s) + 4]) then Take(Word(s) + 4)
    else Stop(Rejected)
  }

  /** The reference decoder: sees the whole stream at once. `k` frames were
      accepted before it. */
  function Decode(s: seq<Byte>, k: nat, handler: Handler): (d: Decoded)
    decreases |s|
  {
    match FirstStep(s, k, handler)
    case Stop(status) => Decoded([], s, status)
    case Take(n) => Prepend([s[..n]], Decode(s[n..], k + 1, handler))
  }

  lemma DecodeNothing(handler: Handler)
    ensures Decode([], 0, handler).frames == []
  {
  }

  predicate IsFrame(f: seq<Byte>)
  {
    4 <= |f| <= FRAME_MAX_SIZE && Word(f) == |f| - 4
  }

  lemma WordOfPrefix(s: seq<Byte>, n: nat)
    requires WORD_BYTES <= n <= |s|
    ensures Word(s[..n]) == Word(s)
  {
  }

  /** The decoder loses, reorders and invents nothing: the frames and the tail
      are the stream, and each frame is exactly as long as its word says. */
  lemma {:induction false} DecodeCuts(s: seq<Byte>, k: nat, handler: Handler)
    ensures Concat(Decode(s, k, handler).frames) + Decode(s, k, handler).rest == s
    ensures forall f :: f in Decode(s, k, handler).frames ==> IsFrame(f)
    decreases |s|
  {
    hide Decode, Concat, Word, FirstStep;
    DecodeUnfolds(s, k, handler);
    match FirstStep(s, k, handler)
    case Stop(_) =>
      ConcatNone(s);
    case Take(n) =>
      var e := Decode(s[n..], k + 1, handler);
      DecodeCuts(s[n..], k + 1, handler);
      WordOfPrefix(s, n);
      ConcatCons(s[..n], e.frames, e.rest);
      assert s[..n] + s[n..] == s;
  }

  /** What the decoder took and where it stopped: every frame taken holds the magic
      word and was not refused; behind them is an incomplete frame, a length word
      that is too large, or a frame that lacks the magic word or is refused. */
  lemma {:induction false} DecodeExactly(s: seq<Byte>, k: nat, handler: Handler)
    ensures var d := Decode(s, k, handler);
      && (forall i :: 0 <= i < |d.frames| ==>
            |d.frames[i]| >= 8 && d.frames[i][4..8] == MAGIC && k + i !in handler.refused)
      && StopsAt(d.rest, k + |d.frames|, d.status, handler)
    decreases |s|
  {
    hide Decode, Word, FirstStep, StopsAt;
    DecodeUnfolds(s, k, handler);
    FirstStepExactly(s, k, handler);
    if FirstStep(s, k, handler).Take? {
      var n := FirstStep(s, k, handler).n;
      var e := Decode(s[n..], k + 1, handler);
      DecodeExactly(s[n..], k + 1, handler);
      var d := Decode(s, k, handler);
      assert d.frames == [s[..n]] + e.frames;
      assert forall i :: 0 < i < |d.frames| ==> d.frames[i] == e.frames[i - 1];
    }
  }

  lemma FirstStepExactly(s: seq<Byte>, k: nat, handler: Handler)
    ensures match FirstStep(s, k, handler)
      case Stop(status) => StopsAt(s, k, status, handler)
      case Take(n) => 8 <= n <= |s| && s[..n][4..8] == MAGIC && k !in handler.refused
  {
    hide Word;
    if 8 <= |s| && 4 <= Word(s) && Word(s) + 4 <= |s| {
      assert s[..Word(s) + 4][4..8] == s[4..8];
    }
  }

  ghost predicate StopsAt(rest: seq<Byte>, k: nat, status: Status, handler: Handler)
  {
    match status
    case NeedMore => |rest| < WORD_BYTES || (|rest| < Word(rest) + 4 <= FRAME_MAX_SIZE)
    case Oversize(w) => |rest| >= WORD_BYTES && w == Word(rest) && w + 4 > FRAME_MAX_SIZE
    case Rejected =>
      && |rest| >= WORD_BYTES && Word(rest) + 4 <= |rest| && Word(rest) + 4 <= FRAME_MAX_SIZE
      && (k in handler.refused || Word(rest) < 4 || rest[4..8] != MAGIC)
  }

  lemma ConcatNone(s: seq<Byte>)
    ensures Concat([]) + s == s
  {
  }

  lemma DecodeUnfolds(s: seq<Byte>, k: nat, handler: Handler)
    ensures match FirstStep(s, k, handler)
      case Stop(status) => Decode(s, k, handler) == Decoded([], s, status)
      case Take(n) => Decode(s, k, handler) == Prepend([s[..n]], Decode(s[n..], k + 1, handler))
  {
  }

  function Resume(d: Decoded, t: seq<Byte>, k: nat, handler: Handler): Decoded
  {
    if d.status.NeedMore?
    then Prepend(d.frames, Decode(d.rest + t, k + |d.frames|, handler))
    else d.(rest := d.rest + t)
  }

  lemma PrependNone(d: Decoded)
    ensures Prepend([], d) == d
  {
    assert [] + d.frames == d.frames;
  }

  lemma PrependTwice(a: seq<seq<Byte>>, b: seq<seq<Byte>>, d: Decoded)
    ensures Prepend(a, Prepend(b, d)) == Prepend(a + b, d)
  {
    assert a + (b + d.frames) == a + b + d.frames;
  }

  /** More bytes never change a decision the decoder could already take. */
  lemma FirstStepStable(s: seq<Byte>, t: seq<Byte>, k: nat, handler: Handler)
    requires FirstStep(s, k, handler) != Stop(NeedMore)
    ensures FirstStep(s + t, k, handler) == FirstStep(s, k, handler)
  {
    assert (s + t)[..4] == s[..4];
    WordOfPrefix(s, 4);
    WordOfPrefix(s + t, 4);
    if Word(s) + 4 <= |s| {
      assert (s + t)[..Word(s) + 4] == s[..Word(s) + 4];
    }
  }

  lemma ResumeAfterFrames(fs: seq<seq<Byte>>, d: Decoded, t: seq<Byte>, k: nat, handler: Handler)
    ensures Resume(Prepend(fs, d), t, k, handler) == Prepend(fs, Resume(d, t, k + |fs|, handler))
  {
    if d.status.NeedMore? {
      PrependTwice(fs, d.frames, Decode(d.rest + t, k + |fs| + |d.frames|, handler));
    }
  }

  lemma DecodeTake(s: seq<Byte>, t: seq<Byte>, n: nat, k: nat, handler: Handler)
    requires FirstStep(s + t, k, handler) == Take(n) && n <= |s|
    ensures Decode(s + t, k, handler) == Prepend([s[..n]], Decode(s[n..] + t, k + 1, handler))
  {
    assert (s + t)[..n] == s[..n];
    assert (s + t)[n..] == s[n..] + t;
  }

  /** Decoding can stop after any prefix that needs more bytes and resume from
      the undecoded tail; once the decoder has stopped, later bytes change
      nothing. */
  lemma {:induction false} DecodeResumes(s: seq<Byte>, t: seq<Byte>, k: nat, handler: Handler)
    ensures Decode(s + t, k, handler) == Resume(Decode(s, k, handler), t, k, handler)
    decreases |s|
  {
    if FirstStep(s, k, handler) == Stop(NeedMore) {
      PrependNone(Decode(s + t, k, handler));
    } else {
      FirstStepStable(s, t, k, handler);
      if FirstStep(s, k, handler).Take? {
        var n := FirstStep(s, k, handler).n;
        DecodeTake(s, t, n, k, handler);
        DecodeResumes(s[n..], t, k + 1, handler);
        ResumeAfterFrames([s[..n]], Decode(s[n..], k + 1, handler), t, k, handler);
      }
    }
  }

  /** The decoder stops at a tail that gives it the reason. */
  lemma {:induction false} DecodeStopped(s: seq<Byte>, k: nat, handler: Handler)
    ensures var d := Decode(s, k, handler);
      FirstStep(d.rest, k + |d.frames|, handler) == Stop(d.status)
    decreases |s|
  {
    hide Word, FirstStep;
    if FirstStep(s, k, handler).Take? {
      DecodeStopped(s[FirstStep(s, k, handler).n..], k + 1, handler);
    }
  }

  function FrameAll(datas: seq<seq<Byte>>): (fs: seq<seq<Byte>>)
    requires forall d :: d in datas ==> |d| <= FRAME_MAX_SIZE - 8
    ensures |fs| == |datas|
    ensures forall i :: 0 <= i < |fs| ==> fs[i] == Frame(datas[i])
  {
    if datas == [] then [] else [Frame(datas[0])] + FrameAll(datas[1..])
  }

  /** A partly arrived frame announces its own size. */
  lemma FramePrefix(data: seq<Byte>, tail: seq<Byte>, p: seq<Byte>, k: nat, handler: Handler)
    requires |data| <= FRAME_MAX_SIZE - 8
    requires p <= Frame(data) + tail
    ensures var step := FirstStep(p, k, handler);
      if |p| < |Frame(data)| then step == Stop(NeedMore)
      else && p[..|data| + 8] == Frame(data)
           && p[|data| + 8..] <= tail
           && step == if k !in handler.refused then Take(|data| + 8) else Stop(Rejected)
  {
    var f := Frame(data);
    if |p| >= WORD_BYTES {
      assert p[..4] == WordBytes(|data| + 4);
      WordOfPrefix(p, 4);
      if |p| >= |f| {
        assert p[..|f|] == f && f[4..8] == MAGIC;
        assert p[|f|..] == (f + tail)[|f|..|p|] == tail[..|p| - |f|];
      }
    }
  }

  /** Whatever prefix of a framed stream has arrived, decoding it yields the
      leading frames intact, and all of them once the stream is complete and
      none was rejected. */
  lemma {:induction false} DecodeFramed(
      datas: seq<seq<Byte>>, p: seq<Byte>, k: nat, handler: Handler)
    requires forall d :: d in datas ==> |d| <= FRAME_MAX_SIZE - 8
    requires p <= Concat(FrameAll(datas))
    ensures Decode(p, k, handler).frames <= FrameAll(datas)
    ensures !Decode(p, k, handler).status.Oversize?
    ensures Decode(p, k, handler).status.Rejected? ==> k + |Decode(p, k, handler).frames| in handler.refused
    ensures p == Concat(FrameAll(datas)) && !Decode(p, k, handler).status.Rejected? ==>
      Decode(p, k, handler).frames == FrameAll(datas) && Decode(p, k, handler).rest == []
    decreases |datas|
  {
    hide Decode, Word, FirstStep, Frame, Concat, FrameAll;
    DecodeUnfolds(p, k, handler);
    if datas == [] {
      FramedNone();
      NothingNeedsMore(p, k, handler);
    } else {
      var data, more := datas[0], datas[1..];
      var n := |data| + 8;
      FramedCons(datas);
      FramePrefix(data, Concat(FrameAll(more)), p, k, handler);
      if FirstStep(p, k, handler).Take? {
        DecodeFramed(more, p[n..], k + 1, handler);
        assert p == Frame(data) + p[n..];
      }
    }
  }

  lemma FramedNone()
    ensures FrameAll([]) == [] && Concat([]) == []
  {
  }

  lemma FramedCons(datas: seq<seq<Byte>>)
    requires datas != [] && forall d :: d in datas ==> |d| <= FRAME_MAX_SIZE - 8
    ensures FrameAll(datas) == [Frame(datas[0])] + FrameAll(datas[1..])
    ensures Concat(FrameAll(datas)) == Frame(datas[0]) + Concat(FrameAll(datas[1..]))
    ensures |Frame(datas[0])| == |datas[0]| + 8
  {
  }

  lemma NothingNeedsMore(s: seq<Byte>, k: nat, handler: Handler)
    requires s == []
    ensures FirstStep(s, k, handler) == Stop(NeedMore)
  {
  }
}
