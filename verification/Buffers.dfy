/** The loop over the frames of a full buffer, on values: what the frame handler
    is shown, how it answers, and when that is what the one-shot decoder says. */
module Buffers {
  import opened Frames

  // ---- One call of the frame handler ----

  /** The handler delivers the frame, refuses it, or is led outside what a frame
      can be: a size that is not positive, for which it copies without bound or
      does not advance. */
  datatype Verdict = Delivered | Refused | Strayed

  /** The handler tests the four bytes behind the length word for the magic word,
      whether or not they belong to the frame. */
  function Judge(window: seq<Byte>, size: int, k: nat, handler: Handler): Verdict
  {
    if window != MAGIC || k in handler.refused then Refused
    else if size <= 0 then Strayed
    else Delivered
  }

  /** The bytes tested are those of `buf`, as far as it reaches. */
  ghost predicate Shows(window: seq<Byte>, buf: seq<Byte>)
  {
    |window| == 4 && forall i :: 4 <= i < 8 && i < |buf| ==> window[i - 4] == buf[i]
  }

  function Seen(buf: seq<Byte>): seq<Byte>
    requires |buf| >= WORD_BYTES
  {
    if |buf| < 8 then buf[4..] else buf[4..8]
  }

  /** The verdict is the decoder's. */
  ghost predicate Agrees(verdict: Verdict, step: Step)
  {
    match verdict
    case Delivered => step.Take?
    case Refused => step.Stop? && !step.status.NeedMore?
    case Strayed => false
  }

  /** The word is one of a whole frame with room for the magic word. */
  predicate Ordinary(w: nat)
  {
    4 <= w < 0x7FFF_FFFC
  }

  lemma OrdinarySize(w: nat)
    requires Ordinary(w)
    ensures FramingSize(w) == LoopSize(w) == w + 4
  {
  }

  lemma OtherSize(w: nat)
    requires w < 0x1_0000_0000 && !Ordinary(w)
    ensures LoopSize(w) < 8
    ensures w >= 4 ==> LoopSize(w) < 4
  {
  }

  /** A complete ordinary frame is judged by its own bytes. */
  lemma JudgeOrdinary(window: seq<Byte>, buf: seq<Byte>, k: nat, handler: Handler)
    requires WORD_BYTES <= |buf| <= FRAME_MAX_SIZE && Shows(window, buf)
    requires Ordinary(Word(buf)) && LoopSize(Word(buf)) <= |buf|
    ensures Agrees(Judge(window, LoopSize(Word(buf)), k, handler), FirstStep(buf, k, handler))
  {
    var size := Word(buf) + 4;
    OrdinarySize(Word(buf));
    assert window == buf[4..8];
    assert buf[..size][4..8] == buf[4..8];
  }

  lemma JudgeOther(window: seq<Byte>, buf: seq<Byte>, k: nat, handler: Handler)
    requires |buf| >= WORD_BYTES && !Ordinary(Word(buf)) && LoopSize(Word(buf)) <= |buf|
    ensures FirstStep(buf, k, handler).Stop? && !FirstStep(buf, k, handler).status.NeedMore?
    ensures Judge(window, LoopSize(Word(buf)), k, handler) != Refused <==> window == MAGIC && k !in handler.refused
  {
    OtherSize(Word(buf));
  }

  /** Over all 32-bit length words: the verdict is the decoder's whatever lies
      behind the bytes received exactly when the word is ordinary, the call is
      refused anyway, or a byte received already differs from the magic word. */
  lemma JudgeExactly(buf: seq<Byte>, k: nat, handler: Handler)
    requires WORD_BYTES <= |buf| <= FRAME_MAX_SIZE && LoopSize(Word(buf)) <= |buf|
    ensures (forall window :: Shows(window, buf) ==>
               Agrees(Judge(window, LoopSize(Word(buf)), k, handler), FirstStep(buf, k, handler)))
      <==> Ordinary(Word(buf)) || k in handler.refused || !(Seen(buf) <= MAGIC)
  {
    hide Word, FirstStep, LoopSize, Ordinary;
    var size := LoopSize(Word(buf));
    if Ordinary(Word(buf)) {
      forall window | Shows(window, buf)
        ensures Agrees(Judge(window, size, k, handler), FirstStep(buf, k, handler))
      {
        JudgeOrdinary(window, buf, k, handler);
      }
    } else if k in handler.refused || !(Seen(buf) <= MAGIC) {
      forall window | Shows(window, buf)
        ensures Agrees(Judge(window, size, k, handler), FirstStep(buf, k, handler))
      {
        JudgeOther(window, buf, k, handler);
        assert Seen(buf) == window[..|Seen(buf)|];
      }
    } else {
      JudgeOther(MAGIC, buf, k, handler);
      assert Shows(MAGIC, buf);
      assert !Agrees(Judge(MAGIC, size, k, handler), FirstStep(buf, k, handler));
    }
  }

  // ---- The loop ----

  /** How the loop ends: with a tail from `off` on, or as the handler's last
      verdict. */
  datatype End = Kept(off: nat) | Closed | Lost

  /** `over`: the handler was shown bytes from behind the buffer. */
  datatype Batch = Batch(frames: seq<seq<Byte>>, end: End, over: bool)

  /** `mem` is the whole buffer, old contents included, and four bytes of the
      memory behind it; the first `rpos` bytes are received. */
  function Batched(mem: seq<Byte>, rpos: nat, off: nat, k: nat, handler: Handler): Batch
    requires off + WORD_BYTES <= rpos && rpos + 4 <= |mem|
    decreases rpos - off
  {
    var size := LoopSize(Word(mem[off..rpos]));
    var over := off + 8 > |mem| - 4;
    if rpos - off < size then Batch([], Kept(off), false)
    else
      match Judge(mem[off + 4..off + 8], size, k, handler)
      case Refused => Batch([], Closed, over)
      case Strayed => Batch([], Lost, over)
      case Delivered =>
        var next := off + size;
        if rpos - next < WORD_BYTES then Batch([mem[off..next]], Kept(next), over)
        else
          var b := Batched(mem, rpos, next, k + 1, handler);
          Batch([mem[off..next]] + b.frames, b.end, over || b.over)
  }

  lemma BatchedTurn(mem: seq<Byte>, rpos: nat, off: nat, k: nat, handler: Handler)
    requires off + WORD_BYTES <= rpos && rpos + 4 <= |mem|
    ensures var size := LoopSize(Word(mem[off..rpos]));
      var over := off + 8 > |mem| - 4;
      var b := Batched(mem, rpos, off, k, handler);
      if rpos - off < size then b == Batch([], Kept(off), false)
      else
        match Judge(mem[off + 4..off + 8], size, k, handler)
        case Refused => b == Batch([], Closed, over)
        case Strayed => b == Batch([], Lost, over)
        case Delivered =>
          && size > 0
          && (rpos - (off + size) < WORD_BYTES ==> b == Batch([mem[off..off + size]], Kept(off + size), over))
          && (rpos - (off + size) >= WORD_BYTES ==>
                var rest := Batched(mem, rpos, off + size, k + 1, handler);
                b == Batch([mem[off..off + size]] + rest.frames, rest.end, over || rest.over))
  {
  }

  /** A buffer that holds exactly one frame. */
  lemma BatchedOne(mem: seq<Byte>, rpos: nat, k: nat, handler: Handler)
    requires WORD_BYTES <= rpos && rpos + 4 <= |mem| && LoopSize(Word(mem[0..rpos])) == rpos
    ensures Batched(mem, rpos, 0, k, handler) ==
      match Judge(mem[4..8], rpos, k, handler)
      case Refused => Batch([], Closed, 8 > |mem| - 4)
      case Strayed => Batch([], Lost, 8 > |mem| - 4)
      case Delivered => Batch([mem[..rpos]], Kept(rpos), 8 > |mem| - 4)
  {
    assert mem[0..rpos] == mem[..rpos] && mem[0 + 4..0 + 8] == mem[4..8];
  }

  // ---- Streams the loop reads as the decoder does ----

  /** However this tail is cut and whatever lies behind it, the handler refuses
      it as the decoder does. */
  predicate Certain(rest: seq<Byte>, k: nat, handler: Handler)
    requires |rest| >= WORD_BYTES
  {
    || k in handler.refused
    || (Word(rest) < 4 && Word(rest) + 4 <= |rest| && !(rest[4..Word(rest) + 4] <= MAGIC))
    || Ordinary(Word(rest))
    || (k == 0 && 4 <= Word(rest) < 0xFFFF_FFFC)
  }

  predicate Steady(s: seq<Byte>, handler: Handler)
  {
    var d := Decode(s, 0, handler);
    d.status.NeedMore? || |d.rest| < WORD_BYTES || Certain(d.rest, |d.frames|, handler)
  }

  /** Every length word met at a frame boundary is ordinary. */
  predicate WordsInRange(s: seq<Byte>, handler: Handler)
  {
    var d := Decode(s, 0, handler);
    d.status.NeedMore? || |d.rest| < WORD_BYTES || Ordinary(Word(d.rest))
  }

  lemma InRangeIsSteady(s: seq<Byte>, handler: Handler)
    requires WordsInRange(s, handler)
    ensures Steady(s, handler)
  {
  }

  lemma WordOfLonger(s: seq<Byte>, t: seq<Byte>)
    requires |s| >= WORD_BYTES
    ensures Word(s + t) == Word(s)
  {
  }

  lemma CertainShorter(rest: seq<Byte>, t: seq<Byte>, k: nat, handler: Handler)
    requires |rest| >= WORD_BYTES && FirstStep(rest, k, handler).Stop? && !FirstStep(rest, k, handler).status.NeedMore?
    ensures Certain(rest + t, k, handler) <==> Certain(rest, k, handler)
  {
    WordOfLonger(rest, t);
    if Word(rest) < 4 {
      var n := Word(rest) + 4;
      assert (rest + t)[..n] == rest[..n];
    }
  }

  /** Both are decided by a prefix that already stopped the decoder. */
  lemma SteadyPrefix(s: seq<Byte>, t: seq<Byte>, handler: Handler)
    ensures Steady(s + t, handler) ==> Steady(s, handler)
    ensures WordsInRange(s + t, handler) ==> WordsInRange(s, handler)
  {
    hide Decode, FirstStep, Word, Certain;
    DecodeResumes(s, t, 0, handler);
    var d := Decode(s, 0, handler);
    DecodeStopped(s, 0, handler);
    if !d.status.NeedMore? && |d.rest| >= WORD_BYTES {
      CertainShorter(d.rest, t, |d.frames|, handler);
      WordOfLonger(d.rest, t);
    }
  }

  // ---- Decoding a stream held partly as delivered frames, partly as buffer ----

  /** The delivered frames followed by whatever the buffer decodes to is what
      the whole received stream decodes to. */
  ghost predicate Accounts(
    received: seq<Byte>, delivered: seq<seq<Byte>>, buf: seq<Byte>, handler: Handler)
  {
    Steady(received, handler) ==>
      Decode(received, 0, handler) == Prepend(delivered, Decode(buf, |delivered|, handler))
  }

  /** All that can be delivered has been. */
  ghost predicate Settled(
    received: seq<Byte>, delivered: seq<seq<Byte>>, buf: seq<Byte>, handler: Handler)
  {
    && Accounts(received, delivered, buf, handler)
    && (Steady(received, handler) ==>
          FirstStep(buf, |delivered|, handler).Stop? && !FirstStep(buf, |delivered|, handler).status.Rejected?)
  }

  lemma SettledAtStart(buf: seq<Byte>, handler: Handler)
    requires buf == []
    ensures Settled([], [], buf, handler)
  {
  }

  lemma AccountsForMore(
      received: seq<Byte>, delivered: seq<seq<Byte>>, buf: seq<Byte>, t: seq<Byte>, handler: Handler)
    requires Accounts(received, delivered, buf, handler)
    ensures Accounts(received + t, delivered, buf + t, handler)
  {
    hide Decode, Steady, FirstStep;
    SteadyPrefix(received, t, handler);
    DecodeResumes(received, t, 0, handler);
    DecodeResumes(buf, t, |delivered|, handler);
    ResumeAfterFrames(delivered, Decode(buf, |delivered|, handler), t, 0, handler);
  }

  lemma AccountsAfterDelivery(
      received: seq<Byte>, delivered: seq<seq<Byte>>, buf: seq<Byte>, n: nat, handler: Handler)
    requires Accounts(received, delivered, buf, handler)
    requires FirstStep(buf, |delivered|, handler) == Take(n)
    ensures Accounts(received, delivered + [buf[..n]], buf[n..], handler)
  {
    hide Steady, FirstStep;
    PrependTwice(delivered, [buf[..n]], Decode(buf[n..], |delivered| + 1, handler));
  }

  /** Nothing more can be decoded: the frames delivered are all of them. */
  lemma AccountsWhenStopped(
      received: seq<Byte>, delivered: seq<seq<Byte>>, buf: seq<Byte>, handler: Handler)
    requires Accounts(received, delivered, buf, handler) && Steady(received, handler)
    requires FirstStep(buf, |delivered|, handler).Stop?
    ensures Decode(received, 0, handler)
         == Decoded(delivered, buf, FirstStep(buf, |delivered|, handler).status)
  {
    hide Steady, FirstStep;
    assert delivered + [] == delivered;
  }

  /** What a steady stream allows at the frame the decoder stops at. */
  lemma CertainHere(received: seq<Byte>, delivered: seq<seq<Byte>>, buf: seq<Byte>, handler: Handler)
    requires Accounts(received, delivered, buf, handler) && |buf| >= WORD_BYTES
    requires FirstStep(buf, |delivered|, handler).Stop? && !FirstStep(buf, |delivered|, handler).status.NeedMore?
    ensures Steady(received, handler) ==> Certain(buf, |delivered|, handler)
    ensures WordsInRange(received, handler) ==> Ordinary(Word(buf))
  {
    hide FirstStep, Certain, Word;
    if Steady(received, handler) {
      AccountsWhenStopped(received, delivered, buf, handler);
    }
    if WordsInRange(received, handler) {
      InRangeIsSteady(received, handler);
    }
  }

  /** A certain tail is neither delivered nor strayed on. */
  lemma CertainRefused(window: seq<Byte>, buf: seq<Byte>, k: nat, handler: Handler)
    requires |buf| >= WORD_BYTES && !Ordinary(Word(buf)) && LoopSize(Word(buf)) <= |buf| && Shows(window, buf)
    requires Certain(buf, k, handler) && (LoopSize(Word(buf)) < 0 ==> k > 0)
    ensures Judge(window, LoopSize(Word(buf)), k, handler) == Refused
  {
    if Word(buf) < 4 && k !in handler.refused {
      var n := Word(buf) + 4;
      assert forall i :: 0 <= i < n - 4 ==> buf[4..n][i] == window[i];
    }
  }

  /** One verdict of the loop on a received tail: on a steady stream it is the
      decoder's, and bytes from behind the buffer are shown only for a word out
      of range. */
  lemma VerdictAgrees(received: seq<Byte>, delivered: seq<seq<Byte>>, buf: seq<Byte>,
                      window: seq<Byte>, handler: Handler)
    requires Accounts(received, delivered, buf, handler)
    requires WORD_BYTES <= |buf| <= FRAME_MAX_SIZE && LoopSize(Word(buf)) <= |buf| && Shows(window, buf)
    requires LoopSize(Word(buf)) < 0 ==> delivered != []
    ensures Steady(received, handler) ==>
      Agrees(Judge(window, LoopSize(Word(buf)), |delivered|, handler), FirstStep(buf, |delivered|, handler))
    ensures LoopSize(Word(buf)) < 8 ==> !WordsInRange(received, handler)
  {
    hide FirstStep, Certain, Word, LoopSize, Judge, Accounts, Steady, WordsInRange;
    if Ordinary(Word(buf)) {
      OrdinarySize(Word(buf));
      JudgeOrdinary(window, buf, |delivered|, handler);
    } else {
      JudgeOther(window, buf, |delivered|, handler);
      CertainHere(received, delivered, buf, handler);
      if Steady(received, handler) {
        CertainRefused(window, buf, |delivered|, handler);
      }
    }
  }

  lemma ShowsWindow(mem: seq<Byte>, rpos: nat, off: nat)
    requires off + WORD_BYTES <= rpos && rpos + 4 <= |mem|
    ensures Shows(mem[off + 4..off + 8], mem[off..rpos])
  {
  }

  /** The loop's outcome against the one-shot decode of everything received. */
  ghost predicate Outcome(
    b: Batch, mem: seq<Byte>, rpos: nat, received: seq<Byte>, delivered: seq<seq<Byte>>, handler: Handler)
    requires rpos + 4 <= |mem|
  {
    && (b.over ==> !WordsInRange(received, handler))
    && match b.end
       case Kept(off) =>
         && off <= rpos
         && Settled(received, delivered + b.frames, mem[off..rpos], handler)
         && (rpos - off >= WORD_BYTES ==> rpos - off < LoopSize(Word(mem[off..rpos])))
       case Closed =>
         Steady(received, handler) ==>
           Decode(received, 0, handler).frames == delivered + b.frames
           && !Decode(received, 0, handler).status.NeedMore?
       case Lost => !Steady(received, handler)
  }

  lemma KeptSettles(received: seq<Byte>, delivered: seq<seq<Byte>>, buf: seq<Byte>, handler: Handler)
    requires Accounts(received, delivered, buf, handler)
    requires |buf| >= WORD_BYTES ==> |buf| < LoopSize(Word(buf))
    ensures Settled(received, delivered, buf, handler)
  {
    hide Steady;
  }

  /** The loop delivers what the decoder delivers, closes when it refuses and
      keeps its tail, on every steady stream. */
  lemma {:induction false} BatchAgrees(
      mem: seq<Byte>, rpos: nat, off: nat, received: seq<Byte>, delivered: seq<seq<Byte>>, handler: Handler)
    requires off + WORD_BYTES <= rpos && rpos + 4 <= |mem| <= FRAME_MAX_SIZE + 4
    requires Accounts(received, delivered, mem[off..rpos], handler)
    requires LoopSize(Word(mem[off..rpos])) < 0 ==> delivered != []
    ensures Outcome(Batched(mem, rpos, off, |delivered|, handler), mem, rpos, received, delivered, handler)
    decreases rpos - off
  {
    hide Decode, FirstStep, Word, LoopSize, Judge, Accounts, Steady, WordsInRange, Settled, Shows;
    var buf := mem[off..rpos];
    var size := LoopSize(Word(buf));
    if rpos - off < size {
      KeptSettles(received, delivered, buf, handler);
      assert delivered + [] == delivered;
    } else {
      var window := mem[off + 4..off + 8];
      ShowsWindow(mem, rpos, off);
      VerdictAgrees(received, delivered, buf, window, handler);
      match Judge(window, size, |delivered|, handler)
      case Refused =>
        assert delivered + [] == delivered;
        if Steady(received, handler) {
          AccountsWhenStopped(received, delivered, buf, handler);
        }
      case Strayed =>
      case Delivered =>
        AfterVerdict(mem, rpos, off, received, delivered, handler);
    }
  }

  lemma AccountsTaken(received: seq<Byte>, delivered: seq<seq<Byte>>, buf: seq<Byte>, handler: Handler)
    requires Accounts(received, delivered, buf, handler)
    requires |buf| >= WORD_BYTES && 0 < LoopSize(Word(buf)) <= |buf|
    requires Steady(received, handler) ==> FirstStep(buf, |delivered|, handler).Take?
    ensures var size := LoopSize(Word(buf));
      Accounts(received, delivered + [buf[..size]], buf[size..], handler)
  {
    hide Decode, Steady, Word;
    if Steady(received, handler) {
      AccountsAfterDelivery(received, delivered, buf, LoopSize(Word(buf)), handler);
    }
  }

  lemma AfterVerdict(
      mem: seq<Byte>, rpos: nat, off: nat, received: seq<Byte>, delivered: seq<seq<Byte>>, handler: Handler)
    requires off + WORD_BYTES <= rpos && rpos + 4 <= |mem| <= FRAME_MAX_SIZE + 4
    requires Accounts(received, delivered, mem[off..rpos], handler)
    requires var size := LoopSize(Word(mem[off..rpos]));
      && size <= rpos - off && (size < 8 ==> !WordsInRange(received, handler))
      && Judge(mem[off + 4..off + 8], size, |delivered|, handler) == Delivered
    requires Steady(received, handler) ==> FirstStep(mem[off..rpos], |delivered|, handler).Take?
    ensures Outcome(Batched(mem, rpos, off, |delivered|, handler), mem, rpos, received, delivered, handler)
    decreases rpos - off, 0
  {
    hide Decode, FirstStep, Word, LoopSize, Accounts, Steady, WordsInRange, Settled;
    var buf := mem[off..rpos];
    var size := LoopSize(Word(buf));
    var next := off + size;
    var frame := mem[off..next];
    assert buf[..size] == frame && buf[size..] == mem[next..rpos];
    AccountsTaken(received, delivered, buf, handler);
    if rpos - next < WORD_BYTES {
      KeptSettles(received, delivered + [frame], mem[next..rpos], handler);
    } else {
      BatchAgrees(mem, rpos, next, received, delivered + [frame], handler);
      var b := Batched(mem, rpos, next, |delivered| + 1, handler);
      assert delivered + ([frame] + b.frames) == delivered + [frame] + b.frames;
    }
  }

  /** An incomplete frame is what the decoder waits for too. */
  lemma StillNeedsMore(received: seq<Byte>, delivered: seq<seq<Byte>>, buf: seq<Byte>, size: nat, handler: Handler)
    requires Accounts(received, delivered, buf, handler)
    requires WORD_BYTES <= |buf| < size == FramingSize(Word(buf)) <= FRAME_MAX_SIZE
    ensures Settled(received, delivered, buf, handler)
    ensures Steady(received, handler) ==>
      Decode(received, 0, handler).frames == delivered && Decode(received, 0, handler).status.NeedMore?
  {
    hide Decode, Steady;
    if Steady(received, handler) {
      AccountsWhenStopped(received, delivered, buf, handler);
    }
  }

  lemma SettledAccounts(received: seq<Byte>, delivered: seq<seq<Byte>>, buf: seq<Byte>, handler: Handler)
    requires Settled(received, delivered, buf, handler)
    ensures Accounts(received, delivered, buf, handler)
  {
    hide Accounts, Steady, FirstStep;
  }

  lemma SettledFrames(received: seq<Byte>, delivered: seq<seq<Byte>>, buf: seq<Byte>, handler: Handler)
    requires Settled(received, delivered, buf, handler)
    ensures Steady(received, handler) ==>
      Decode(received, 0, handler).frames == delivered && Decode(received, 0, handler).rest == buf
  {
    hide Decode, Steady;
    if Steady(received, handler) {
      AccountsWhenStopped(received, delivered, buf, handler);
    }
  }

  /** A frame the loop found incomplete is incomplete for the framing state. */
  lemma BothSizes(w: nat)
    ensures LoopSize(w) > 0 ==> LoopSize(w) == FramingSize(w)
  {
  }

  /** A size that fits the buffer is the loop's size too. */
  lemma LoadedSize(w: nat)
    requires FramingSize(w) <= FRAME_MAX_SIZE
    ensures LoopSize(w) == FramingSize(w)
  {
  }
}
