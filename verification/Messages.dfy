/** Message buffers: building frames from data and data from frames. */
module Messages {
  import opened Frames

  class FrameBuffer {
    var b: array<Byte>
    var dataLen: int
    var frameLen: nat

    /** The bytes handed to the socket. */
    ghost function Wire(): seq<Byte>
      requires frameLen <= b.Length
      reads this, b
    {
      b[..frameLen]
    }

    /** Length word and magic are in place for `dataLen` bytes of data. */
    ghost predicate Headed()
      reads this, b
    {
      && 0 <= dataLen < 0x7FFF_FFF0 && frameLen == dataLen + 8 <= b.Length
      && b[..8] == WordBytes(dataLen + 4) + MAGIC
    }

    /** createIMessage(b, len): copies a received frame, with 32 spare bytes. */
    constructor FromFrame(frame: seq<Byte>)
      ensures fresh(b) && b.Length == |frame| + 32
      ensures frameLen == |frame| && dataLen == |frame| - 8 && Wire() == frame
    {
      var buf := new Byte[|frame| + 32];
      forall i | 0 <= i < |frame| {
        buf[i] := frame[i];
      }
      b, frameLen, dataLen := buf, |frame|, |frame| - 8;
    }

    /** createIMessage(len): room for exactly `len` bytes of data. */
    constructor ForData(len: nat)
      requires len < 0x7FFF_FFF0
      ensures fresh(b) && b.Length == len + 8 && dataLen == len && Headed()
    {
      var buf := new Byte[len + 8];
      var head := WordBytes(len + 4) + MAGIC;
      forall i | 0 <= i < 8 {
        buf[i] := head[i];
      }
      assert buf[..8] == head;
      b, frameLen, dataLen := buf, len + 8, len;
    }

    /** fixIMessage: reuses the buffer when it is large enough, else replaces
        it; either way the header announces `len`. */
    method Fix(len: nat)
      requires len < 0x7FFF_FFF0
      modifies this, b
      ensures Headed() && dataLen == len
      ensures if len + 8 <= old(b.Length) then b == old(b) else fresh(b) && b.Length == len + 8
    {
      if b.Length < len + 8 {
        b := new Byte[len + 8];
      }
      var head := WordBytes(len + 4) + MAGIC;
      forall i | 0 <= i < 8 {
        b[i] := head[i];
      }
      frameLen, dataLen := len + 8, len;
      assert b[..8] == head;
    }

    /** Serialises the data behind the header: the wire bytes are its frame. */
    method Fill(data: seq<Byte>)
      requires Headed() && |data| == dataLen
      modifies b
      ensures Headed() && Wire() == Frame(data)
    {
      forall i | 0 <= i < |data| {
        b[8 + i] := data[i];
      }
      assert b[..8] == old(b[..8]);
      assert b[8..frameLen] == data;
      assert Wire() == b[..8] + b[8..frameLen];
    }
  }

  lemma WordBytesOfWord(b: seq<Byte>)
    requires |b| == WORD_BYTES
    ensures WordBytes(Word(b)) == b
  {
    var x := (b[0] as int * 256 + b[1] as int) * 256 + b[2] as int;
    assert Word(b) / 256 == x && x / 256 == b[0] as int * 256 + b[1] as int;
  }

  /** An accepted frame that holds a magic word is the frame of its own data:
      what createIMessage makes of it, framed again, is the same bytes. */
  lemma FrameOfItsData(f: seq<Byte>)
    requires IsFrame(f) && 8 <= |f| && f[4..8] == MAGIC
    ensures Frame(f[8..]) == f
  {
    WordBytesOfWord(f[..4]);
    assert f == f[..4] + f[4..8] + f[8..];
  }

  /** Framing loses nothing. */
  lemma FrameInjective(a: seq<Byte>, b: seq<Byte>)
    requires |a| <= FRAME_MAX_SIZE - 8 && |b| <= FRAME_MAX_SIZE - 8
    ensures Frame(a) == Frame(b) <==> a == b
  {
    assert Frame(a)[8..] == a && Frame(b)[8..] == b;
  }
}
