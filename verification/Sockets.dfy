/** A non-blocking stream socket as its caller sees it. */
module Sockets {
  import opened Common
  import opened Frames

  /** What the kernel does on one call: move up to `n` bytes, or answer
      EAGAIN, EINTR, end of stream, or any other error. */
  datatype Event = Move(n: nat) | WouldBlock | Interrupt | Hangup | Failure

  datatype Answer = Moved(bytes: seq<Byte>) | Blocked | Interrupted | Ended | Failed

  /** The first answer that is not EINTR. */
  function FirstEvent(script: seq<Event>): Event
  {
    if script == [] then WouldBlock
    else if script[0].Interrupt? then FirstEvent(script[1..])
    else script[0]
  }

  /** What is left of the script behind that answer. */
  function AfterFirst(script: seq<Event>): seq<Event>
  {
    if script == [] then []
    else if script[0].Interrupt? then AfterFirst(script[1..])
    else script[1..]
  }

  /** No end of stream and no error lies ahead. */
  predicate Healthy(script: seq<Event>)
  {
    forall e :: e in script ==> !e.Hangup? && !e.Failure?
  }

  /** The kernel will move at least one byte. */
  predicate WillMove(script: seq<Event>)
  {
    FirstEvent(script).Move? && FirstEvent(script).n > 0
  }

  /** The end of the stream or an error. */
  predicate Ending(e: Event)
  {
    e.Hangup? || e.Failure?
  }

  lemma {:induction false} HealthyFirst(script: seq<Event>)
    requires Healthy(script)
    ensures !Ending(FirstEvent(script)) && Healthy(AfterFirst(script))
  {
    if script != [] && script[0].Interrupt? {
      HealthyFirst(script[1..]);
    }
  }

  /** The bytes a receive of at most `max` brings in. */
  function Brought(e: Event, inbox: seq<Byte>, max: nat): (bytes: seq<Byte>)
    ensures bytes <= inbox && |bytes| <= max
  {
    if e.Move? then inbox[..Min(e.n, Min(max, |inbox|))] else []
  }

  /** What the kernel answers when it may move a prefix of `bytes`. */
  function AnswerTo(e: Event, bytes: seq<Byte>): Answer
  {
    match e
    case Move(n) => if Min(n, |bytes|) == 0 then Blocked else Moved(bytes[..Min(n, |bytes|)])
    case WouldBlock => Blocked
    case Interrupt => Interrupted
    case Hangup => Ended
    case Failure => Failed
  }

  lemma AnswerBrings(e: Event, inbox: seq<Byte>, max: nat)
    requires max > 0
    ensures var a := AnswerTo(e, inbox[..Min(max, |inbox|)]);
      && Brought(e, inbox, max) == (if a.Moved? then a.bytes else [])
      && (a.Ended? <==> e.Hangup?) && (a.Failed? <==> e.Failure?) && (a.Moved? ==> a.bytes != [])
  {
  }

  lemma NothingToTake(e: Event, bytes: seq<Byte>)
    requires bytes == []
    ensures Brought(e, bytes, 0) == []
  {
  }

  class Socket {
    var open: bool
    var inbox: seq<Byte>
    var script: seq<Event>
    var received: seq<Byte>
    var sent: seq<Byte>

    constructor ()
      ensures open && inbox == [] && script == [] && received == [] && sent == []
    {
      open, inbox, script := true, [], [];
      received, sent := [], [];
    }

    method Close()
      modifies this
      ensures !open
      ensures inbox == old(inbox) && script == old(script)
      ensures received == old(received) && sent == old(sent)
    {
      open := false;
    }

    /** Takes the next event off the script. */
    method NextEvent() returns (e: Event)
      requires open
      modifies this`script
      ensures if old(script) == [] then script == [] && e == WouldBlock else old(script) == [e] + script
      ensures Healthy(old(script)) ==> Healthy(script) && !e.Hangup? && !e.Failure?
    {
      if script == [] {
        e := WouldBlock;
      } else {
        e, script := script[0], script[1..];
      }
    }

    /** recv: bytes leave the inbox in order. */
    method Recv(max: nat) returns (a: Answer)
      requires max > 0
      modifies this
      ensures open == old(open) && sent == old(sent)
      ensures a.Moved? ==> open && 0 < |a.bytes| <= max
      ensures a.Moved? ==> received == old(received) + a.bytes && old(inbox) == a.bytes + inbox
      ensures !a.Moved? ==> received == old(received) && inbox == old(inbox)
      ensures a.Interrupted? ==> |script| < |old(script)| && FirstEvent(script) == FirstEvent(old(script))
      ensures !open ==> a.Failed?
      ensures open && !a.Interrupted? ==>
        a == AnswerTo(FirstEvent(old(script)), old(inbox)[..Min(max, |old(inbox)|)]) && script == AfterFirst(old(script))
      ensures a.Interrupted? ==> AfterFirst(script) == AfterFirst(old(script))
    {
      if !open {
        return Failed;
      }
      var e := NextEvent();
      a := AnswerTo(e, inbox[..Min(max, |inbox|)]);
      if a.Moved? {
        var m := |a.bytes|;
        received := received + inbox[..m];
        inbox := inbox[m..];
      }
    }

    /** recv, called again while it answers EINTR. */
    method RecvSome(max: nat) returns (a: Answer)
      requires max > 0
      modifies this
      ensures open == old(open) && sent == old(sent) && !a.Interrupted?
      ensures a.Moved? ==> received == old(received) + a.bytes && old(inbox) == a.bytes + inbox
      ensures !a.Moved? ==> received == old(received) && inbox == old(inbox)
      ensures !open ==> a.Failed?
      ensures open ==> a == AnswerTo(FirstEvent(old(script)), old(inbox)[..Min(max, |old(inbox)|)])
      ensures open ==> script == AfterFirst(old(script))
    {
      hide FirstEvent, AfterFirst, AnswerTo;
      a := Recv(max);
      while a.Interrupted?
        invariant open == old(open) && sent == old(sent)
        invariant a.Moved? ==> received == old(received) + a.bytes && old(inbox) == a.bytes + inbox
        invariant !a.Moved? ==> received == old(received) && inbox == old(inbox)
        invariant !open ==> a.Failed?
        invariant a.Interrupted? ==> FirstEvent(script) == FirstEvent(old(script))
        invariant a.Interrupted? ==> AfterFirst(script) == AfterFirst(old(script))
        invariant open && !a.Interrupted? ==>
          a == AnswerTo(FirstEvent(old(script)), old(inbox)[..Min(max, |old(inbox)|)]) && script == AfterFirst(old(script))
        decreases if a.Interrupted? then |script| + 1 else 0
      {
        a := Recv(max);
      }
    }

    /** send: the kernel takes a prefix of what is offered. */
    method Send(bytes: seq<Byte>) returns (a: Answer)
      requires bytes != []
      modifies this
      ensures open == old(open) && received == old(received) && inbox == old(inbox)
      ensures a.Moved? ==> open && a.bytes != [] && a.bytes <= bytes && sent == old(sent) + a.bytes
      ensures !a.Moved? ==> sent == old(sent)
      ensures a.Interrupted? ==> |script| < |old(script)| && FirstEvent(script) == FirstEvent(old(script))
      ensures open && !a.Interrupted? ==> a == AnswerTo(FirstEvent(old(script)), bytes)
      ensures !open ==> a.Failed?
    {
      if !open {
        return Failed;
      }
      var e := NextEvent();
      a := AnswerTo(e, bytes);
      if a.Moved? {
        sent := sent + a.bytes;
      }
    }

    /** send, called again while it answers EINTR. */
    method SendSome(bytes: seq<Byte>) returns (a: Answer)
      requires bytes != [] && open
      modifies this
      ensures open && received == old(received) && inbox == old(inbox) && !a.Interrupted?
      ensures a == AnswerTo(FirstEvent(old(script)), bytes)
      ensures sent == old(sent) + if a.Moved? then a.bytes else []
    {
      hide FirstEvent, AnswerTo;
      a := Send(bytes);
      while a.Interrupted?
        invariant open && received == old(received) && inbox == old(inbox)
        invariant sent == old(sent) + if a.Moved? then a.bytes else []
        invariant a.Interrupted? ==> FirstEvent(script) == FirstEvent(old(script))
        invariant !a.Interrupted? ==> a == AnswerTo(FirstEvent(old(script)), bytes)
        decreases if a.Interrupted? then |script| + 1 else 0
      {
        a := Send(bytes);
      }
    }
  }
}
