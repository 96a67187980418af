/** The bodies of a connection's write and read loops, `common/network/conn_impl.go:232-309`, each
    as its goroutine runs it. What other goroutines and the transport do is given turn by turn, and
    decides how a loop ends. */
module ConnLoops {

  import opened Basics
  import opened ConnStream

  datatype Cause =
    | ErrClosed | WriteError | ShortWrite | EndOfStream | DecodeError
    | InvalidHeartbeat | PongNotSent | ReceiverPanic

  /** What one `Transport.Write` does: it takes up to `n` bytes, with or without an error, and
      somebody may close the connection meanwhile. */
  datatype Written = Written(n: nat, fails: bool, closed: bool)

  /** Around the write loop: whether somebody closes the connection before its `j`-th write, and
      what that write does. */
  datatype WriteSide = WriteSide(closed: nat -> bool, writes: nat -> Written)
  {
    predicate ClosedAt(j: nat) {
      closed(j) || (j > 0 && writes(j - 1).closed)
    }

    function CauseAt(j: nat): Option<Cause> {
      if j > 0 && writes(j - 1).closed then Some(ErrClosed) else None
    }

    predicate Goes<P(!new)>(c: Protocol<P>, packets: seq<P>, j: nat)
      requires j < |packets|
    {
      !writes(j).fails && |FrameOf(c, packets[j])| <= writes(j).n
    }
  }

  /** Around the read loop: whether somebody closes the connection before its `j`-th Decode, or
      behind it, and whether the delivery of the packet decoded fails, if it can. */
  datatype ReadSide = ReadSide(closed: nat -> bool, closedBehind: nat -> bool, fails: nat -> bool)

  /** Why the delivery of a packet fails: a Pong could not be sent, the receiver panics, or the
      heartbeat is of no known kind. */
  function Failure<P>(c: Protocol<P>, packet: P, fails: bool): Option<Cause> {
    match c.inspect(packet)
    case Some(Ping) => if fails then Some(PongNotSent) else None
    case Some(Pong) => None
    case Some(Unknown) => Some(InvalidHeartbeat)
    case None => if c.hasReceiver && fails then Some(ReceiverPanic) else None
  }

  /** The frame of packet `j`, and all before it, are in the stream as a whole. */
  predicate Complete<P>(c: Protocol<P>, packets: seq<P>, stream: seq<Byte>, j: nat) {
    j < |packets| && FrameBytes(c, packets[..j + 1]) <= |stream|
  }

  /** Turn `j` of the read loop decodes a packet, delivers it and goes on. */
  predicate GoesWell<P>(c: Protocol<P>, packets: seq<P>, stream: seq<Byte>, side: ReadSide, j: nat) {
    && !side.closed(j) && Complete(c, packets, stream, j) && !side.closedBehind(j)
    && Failure(c, packets[j], side.fails(j)) == None
  }

  ghost predicate AllGoWell<P>(c: Protocol<P>, packets: seq<P>, stream: seq<Byte>, side: ReadSide, t: nat) {
    forall j :: 0 <= j < t ==> GoesWell(c, packets, stream, side, j)
  }

  lemma OneMoreGoesWell<P>(c: Protocol<P>, packets: seq<P>, stream: seq<Byte>, side: ReadSide, t: nat)
    requires AllGoWell(c, packets, stream, side, t) && GoesWell(c, packets, stream, side, t)
    ensures AllGoWell(c, packets, stream, side, t + 1)
  {
  }

  /** How turn `t` ends the loop, with `d` packets decoded and `m` delivered. */
  predicate Ended<P>(
    c: Protocol<P>, packets: seq<P>, stream: seq<Byte>, side: ReadSide, t: nat, d: nat, m: nat, cause: Option<Cause>)
  {
    && !GoesWell(c, packets, stream, side, t)
    && d == (if Complete(c, packets, stream, t) && !side.closed(t) then t + 1 else t)
    && m == (if d == t + 1 && !side.closedBehind(t) then t + 1 else t)
    && cause == if side.closed(t) || side.closedBehind(t) || (m == t + 1 && side.closed(t + 1)) then Some(ErrClosed)
                else if d == t then Some(EndOfStream)
                else Failure(c, packets[t], side.fails(t))
  }

  /** What write `k` gets out of a frame it does not take as a whole, and the cause it gives. */
  predicate Cut<P(!new)>(
    c: Protocol<P>, packets: seq<P>, side: WriteSide, k: nat, part: seq<Byte>, cause: Option<Cause>)
    requires k < |packets|
  {
    && !side.Goes(c, packets, k)
    && part <= FrameOf(c, packets[k])
    && |part| == (if |FrameOf(c, packets[k])| <= side.writes(k).n then |FrameOf(c, packets[k])| else side.writes(k).n)
    && cause == Some(if side.writes(k).closed then ErrClosed
                     else if side.writes(k).fails then WriteError
                     else ShortWrite)
  }

  ghost predicate AllGo<P(!new)>(c: Protocol<P>, packets: seq<P>, side: WriteSide, k: nat) {
    k <= |packets| && forall j :: 0 <= j < k ==> !side.ClosedAt(j) && side.Goes(c, packets, j)
  }

  lemma OneMoreGoes<P(!new)>(c: Protocol<P>, packets: seq<P>, side: WriteSide, k: nat)
    requires AllGo(c, packets, side, k) && k < |packets| && !side.ClosedAt(k) && side.Goes(c, packets, k)
    ensures AllGo(c, packets, side, k + 1)
  {
  }

  /** How the write loop ends with `k` frames gone: closed by somebody else, or by its own write. */
  predicate WriteEnded<P(!new)>(
    c: Protocol<P>, packets: seq<P>, side: WriteSide, k: nat, part: seq<Byte>, cause: Option<Cause>)
    requires k <= |packets|
  {
    if k == |packets| || side.ClosedAt(k) then part == [] && cause == Some(ErrClosed)
    else Cut(c, packets, side, k, part, cause)
  }

  /** The frames are those of the packets. */
  predicate FramesOf<P>(c: Protocol<P>, frames: seq<seq<Byte>>, packets: seq<P>) {
    |frames| == |packets| && forall i :: 0 <= i < |packets| ==> frames[i] == FrameOf(c, packets[i])
  }

  class Conn<P(!new)> {
    const protocol: Protocol<P>
    var readPackets: nat
    var readBytes: nat
    var writePackets: nat
    var writeBytes: nat
    var sendQueue: seq<seq<Byte>>
    var wire: seq<Byte>          // what the transport has sent
    var received: seq<P>         // what the receiver was handed
    var cause: Option<Cause>     // of the context: None until it is cancelled
    var closeOnce: bool          // done
    var transportCloses: nat

    /** A closed connection has a cause, and its transport is closed, once. */
    ghost predicate Valid()
      reads this
    {
      (closeOnce <==> cause.Some?) && transportCloses == if closeOnce then 1 else 0
    }

    constructor (protocol: Protocol<P>)
      ensures Valid() && this.protocol == protocol && cause == None
      ensures sendQueue == [] && wire == [] && received == []
      ensures readPackets == readBytes == writePackets == writeBytes == 0
    {
      this.protocol := protocol;
      readPackets, readBytes, writePackets, writeBytes := 0, 0, 0, 0;
      sendQueue, wire, received, cause := [], [], [], None;
      closeOnce, transportCloses := false, 0;
    }

    /** The first call decides the cause, `net.ErrClosed` if it has none, and closes the transport;
        every other call changes nothing. */
    method CloseWithCause(c: Option<Cause>)
      requires Valid()
      modifies `cause, `closeOnce, `transportCloses
      ensures Valid() && cause.Some?
      ensures old(cause) == None ==> cause == (if c == None then Some(ErrClosed) else c)
      ensures old(cause) == None ==> transportCloses == old(transportCloses) + 1
      ensures old(cause) != None ==> cause == old(cause) && transportCloses == old(transportCloses)
    {
      var reason := c;
      if reason == None {
        reason := Some(ErrClosed);
      }
      if !closeOnce {
        closeOnce := true;
        cause := reason;
        transportCloses := transportCloses + 1;
      }
    }

    /** Whether the connection is closed; `now` says that another goroutine has just done that. */
    method Err(now: bool) returns (closed: bool)
      requires Valid()
      modifies `cause, `closeOnce, `transportCloses
      ensures Valid() && (closed <==> cause.Some?)
      ensures cause == if old(cause) == None && now then Some(ErrClosed) else old(cause)
    {
      if now {
        CloseWithCause(None);
      }
      closed := cause.Some?;
    }

    /** `Transport.Write`: all of the frame, or a part of it and an error or a short count. */
    method TransportWrite(frame: seq<Byte>, does: Written) returns (n: nat, ok: bool)
      requires Valid()
      modifies `wire, `cause, `closeOnce, `transportCloses
      ensures Valid() && cause == if old(cause) == None && does.closed then Some(ErrClosed) else old(cause)
      ensures n == (if |frame| <= does.n then |frame| else does.n) && ok == !does.fails
      ensures wire == old(wire) + frame[..n]
    {
      n := if |frame| <= does.n then |frame| else does.n;
      ok := !does.fails;
      wire := wire + frame[..n];
      var _ := Err(does.closed);
    }

    /** The select of the write loop: waits for the cancellation or for a frame, which may not yet be
        in the queue; answers one or the other when there are both. Once nothing more arrives, the
        wait ends because somebody closes the connection. */
    method Select(arrivals: seq<seq<seq<Byte>>>, i: nat, now: bool) returns (data: Option<seq<Byte>>, i': nat)
      requires Valid() && i <= |arrivals|
      modifies `sendQueue, `cause, `closeOnce, `transportCloses
      ensures Valid() && i <= i' <= |arrivals|
      ensures data == None ==> cause.Some?
      ensures data.Some? ==>
                old(sendQueue) + Flattened(arrivals[i..]) == ([data.value] + sendQueue) + Flattened(arrivals[i'..])
      ensures data.Some? ==> i < i' || |sendQueue| < |old(sendQueue)|
      ensures old(cause) != None ==> cause == old(cause)
      ensures old(cause) == None ==>
                cause == if now || old(sendQueue) + Flattened(arrivals[i..]) == [] then Some(ErrClosed) else None
    {
      i' := i;
      var closed := Err(now);
      while sendQueue == [] && !closed
        invariant Valid() && i <= i' <= |arrivals| && (closed <==> cause.Some?)
        invariant i == i' ==> sendQueue == old(sendQueue)
        invariant old(sendQueue) + Flattened(arrivals[i..]) == sendQueue + Flattened(arrivals[i'..])
        invariant old(cause) != None ==> cause == old(cause)
        invariant old(cause) == None ==>
                    cause == if now || (closed && sendQueue + Flattened(arrivals[i'..]) == []) then Some(ErrClosed) else None
        decreases |arrivals| - i', !closed
      {
        if i' < |arrivals| {
          NextBatch(sendQueue, arrivals, i');
          sendQueue := sendQueue + arrivals[i'];
          i' := i' + 1;
        } else {
          closed := Err(true);
        }
      }
      var cancelled := *;
      if closed && (sendQueue == [] || cancelled) {
        return None, i';
      }
      assert sendQueue == [sendQueue[0]] + sendQueue[1..];
      data, sendQueue := Some(sendQueue[0]), sendQueue[1..];
    }

    /** Whole frames go out in the order in which they are queued, up to the first that does not go,
        or before which the connection is closed; the loop ends there, or waits for a close when all
        have gone. The statistics count the whole frames. */
    method WriteLoop(arrivals: seq<seq<seq<Byte>>>, side: WriteSide, ghost packets: seq<P>)
      returns (k: nat, ghost part: seq<Byte>)
      requires Valid() && FramesOf(protocol, sendQueue + Flattened(arrivals), packets)
      modifies `sendQueue, `wire, `writePackets, `writeBytes, `cause, `closeOnce, `transportCloses
      ensures Valid() && k <= |packets|
      ensures writePackets == old(writePackets) + k
      ensures writeBytes == old(writeBytes) + FrameBytes(protocol, packets[..k])
      ensures wire == old(wire) + Stream(protocol, packets[..k]) + part
      ensures old(cause) != None ==> k == 0 && part == [] && cause == old(cause)
      ensures forall j :: 0 <= j < k ==> !side.ClosedAt(j) && side.Goes(protocol, packets, j)
      ensures old(cause) == None ==> WriteEnded(protocol, packets, side, k, part, cause)
    {
      k, part := 0, [];
      var i := 0;
      var goesOn := true;
      while goesOn
        invariant Valid() && i <= |arrivals| && k <= |packets| && (goesOn ==> part == [])
        invariant goesOn ==> FramesOf(protocol, sendQueue + Flattened(arrivals[i..]), packets[k..])
        invariant writePackets == old(writePackets) + k
        invariant writeBytes == old(writeBytes) + FrameBytes(protocol, packets[..k])
        invariant if goesOn then wire == old(wire) + Stream(protocol, packets[..k])
                  else wire == old(wire) + Stream(protocol, packets[..k]) + part
        invariant AllGo(protocol, packets, side, k)
        invariant old(cause) != None ==> k == 0 && part == [] && cause == old(cause)
        invariant old(cause) == None ==>
                    if goesOn then cause == side.CauseAt(k) else WriteEnded(protocol, packets, side, k, part, cause)
        decreases goesOn, |arrivals| - i, |sendQueue|
      {
        goesOn, i, part := WriteOne(arrivals, i, side, packets, k);
        if goesOn {
          OneMoreGoes(protocol, packets, side, k);
          OneMoreFrame(protocol, packets, k, old(wire), part);
          k, part := k + 1, [];
        }
      }
    }

    /** One turn of the write loop. */
    method WriteOne(arrivals: seq<seq<seq<Byte>>>, i: nat, side: WriteSide, ghost packets: seq<P>, k: nat)
      returns (goesOn: bool, i': nat, ghost part: seq<Byte>)
      requires Valid() && i <= |arrivals| && k <= |packets|
      requires FramesOf(protocol, sendQueue + Flattened(arrivals[i..]), packets[k..])
      modifies `sendQueue, `wire, `writePackets, `writeBytes, `cause, `closeOnce, `transportCloses
      ensures Valid() && i <= i' <= |arrivals| && wire == old(wire) + part
      ensures goesOn ==>
                && k < |packets| && part == FrameOf(protocol, packets[k]) && side.Goes(protocol, packets, k)
                && FramesOf(protocol, sendQueue + Flattened(arrivals[i'..]), packets[k + 1..])
                && (i < i' || |sendQueue| < |old(sendQueue)|)
                && old(cause) == None && !side.closed(k)
                && cause == if side.writes(k).closed then Some(ErrClosed) else None
      ensures writePackets == old(writePackets) + if goesOn then 1 else 0
      ensures writeBytes == old(writeBytes) + if goesOn then |part| else 0
      ensures !goesOn && old(cause) != None ==> part == [] && cause == old(cause)
      ensures !goesOn && old(cause) == None ==>
                if k == |packets| || side.closed(k) then part == [] && cause == Some(ErrClosed)
                else Cut(protocol, packets, side, k, part, cause)
    {
      goesOn, part := false, [];
      var early := *;
      var data;
      data, i' := Select(arrivals, i, early && side.closed(k));
      if data == None {
        return;
      }
      NextFrame(protocol, data.value, sendQueue, Flattened(arrivals[i'..]), packets, k);
      var closed := Err(side.closed(k));
      if closed {
        return;
      }
      var n, ok := TransportWrite(data.value, side.writes(k));
      part := data.value[..n];
      if !ok {
        CloseWithCause(Some(WriteError));
        return;
      }
      if n != |data.value| {
        CloseWithCause(Some(ShortWrite));
        return;
      }
      writePackets, writeBytes := writePackets + 1, writeBytes + n;
      goesOn := true;
    }

    /** `deliverPacket`: a heartbeat never reaches the receiver. */
    method DeliverPacket(packet: P, fails: bool) returns (err: Option<Cause>)
      modifies `received
      ensures received == old(received) + Handed(protocol, [packet])
      ensures err == Some(InvalidHeartbeat) <==> protocol.inspect(packet) == Some(Unknown)
      ensures err == Some(PongNotSent) <==> protocol.inspect(packet) == Some(Ping) && fails
      ensures err == Some(ReceiverPanic) <==> protocol.inspect(packet) == None && protocol.hasReceiver && fails
      ensures err.Some? ==> err.value in {InvalidHeartbeat, PongNotSent, ReceiverPanic}
      ensures err == Failure(protocol, packet, fails)
    {
      OneHanded(protocol, packet);
      match protocol.inspect(packet)
      case Some(Ping) =>
        err := if fails then Some(PongNotSent) else None;
      case Some(Pong) =>
        err := None;
      case Some(Unknown) =>
        err := Some(InvalidHeartbeat);
      case None =>
        err := None;
        if protocol.hasReceiver {
          received := received + [packet];
          err := if fails then Some(ReceiverPanic) else None;
        }
    }

    /** One Decode: the next packet and its statistics, or nothing because the stream ends. */
    method DecodeOne(stream: seq<Byte>, ghost packets: seq<P>, ghost d: nat) returns (packet: Option<P>, rest: seq<Byte>)
      requires Lawful(protocol) && Encodable(protocol, packets)
      requires d <= |packets| && stream <= Stream(protocol, packets[d..])
      modifies `readPackets, `readBytes
      ensures packet == None ==> unchanged(`readPackets, `readBytes)
      ensures packet == None && d < |packets| ==> |stream| < |FrameOf(protocol, packets[d])|
      ensures packet.Some? ==>
                && d < |packets| && packet == Some(packets[d]) && rest <= Stream(protocol, packets[d + 1..])
                && |stream| == |FrameOf(protocol, packets[d])| + |rest| && |rest| < |stream|
                && readPackets == old(readPackets) + 1
                && readBytes == old(readBytes) + |FrameOf(protocol, packets[d])|
    {
      ghost var ahead := packets[d..];
      DecodesTheNext(protocol, ahead, stream);
      packet, rest := None, stream;
      match protocol.decode(stream)
      case NeedMore =>
      case Bad =>
        assert false;
      case Frame(p, n) =>
        assert packets[d] == ahead[0] && ahead[1..] == packets[d + 1..];
        readPackets, readBytes := readPackets + 1, readBytes + n;
        packet, rest := Some(p), stream[n..];
    }

    /** From a stream that begins as the peer's packets do, the loop decodes them in order and hands
        on their messages, turn by turn, up to the first one that is not complete, is not delivered
        well, or meets a closed connection; `t` turns go well. Decoding never fails. */
    method ReadLoop(stream: seq<Byte>, side: ReadSide, ghost packets: seq<P>) returns (t: nat, ghost d: nat, ghost m: nat)
      requires Lawful(protocol) && Encodable(protocol, packets) && stream <= Stream(protocol, packets)
      requires Valid() && cause == None
      modifies `readPackets, `readBytes, `received, `cause, `closeOnce, `transportCloses
      ensures Valid() && m <= d <= |packets|
      ensures readPackets == old(readPackets) + d
      ensures readBytes == old(readBytes) + FrameBytes(protocol, packets[..d]) <= old(readBytes) + |stream|
      ensures received == old(received) + Handed(protocol, packets[..m])
      ensures forall j :: 0 <= j < t ==> GoesWell(protocol, packets, stream, side, j)
      ensures Ended(protocol, packets, stream, side, t, d, m, cause)
    {
      t, d, m := 0, 0, 0;
      var rest := stream;
      var goesOn := true;
      while goesOn
        invariant Valid() && t <= |packets| && (goesOn ==> m == d == t && cause == None)
        invariant goesOn ==>
                    rest <= Stream(protocol, packets[t..]) && |rest| + FrameBytes(protocol, packets[..t]) == |stream|
        invariant m <= d <= |packets| && readPackets == old(readPackets) + d
        invariant readBytes == old(readBytes) + FrameBytes(protocol, packets[..d]) <= old(readBytes) + |stream|
        invariant received == old(received) + Handed(protocol, packets[..m])
        invariant AllGoWell(protocol, packets, stream, side, t)
        invariant !goesOn ==> Ended(protocol, packets, stream, side, t, d, m, cause)
        decreases |rest|, goesOn
      {
        if t < |packets| {
          FrameBytesAt(protocol, packets, t);
          HandedOneMore(protocol, packets, t, old(received));
        }
        ghost var delivered;
        goesOn, rest, d, delivered := ReadOne(rest, side, packets, t);
        m := if delivered then t + 1 else t;
        if goesOn {
          OneMoreGoesWell(protocol, packets, stream, side, t);
          t := t + 1;
        }
      }
    }

    /** One turn of the read loop. */
    method ReadOne(stream: seq<Byte>, side: ReadSide, ghost packets: seq<P>, t: nat)
      returns (goesOn: bool, rest: seq<Byte>, ghost d: nat, ghost delivered: bool)
      requires Lawful(protocol) && Encodable(protocol, packets)
      requires t <= |packets| && stream <= Stream(protocol, packets[t..]) && Valid() && cause == None
      modifies `readPackets, `readBytes, `received, `cause, `closeOnce, `transportCloses
      ensures Valid()
      ensures var whole := t < |packets| && |FrameOf(protocol, packets[t])| <= |stream|;
              && d == (if !side.closed(t) && whole then t + 1 else t)
              && |rest| == |stream| - (if d == t then 0 else |FrameOf(protocol, packets[t])|)
              && (delivered <==> d == t + 1 && !side.closedBehind(t))
              && (goesOn <==> delivered && Failure(protocol, packets[t], side.fails(t)) == None)
              && (goesOn ==> cause == None && |rest| < |stream|)
              && (!goesOn ==>
                    cause == if side.closed(t) || side.closedBehind(t) || (delivered && side.closed(t + 1)) then Some(ErrClosed)
                             else if d == t then Some(EndOfStream)
                             else Failure(protocol, packets[t], side.fails(t)))
      ensures goesOn ==> rest <= Stream(protocol, packets[t + 1..])
      ensures readPackets == old(readPackets) + d - t && readBytes == old(readBytes) + |stream| - |rest|
      ensures delivered ==> received == old(received) + Handed(protocol, [packets[t]])
      ensures !delivered ==> received == old(received)
    {
      goesOn, rest, d, delivered := false, stream, t, false;
      var closed := Err(side.closed(t));
      if closed {
        return;
      }
      var packet;
      packet, rest := DecodeOne(stream, packets, t);
      var closedMeanwhile := Err(side.closedBehind(t));
      if packet == None {
        rest := stream;
        CloseWithCause(Some(EndOfStream));
        return;
      }
      d := t + 1;
      if closedMeanwhile {
        return;
      }
      var err := DeliverPacket(packet.value, side.fails(t));
      delivered := true;
      if err.Some? {
        var _ := Err(side.closed(t + 1));
        CloseWithCause(err);
        return;
      }
      goesOn := true;
    }
  }

  lemma NextFrame<P>(
    c: Protocol<P>, frame: seq<Byte>, queue: seq<seq<Byte>>, later: seq<seq<Byte>>, packets: seq<P>, k: nat)
    requires k <= |packets| && FramesOf(c, ([frame] + queue) + later, packets[k..])
    ensures k < |packets| && frame == FrameOf(c, packets[k])
    ensures FramesOf(c, queue + later, packets[k + 1..])
  {
    var frames := ([frame] + queue) + later;
    assert frames[0] == frame && frames[1..] == queue + later;
    assert packets[k..][1..] == packets[k + 1..];
  }

  lemma OneMoreFrame<P>(c: Protocol<P>, packets: seq<P>, k: nat, wire: seq<Byte>, frame: seq<Byte>)
    requires k < |packets| && frame == FrameOf(c, packets[k])
    ensures wire + Stream(c, packets[..k]) + frame == wire + Stream(c, packets[..k + 1])
    ensures FrameBytes(c, packets[..k + 1]) == FrameBytes(c, packets[..k]) + |frame|
  {
    StreamAt(c, packets, k);
    FrameBytesAt(c, packets, k);
    Regrouped(wire, Stream(c, packets[..k]), frame, Stream(c, packets[..k + 1]));
  }

  /** What the receiver has been handed when the packets have been delivered. */
  function Handed<P>(c: Protocol<P>, packets: seq<P>): seq<P> {
    if c.hasReceiver then Messages(c, packets) else []
  }

  lemma OneHanded<P>(c: Protocol<P>, p: P)
    ensures Handed(c, [p]) == if c.hasReceiver && c.inspect(p).None? then [p] else []
  {
    MessagesAppend(c, [], p);
    assert [] + [p] == [p];
  }

  lemma HandedOneMore<P>(c: Protocol<P>, packets: seq<P>, d: nat, received: seq<P>)
    requires d < |packets|
    ensures (received + Handed(c, packets[..d])) + Handed(c, [packets[d]]) == received + Handed(c, packets[..d + 1])
  {
    var before, after, p := packets[..d], packets[..d + 1], packets[d];
    assert after == before + [p];
    MessagesAppend(c, before, p);
    OneHanded(c, p);
    Regrouped(received, Handed(c, before), Handed(c, [p]), Handed(c, after));
  }

  lemma Regrouped<T>(a: seq<T>, b: seq<T>, c: seq<T>, d: seq<T>)
    requires d == b + c
    ensures (a + b) + c == a + d
  {
  }

  lemma FrameBytesAt<P>(c: Protocol<P>, ps: seq<P>, k: nat)
    requires k < |ps|
    ensures FrameBytes(c, ps[..k + 1]) == FrameBytes(c, ps[..k]) + |FrameOf(c, ps[k])|
  {
    StreamAt(c, ps, k);
    StreamLength(c, ps[..k]);
    StreamLength(c, ps[..k + 1]);
  }
}
