/** Packets from one connection to its peer, `common/network/conn_impl.go`: any interleaving of
    `Send`/`TrySend` callers, the sender's write loop, the transport, which passes bytes on in
    pieces of any size, the peer's read loop and cancellation on either side. */
module ConnStream {

  import opened Basics

  /** What `Codec.Decode` makes of the bytes that have arrived: a frame of `n` bytes, an error,
      or no decision before more bytes have arrived. */
  datatype Decoded<+P> = Frame(packet: P, n: nat) | Bad | NeedMore

  datatype Heartbeat = Ping | Pong | Unknown

  /** The parties' shared codec and the peer's dependencies. Without a heartbeater `inspect`
      recognises nothing. */
  datatype Protocol<!P> = Protocol(
    encode: P -> Option<seq<Byte>>,
    decode: seq<Byte> -> Decoded<P>,
    inspect: P -> Option<Heartbeat>,
    hasReceiver: bool,
    queueSize: nat)

  /** What the codec must guarantee: it decodes what it encoded and leaves the rest. That Decode
      takes a reader means that it decides on the bytes it has read, whatever is behind them, and
      a decision takes at least one byte. */
  ghost predicate Lawful<P(!new)>(c: Protocol<P>) {
    && (forall p, rest :: c.encode(p).Some? ==>
          c.decode(c.encode(p).value + rest) == Frame(p, |c.encode(p).value|))
    && (forall x, y :: !c.decode(x).NeedMore? ==> c.decode(x + y) == c.decode(x))
    && (forall x :: c.decode(x).Frame? ==> c.decode(x).n <= |x|)
    && c.decode([]).NeedMore?
  }

  function FrameOf<P>(c: Protocol<P>, p: P): seq<Byte> {
    match c.encode(p) case Some(bytes) => bytes case None => []
  }

  ghost predicate Encodable<P>(c: Protocol<P>, ps: seq<P>) {
    forall i :: 0 <= i < |ps| ==> c.encode(ps[i]).Some?
  }

  /** The frames of the packets, back to back. */
  function Stream<P>(c: Protocol<P>, ps: seq<P>): seq<Byte> {
    if ps == [] then [] else FrameOf(c, ps[0]) + Stream(c, ps[1..])
  }

  function FrameBytes<P>(c: Protocol<P>, ps: seq<P>): nat {
    if ps == [] then 0 else |FrameOf(c, ps[0])| + FrameBytes(c, ps[1..])
  }

  /** The packets that are not heartbeats. */
  function Messages<P>(c: Protocol<P>, ps: seq<P>): seq<P> {
    if ps == [] then []
    else
      var last := |ps| - 1;
      Messages(c, ps[..last]) + (if c.inspect(ps[last]).Some? then [] else [ps[last]])
  }

  lemma Grouped(a: seq<Byte>, b: seq<Byte>, c: seq<Byte>)
    ensures a + (b + c) == (a + b) + c
  {
  }

  lemma {:induction false} StreamAppend<P>(c: Protocol<P>, a: seq<P>, b: seq<P>)
    ensures Stream(c, a + b) == Stream(c, a) + Stream(c, b)
  {
    if a == [] {
      assert a + b == b;
    } else {
      var rest := a[1..];
      StreamAppend(c, rest, b);
      assert a + b == [a[0]] + (rest + b);
      Grouped(FrameOf(c, a[0]), Stream(c, rest), Stream(c, b));
    }
  }

  lemma StreamOfOne<P>(c: Protocol<P>, p: P)
    ensures Stream(c, [p]) == FrameOf(c, p)
  {
    assert [p][1..] == [];
  }

  lemma {:induction false} StreamLength<P>(c: Protocol<P>, ps: seq<P>)
    ensures |Stream(c, ps)| == FrameBytes(c, ps)
  {
    if ps != [] {
      StreamLength(c, ps[1..]);
    }
  }

  /** The stream of `ps`, cut open at packet `k`. */
  lemma StreamAt<P>(c: Protocol<P>, ps: seq<P>, k: nat)
    requires k < |ps|
    ensures Stream(c, ps[..k + 1]) == Stream(c, ps[..k]) + FrameOf(c, ps[k])
    ensures Stream(c, ps) == Stream(c, ps[..k + 1]) + Stream(c, ps[k + 1..])
  {
    StreamAppend(c, ps[..k], [ps[k]]);
    StreamOfOne(c, ps[k]);
    assert ps[..k] + [ps[k]] == ps[..k + 1];
    StreamAppend(c, ps[..k + 1], ps[k + 1..]);
    assert ps[..k + 1] + ps[k + 1..] == ps;
  }

  // ---------------------------------------------------------------------------
  // The two ends and the wire
  // ---------------------------------------------------------------------------

  datatype Link<P> = Link(
    // sender
    accepted: seq<P>,              // packets whose Send or TrySend put them into the queue, in order
    queue: seq<seq<Byte>>,
    writing: Option<seq<Byte>>,    // the frame inside Transport.Write
    sent: seq<Byte>,               // the part of the last, unacknowledged frame that went out
    writerUp: bool, cancelled: bool,
    frames: nat, bytes: nat,       // write statistics
    // transport: everything that ever went out, and how much of it has arrived
    wire: seq<Byte>, arrived: nat,
    // peer
    consumed: nat,                 // bytes decoded
    decoded: seq<P>,
    pending: Option<P>,            // decoded, deliverPacket still to come
    delivered: seq<P>,             // handed to deliverPacket
    received: seq<P>,              // handed to Receiver.OnMessage
    readerUp: bool, peerCancelled: bool)

  predicate Init<P(==)>(s: Link<P>) {
    s == Link([], [], None, [], true, false, 0, 0, [], 0, 0, [], None, [], [], true, false)
  }

  datatype Step<P> =
    | Accept(packet: P)      // Send or TrySend succeeds
    | Cancel                 // the sender's context is cancelled
    | Dequeue                // the write loop takes a frame, and drops it when cancelled
    | Emit(k: nat)           // k more bytes of the frame go out
    | WriteSucceeds
    | WriteFails             // error, short write or panic, after any part of the frame
    | WriterStops            // the write loop observes the cancelled context
    | Arrive(k: nat)         // k more bytes reach the peer
    | PeerCancel
    | DecodeNext
    | DecodeFails
    | DropDecoded            // the read loop finds the context cancelled behind Decode
    | Deliver(fails: bool)   // deliverPacket; a failed Pong or a panicking receiver fails
    | ReaderStops            // transport error, or the cancelled context

  predicate Enabled<P>(c: Protocol<P>, s: Link<P>, step: Step<P>) {
    match step
    case Accept(p) => c.encode(p).Some? && |s.queue| < c.queueSize
    case Cancel => true
    case Dequeue => s.writerUp && s.writing.None? && s.queue != []
    case Emit(k) => s.writing.Some? && |s.sent| + k <= |s.writing.value|
    case WriteSucceeds => s.writing.Some? && |s.sent| == |s.writing.value|
    case WriteFails => s.writing.Some?
    case WriterStops => s.writerUp && s.writing.None? && s.cancelled
    case Arrive(k) => s.arrived + k <= |s.wire|
    case PeerCancel => true
    case DecodeNext =>
      s.readerUp && s.pending.None? && s.consumed <= s.arrived <= |s.wire|
      && c.decode(s.wire[s.consumed..s.arrived]).Frame?
    case DecodeFails =>
      s.readerUp && s.pending.None? && s.consumed <= s.arrived <= |s.wire|
      && c.decode(s.wire[s.consumed..s.arrived]).Bad?
    case DropDecoded => s.pending.Some? && s.peerCancelled
    case Deliver(_) => s.pending.Some?
    case ReaderStops => s.readerUp && s.pending.None?
  }

  /** deliverPacket: a heartbeat is not for the receiver, and one of an unknown kind is an error. */
  function Delivered<P>(c: Protocol<P>, s: Link<P>, fails: bool): Link<P>
    requires s.pending.Some?
  {
    var p := s.pending.value;
    var kind := c.inspect(p);
    s.(pending := None,
       delivered := s.delivered + [p],
       received := if kind.None? && c.hasReceiver then s.received + [p] else s.received,
       readerUp :=
         if kind == Some(Unknown) then false
         else if kind == Some(Pong) || (kind.None? && !c.hasReceiver) then true
         else !fails)
  }

  function Do<P>(c: Protocol<P>, s: Link<P>, step: Step<P>): Link<P>
    requires Enabled(c, s, step)
  {
    match step
    case Accept(p) => s.(accepted := s.accepted + [p], queue := s.queue + [FrameOf(c, p)])
    case Cancel => s.(cancelled := true)
    case Dequeue =>
      if s.cancelled then s.(queue := s.queue[1..], writerUp := false)
      else s.(queue := s.queue[1..], writing := Some(s.queue[0]), sent := [])
    case Emit(k) =>
      var out := s.writing.value[|s.sent|..|s.sent| + k];
      s.(sent := s.sent + out, wire := s.wire + out)
    case WriteSucceeds =>
      s.(writing := None, sent := [], frames := s.frames + 1, bytes := s.bytes + |s.writing.value|)
    case WriteFails => s.(writing := None, writerUp := false, cancelled := true)
    case WriterStops => s.(writerUp := false)
    case Arrive(k) => s.(arrived := s.arrived + k)
    case PeerCancel => s.(peerCancelled := true)
    case DecodeNext =>
      var f := c.decode(s.wire[s.consumed..s.arrived]);
      s.(consumed := s.consumed + f.n, decoded := s.decoded + [f.packet], pending := Some(f.packet))
    case DecodeFails => s.(readerUp := false, peerCancelled := true)
    case DropDecoded => s.(pending := None, readerUp := false)
    case Deliver(fails) => Delivered(c, s, fails)
    case ReaderStops => s.(readerUp := false)
  }

  ghost predicate Next<P(!new)>(c: Protocol<P>, s: Link<P>, s': Link<P>) {
    exists step :: Enabled(c, s, step) && s' == Do(c, s, step)
  }

  ghost predicate StepAt<P(!new)>(c: Protocol<P>, run: seq<Link<P>>, i: nat)
    requires i + 1 < |run|
  {
    Next(c, run[i], run[i + 1])
  }

  ghost predicate Execution<P(!new)>(c: Protocol<P>, run: seq<Link<P>>) {
    && run != [] && Init(run[0])
    && forall i :: 0 <= i < |run| - 1 ==> StepAt(c, run, i)
  }

  // ---------------------------------------------------------------------------
  // The invariant
  // ---------------------------------------------------------------------------

  /** What has been dequeued, and the queue, are the accepted packets in order. */
  ghost predicate QueueInv<P>(c: Protocol<P>, s: Link<P>) {
    && Encodable(c, s.accepted)
    && |s.queue| <= |s.accepted|
    && (forall i :: 0 <= i < |s.queue| ==>
          s.queue[i] == FrameOf(c, s.accepted[|s.accepted| - |s.queue| + i]))
    && s.frames + (if s.writing.Some? then 1 else 0) <= |s.accepted| - |s.queue|
    && (s.writerUp ==> s.frames + (if s.writing.Some? then 1 else 0) == |s.accepted| - |s.queue|)
    && (s.writing.Some? ==> s.writerUp && s.writing.value == FrameOf(c, s.accepted[s.frames]))
  }

  /** The wire carries whole frames and then perhaps a part of the next one. */
  ghost predicate WireInv<P>(c: Protocol<P>, s: Link<P>) {
    && s.frames <= |s.accepted|
    && (if s.frames < |s.accepted| then s.sent <= FrameOf(c, s.accepted[s.frames]) else s.sent == [])
    && (s.writerUp && s.writing.None? ==> s.sent == [])
    && s.wire == Stream(c, s.accepted[..s.frames]) + s.sent
    && s.bytes == |Stream(c, s.accepted[..s.frames])|
  }

  ghost predicate PeerInv<P>(c: Protocol<P>, s: Link<P>) {
    && s.decoded <= s.accepted
    && s.consumed == |Stream(c, s.decoded)|
    && s.consumed <= s.arrived <= |s.wire|
  }

  ghost predicate DeliveryInv<P>(c: Protocol<P>, s: Link<P>) {
    && s.delivered <= s.decoded
    && |s.decoded| <= |s.delivered| + 1
    && (s.pending.Some? ==> s.readerUp && s.decoded == s.delivered + [s.pending.value])
    && (s.readerUp && s.pending.None? ==> s.delivered == s.decoded)
    && s.received == (if c.hasReceiver then Messages(c, s.delivered) else [])
  }

  ghost predicate Inv<P>(c: Protocol<P>, s: Link<P>) {
    QueueInv(c, s) && WireInv(c, s) && PeerInv(c, s) && DeliveryInv(c, s)
  }

  /** The wire is always a prefix of the stream of all accepted packets. */
  lemma WireIsPrefix<P>(c: Protocol<P>, s: Link<P>)
    requires WireInv(c, s)
    ensures s.wire <= Stream(c, s.accepted)
  {
    if s.frames < |s.accepted| {
      StreamAt(c, s.accepted, s.frames);
    } else {
      assert s.accepted[..s.frames] == s.accepted;
    }
  }

  /** From the bytes behind the packets decoded so far, Decode gets the next accepted packet or
      nothing yet. It gets it as soon as the whole frame has arrived, and it never fails. */
  lemma DecodesTheNext<P(!new)>(c: Protocol<P>, ps: seq<P>, window: seq<Byte>)
    requires Lawful(c) && Encodable(c, ps) && window <= Stream(c, ps)
    ensures !c.decode(window).Bad?
    ensures c.decode(window).Frame? <==> ps != [] && |FrameOf(c, ps[0])| <= |window|
    ensures c.decode(window).Frame? ==> c.decode(window) == Frame(ps[0], |FrameOf(c, ps[0])|) && FrameOf(c, ps[0]) != []
  {
    if ps == [] {
      assert window == [];
    } else {
      var p, frame := ps[0], FrameOf(c, ps[0]);
      assert c.encode(p) == Some(frame);
      assert c.decode(frame + []) == Frame(p, |frame|);
      assert frame + [] == frame;
      if |frame| <= |window| {
        assert window == frame + window[|frame|..];
      } else {
        assert window + frame[|window|..] == frame;
      }
    }
  }

  lemma {:induction false} MessagesAppend<P>(c: Protocol<P>, ps: seq<P>, p: P)
    ensures Messages(c, ps + [p]) == Messages(c, ps) + (if c.inspect(p).Some? then [] else [p])
  {
    assert (ps + [p])[..|ps|] == ps;
  }

  /** What the peer still has to decode, and the step it takes there. */
  lemma WindowOfPeer<P(!new)>(c: Protocol<P>, s: Link<P>)
    requires Lawful(c) && Inv(c, s)
    ensures var ps, window := s.accepted[|s.decoded|..], s.wire[s.consumed..s.arrived];
            && window <= Stream(c, ps) && Encodable(c, ps)
            && !c.decode(window).Bad?
            && (c.decode(window).Frame? <==> ps != [] && |FrameOf(c, ps[0])| <= |window|)
            && (c.decode(window).Frame? ==> c.decode(window) == Frame(ps[0], |FrameOf(c, ps[0])|))
  {
    var ps := s.accepted[|s.decoded|..];
    WireIsPrefix(c, s);
    assert s.accepted == s.decoded + ps;
    StreamAppend(c, s.decoded, ps);
    WindowIsAhead(Stream(c, s.decoded), Stream(c, ps), s.wire, s.arrived);
    DecodesTheNext(c, ps, s.wire[s.consumed..s.arrived]);
  }

  lemma WindowIsAhead(behind: seq<Byte>, ahead: seq<Byte>, wire: seq<Byte>, arrived: nat)
    requires |behind| <= arrived <= |wire| && wire <= behind + ahead
    ensures wire[|behind|..arrived] <= ahead
  {
    assert wire == (behind + ahead)[..|wire|];
  }

  predicate SenderStep<P>(step: Step<P>) {
    step.Accept? || step.Cancel? || step.Dequeue? || step.Emit? || step.WriteSucceeds? || step.WriteFails?
    || step.WriterStops?
  }

  lemma SenderStepKeepsQueue<P>(c: Protocol<P>, s: Link<P>, step: Step<P>)
    requires QueueInv(c, s) && SenderStep(step) && Enabled(c, s, step)
    ensures QueueInv(c, Do(c, s, step))
  {
    if step.Dequeue? {
      DequeueKeepsQueue(c, s);
    } else if step.Accept? {
      assert Do(c, s, step).accepted[..|s.accepted|] == s.accepted;
    }
  }

  lemma DequeueKeepsQueue<P>(c: Protocol<P>, s: Link<P>)
    requires QueueInv(c, s) && Enabled(c, s, Dequeue)
    ensures QueueInv(c, Do(c, s, Dequeue))
  {
  }

  lemma OutGoesOn(before: seq<Byte>, frame: seq<Byte>, sent: seq<Byte>, out: seq<Byte>)
    requires sent <= frame && |sent| + |out| <= |frame| && out == frame[|sent|..|sent| + |out|]
    ensures sent + out <= frame && (before + sent) + out == before + (sent + out)
  {
  }

  lemma SenderStepKeepsWire<P>(c: Protocol<P>, s: Link<P>, step: Step<P>)
    requires QueueInv(c, s) && WireInv(c, s) && SenderStep(step) && Enabled(c, s, step)
    ensures WireInv(c, Do(c, s, step)) && s.wire <= Do(c, s, step).wire
  {
    match step
    case Accept(p) => assert (s.accepted + [p])[..s.frames] == s.accepted[..s.frames];
    case Emit(k) =>
      var out := s.writing.value[|s.sent|..|s.sent| + k];
      OutGoesOn(Stream(c, s.accepted[..s.frames]), s.writing.value, s.sent, out);
    case WriteSucceeds =>
      StreamAt(c, s.accepted, s.frames);
      assert s.sent == s.writing.value;
    case _ =>
  }

  lemma SenderStepKeepsPeer<P>(c: Protocol<P>, s: Link<P>, step: Step<P>)
    requires Inv(c, s) && SenderStep(step) && Enabled(c, s, step)
    ensures PeerInv(c, Do(c, s, step)) && DeliveryInv(c, Do(c, s, step))
  {
    SenderStepKeepsWire(c, s, step);
  }

  lemma PeerStepFrame<P>(c: Protocol<P>, s: Link<P>, step: Step<P>)
    requires !SenderStep(step) && Enabled(c, s, step)
    ensures var t := Do(c, s, step);
            && t.accepted == s.accepted && t.queue == s.queue && t.writing == s.writing && t.sent == s.sent
            && t.writerUp == s.writerUp && t.frames == s.frames && t.bytes == s.bytes && t.wire == s.wire
  {
  }

  lemma PeerStepKeepsSender<P>(c: Protocol<P>, s: Link<P>, step: Step<P>)
    requires QueueInv(c, s) && WireInv(c, s) && !SenderStep(step) && Enabled(c, s, step)
    ensures QueueInv(c, Do(c, s, step)) && WireInv(c, Do(c, s, step))
  {
    PeerStepFrame(c, s, step);
  }

  lemma PeerStepKeepsDelivery<P>(c: Protocol<P>, s: Link<P>, step: Step<P>)
    requires DeliveryInv(c, s) && !SenderStep(step) && Enabled(c, s, step)
    ensures DeliveryInv(c, Do(c, s, step))
  {
    match step
    case Deliver(fails) =>
      MessagesAppend(c, s.delivered, s.pending.value);
      assert s.delivered + [s.pending.value] == s.decoded;
    case DecodeNext =>
      assert s.decoded == s.delivered;
    case _ =>
  }

  lemma OneMoreDecoded<P>(c: Protocol<P>, accepted: seq<P>, decoded: seq<P>, more: seq<P>)
    requires decoded <= accepted && |decoded| < |accepted| && more == decoded + [accepted[|decoded|]]
    ensures more <= accepted
    ensures |Stream(c, more)| == |Stream(c, decoded)| + |FrameOf(c, accepted[|decoded|])|
  {
    var p := accepted[|decoded|];
    StreamAppend(c, decoded, [p]);
    StreamOfOne(c, p);
    assert accepted[..|more|] == more;
  }

  lemma DecodeKeepsOrder<P(!new)>(c: Protocol<P>, s: Link<P>)
    requires Lawful(c) && Inv(c, s) && Enabled(c, s, DecodeNext)
    ensures PeerInv(c, Do(c, s, DecodeNext))
  {
    WindowOfPeer(c, s);
    var d, t := |s.decoded|, Do(c, s, DecodeNext);
    var p := s.accepted[d];
    assert s.accepted[d..][0] == p;
    assert t.decoded == s.decoded + [p] && t.consumed == s.consumed + |FrameOf(c, p)| <= s.arrived;
    OneMoreDecoded(c, s.accepted, s.decoded, t.decoded);
  }

  lemma PeerStepKeepsOrder<P(!new)>(c: Protocol<P>, s: Link<P>, step: Step<P>)
    requires Lawful(c) && Inv(c, s) && !SenderStep(step) && Enabled(c, s, step)
    ensures PeerInv(c, Do(c, s, step))
  {
    if step.DecodeNext? {
      DecodeKeepsOrder(c, s);
    }
  }

  lemma StepInv<P(!new)>(c: Protocol<P>, s: Link<P>, step: Step<P>)
    requires Lawful(c) && Inv(c, s) && Enabled(c, s, step)
    ensures Inv(c, Do(c, s, step))
  {
    if SenderStep(step) {
      SenderStepKeepsQueue(c, s, step);
      SenderStepKeepsWire(c, s, step);
      SenderStepKeepsPeer(c, s, step);
    } else {
      PeerStepKeepsSender(c, s, step);
      PeerStepKeepsDelivery(c, s, step);
      PeerStepKeepsOrder(c, s, step);
    }
  }

  lemma {:induction false} ExecutionInv<P(!new)>(c: Protocol<P>, run: seq<Link<P>>, i: nat)
    requires Lawful(c) && Execution(c, run) && i < |run|
    ensures Inv(c, run[i])
  {
    if i > 0 {
      ExecutionInv(c, run, i - 1);
      assert StepAt(c, run, i - 1);
      var step :| Enabled(c, run[i - 1], step) && run[i] == Do(c, run[i - 1], step);
      StepInv(c, run[i - 1], step);
    }
  }

  // ---------------------------------------------------------------------------
  // End to end
  // ---------------------------------------------------------------------------

  /** At every moment of every interleaving, the packets the peer has decoded are a prefix of
      those accepted, and its receiver has got exactly the messages among those delivered: all
      decoded ones but perhaps the last. */
  lemma PeerGetsPrefix<P(!new)>(c: Protocol<P>, run: seq<Link<P>>, i: nat)
    requires Lawful(c) && Execution(c, run) && i < |run|
    ensures run[i].decoded <= run[i].accepted
    ensures run[i].delivered <= run[i].accepted
    ensures run[i].delivered <= run[i].decoded && |run[i].decoded| <= |run[i].delivered| + 1
    ensures run[i].received == if c.hasReceiver then Messages(c, run[i].delivered) else []
    ensures !Enabled(c, run[i], DecodeFails)
  {
    ExecutionInv(c, run, i);
    WindowOfPeer(c, run[i]);
  }

  /** The write statistics are the number and the byte sum of the frames written in full; what
      the wire carries beyond them is a part of the next frame. */
  lemma StatisticsCountWholeFrames<P(!new)>(c: Protocol<P>, run: seq<Link<P>>, i: nat)
    requires Lawful(c) && Execution(c, run) && i < |run|
    ensures var s := run[i];
            && s.frames <= |s.accepted|
            && s.bytes == FrameBytes(c, s.accepted[..s.frames])
            && s.wire == Stream(c, s.accepted[..s.frames]) + s.sent
            && (if s.frames < |s.accepted| then s.sent <= FrameOf(c, s.accepted[s.frames]) else s.sent == [])
  {
    ExecutionInv(c, run, i);
    StreamLength(c, run[i].accepted[..run[i].frames]);
  }

  lemma NextFrameIsOut<P>(c: Protocol<P>, s: Link<P>)
    requires Inv(c, s) && |s.decoded| < s.frames
    ensures s.consumed + |FrameOf(c, s.accepted[|s.decoded|..][0])| <= |s.wire|
  {
    var d, written := |s.decoded|, s.accepted[..s.frames];
    StreamAt(c, written, d);
    assert written[..d] == s.decoded;
    assert written[d] == s.accepted[d];
  }

  /** A peer that has got all bytes and waits for more has delivered every frame written in full. */
  lemma NothingIsHeldBack<P(!new)>(c: Protocol<P>, run: seq<Link<P>>, i: nat)
    requires Lawful(c) && Execution(c, run) && i < |run|
    requires run[i].readerUp && run[i].pending.None? && run[i].arrived == |run[i].wire|
    requires !Enabled(c, run[i], DecodeNext)
    ensures run[i].frames <= |run[i].delivered|
  {
    var s := run[i];
    ExecutionInv(c, run, i);
    WindowOfPeer(c, s);
    if |s.decoded| < s.frames {
      NextFrameIsOut(c, s);
    }
  }

  // ---------------------------------------------------------------------------
  // And everything can arrive
  // ---------------------------------------------------------------------------

  /** Nobody has cancelled, nothing has failed, and no accepted packet is an invalid heartbeat. */
  predicate Undisturbed<P>(c: Protocol<P>, s: Link<P>) {
    && !s.cancelled && !s.peerCancelled && s.writerUp && s.readerUp
    && forall i :: 0 <= i < |s.accepted| ==> c.inspect(s.accepted[i]) != Some(Unknown)
  }

  /** The write loop drops a frame, or ends, only after a cancellation. */
  lemma {:induction false} WriterEndsOnlyCancelled<P(!new)>(c: Protocol<P>, run: seq<Link<P>>, i: nat)
    requires Lawful(c) && Execution(c, run) && i < |run| && !run[i].cancelled
    ensures var s := run[i];
            s.writerUp && s.frames + (if s.writing.Some? then 1 else 0) + |s.queue| == |s.accepted|
  {
    ExecutionInv(c, run, i);
    WriterIsUp(c, run, i);
  }

  lemma {:induction false} WriterIsUp<P(!new)>(c: Protocol<P>, run: seq<Link<P>>, i: nat)
    requires Execution(c, run) && i < |run| && !run[i].cancelled
    ensures run[i].writerUp
  {
    if i > 0 {
      assert StepAt(c, run, i - 1);
      var step :| Enabled(c, run[i - 1], step) && run[i] == Do(c, run[i - 1], step);
      WriterStaysUp(c, run[i - 1], step);
      if !run[i - 1].cancelled {
        WriterIsUp(c, run, i - 1);
      }
    }
  }

  lemma WriterStaysUp<P>(c: Protocol<P>, s: Link<P>, step: Step<P>)
    requires Enabled(c, s, step)
    ensures s.cancelled ==> Do(c, s, step).cancelled
    ensures s.writerUp && !Do(c, s, step).cancelled ==> Do(c, s, step).writerUp
  {
  }

  /** And the read loop ends only because the transport does, because the peer has cancelled, or
      because a delivery fails: an invalid heartbeat, a Pong that is not sent, a receiver that
      panics. */
  lemma ReaderEndsOnlyThen<P(!new)>(c: Protocol<P>, s: Link<P>, step: Step<P>)
    requires Lawful(c) && Inv(c, s) && Enabled(c, s, step) && s.readerUp && !Do(c, s, step).readerUp
    ensures match step
            case ReaderStops => true
            case DropDecoded => s.peerCancelled
            case Deliver(fails) =>
              (match c.inspect(s.pending.value)
               case Some(Unknown) => true
               case Some(Ping) => fails
               case Some(Pong) => false
               case None => fails && c.hasReceiver)
            case _ => false
  {
    WindowOfPeer(c, s);
  }

  /** A delivery ends the read loop exactly then. */
  lemma DeliveryDecides<P>(c: Protocol<P>, s: Link<P>, fails: bool)
    requires DeliveryInv(c, s) && Enabled(c, s, Deliver(fails))
    ensures !Do(c, s, Deliver(fails)).readerUp <==>
            (match c.inspect(s.pending.value)
             case Some(Unknown) => true
             case Some(Ping) => fails
             case Some(Pong) => false
             case None => fails && c.hasReceiver)
  {
  }

  /** Once the sender has cancelled, which it can at any time, no further frame is begun. */
  lemma {:induction false} CancelStopsWriting<P(!new)>(c: Protocol<P>, run: seq<Link<P>>, i: nat, j: nat)
    requires Lawful(c) && Execution(c, run) && i <= j < |run|
    requires run[i].cancelled || (i > 0 && run[i] == Do(c, run[i - 1], Cancel))
    ensures run[j].cancelled
    ensures run[j].frames + (if run[j].writing.Some? then 1 else 0)
         <= run[i].frames + (if run[i].writing.Some? then 1 else 0)
    decreases j
  {
    if i < j {
      CancelStopsWriting(c, run, i, j - 1);
      assert StepAt(c, run, j - 1);
      var step :| Enabled(c, run[j - 1], step) && run[j] == Do(c, run[j - 1], step);
      CancelledStep(c, run[j - 1], step);
    }
  }

  lemma CancelledStep<P>(c: Protocol<P>, s: Link<P>, step: Step<P>)
    requires s.cancelled && Enabled(c, s, step)
    ensures var t := Do(c, s, step);
            && t.cancelled
            && t.frames + (if t.writing.Some? then 1 else 0) <= s.frames + (if s.writing.Some? then 1 else 0)
  {
  }

  /** And once the peer has, at most the packet in hand is still delivered. */
  lemma PeerCancelIsFinal<P>(c: Protocol<P>, s: Link<P>, step: Step<P>)
    requires Enabled(c, s, step)
    ensures step == PeerCancel || s.peerCancelled ==> Do(c, s, step).peerCancelled
    ensures s.pending.Some? && s.peerCancelled ==> Enabled(c, s, DropDecoded) && !Do(c, s, DropDecoded).readerUp
  {
  }

  /** No more frames wait than the queue has room for. */
  lemma {:induction false} QueueIsBounded<P(!new)>(c: Protocol<P>, run: seq<Link<P>>, i: nat)
    requires Execution(c, run) && i < |run|
    ensures |run[i].queue| <= c.queueSize
  {
    if i > 0 {
      assert StepAt(c, run, i - 1);
      var step :| Enabled(c, run[i - 1], step) && run[i] == Do(c, run[i - 1], step);
      QueueIsBounded(c, run, i - 1);
      QueueStaysBounded(c, run[i - 1], step);
    }
  }

  lemma QueueStaysBounded<P>(c: Protocol<P>, s: Link<P>, step: Step<P>)
    requires |s.queue| <= c.queueSize && Enabled(c, s, step)
    ensures |Do(c, s, step).queue| <= c.queueSize
  {
  }

  /** What is left to do until every accepted packet is delivered. */
  function Work<P>(c: Protocol<P>, s: Link<P>): int {
    3 * |s.queue|
    + (match s.writing case None => 0 case Some(frame) => if |s.sent| < |frame| then 2 else 1)
    + |Stream(c, s.accepted)| - s.arrived
    + 2 * (|s.accepted| - |s.decoded|) + (if s.pending.Some? then 1 else 0)
  }

  lemma WorkIsLeft<P(!new)>(c: Protocol<P>, s: Link<P>)
    requires Inv(c, s)
    ensures Work(c, s) >= 0
  {
    WireIsPrefix(c, s);
  }

  /** The sender's part: frames go out. */
  function SenderTask<P>(s: Link<P>): Option<Step<P>> {
    match s.writing
    case Some(frame) => Some(if |s.sent| < |frame| then Emit(|frame| - |s.sent|) else WriteSucceeds)
    case None => if s.queue != [] then Some(Dequeue) else None
  }

  lemma SenderWorks<P(!new)>(c: Protocol<P>, s: Link<P>)
    requires Inv(c, s) && Undisturbed(c, s) && SenderTask(s).Some?
    ensures var step := SenderTask(s).value;
            && Enabled(c, s, step) && Undisturbed(c, Do(c, s, step)) && Do(c, s, step).accepted == s.accepted
            && Work(c, Do(c, s, step)) < Work(c, s)
  {
  }

  lemma PeerWorks<P(!new)>(c: Protocol<P>, s: Link<P>, step: Step<P>)
    requires Lawful(c) && Inv(c, s) && Undisturbed(c, s) && Enabled(c, s, step)
    requires step in {DecodeNext, Deliver(false)} || (step.Arrive? && step.k > 0)
    ensures Undisturbed(c, Do(c, s, step)) && Do(c, s, step).accepted == s.accepted
    ensures Work(c, Do(c, s, step)) < Work(c, s)
  {
    PeerStepFrame(c, s, step);
    if step.Deliver? {
      assert s.pending.value == s.accepted[|s.decoded| - 1];
    }
  }

  /** What is left to do can be done. */
  lemma NextTask<P(!new)>(c: Protocol<P>, s: Link<P>) returns (step: Step<P>)
    requires Lawful(c) && Inv(c, s) && Undisturbed(c, s) && s.delivered != s.accepted
    ensures Enabled(c, s, step) && Undisturbed(c, Do(c, s, step)) && Do(c, s, step).accepted == s.accepted
    ensures Work(c, Do(c, s, step)) < Work(c, s)
  {
    if SenderTask(s).Some? {
      step := SenderTask(s).value;
      SenderWorks(c, s);
    } else {
      if s.pending.Some? {
        step := Deliver(false);
      } else if s.arrived < |s.wire| {
        step := Arrive(|s.wire| - s.arrived);
      } else {
        WindowOfPeer(c, s);
        assert s.frames == |s.accepted|;
        NextFrameIsOut(c, s);
        step := DecodeNext;
      }
      PeerWorks(c, s, step);
    }
  }

  /** From every moment at which nobody has cancelled and nothing has failed, the run can go on to
      one at which every accepted packet is delivered. */
  lemma {:induction false} EverythingCanArrive<P(!new)>(c: Protocol<P>, run: seq<Link<P>>) returns (longer: seq<Link<P>>)
    requires Lawful(c) && Execution(c, run) && Undisturbed(c, run[|run| - 1])
    ensures Execution(c, longer) && run <= longer && |longer| - |run| <= Work(c, run[|run| - 1])
    ensures var last := longer[|longer| - 1];
            last.accepted == run[|run| - 1].accepted && last.delivered == last.accepted
    decreases Work(c, run[|run| - 1])
  {
    longer := run;
    if run[|run| - 1].delivered != run[|run| - 1].accepted {
      var next := OneTaskMore(c, run);
      longer := EverythingCanArrive(c, next);
    } else {
      ExecutionInv(c, run, |run| - 1);
      WorkIsLeft(c, run[|run| - 1]);
    }
  }

  /** So a packet that is sent while nothing is disturbed can arrive: behind all packets sent before
      it, and at the receiver, unless it is a heartbeat. */
  lemma SentCanBeReceived<P(!new)>(c: Protocol<P>, run: seq<Link<P>>, p: P) returns (longer: seq<Link<P>>)
    requires Lawful(c) && Execution(c, run) && Undisturbed(c, run[|run| - 1])
    requires c.encode(p).Some? && c.inspect(p) != Some(Unknown) && |run[|run| - 1].queue| < c.queueSize
    ensures Execution(c, longer) && run <= longer
    ensures var last := longer[|longer| - 1];
            && last.delivered == run[|run| - 1].accepted + [p]
            && (c.hasReceiver && c.inspect(p) == None ==> last.received != [] && last.received[|last.received| - 1] == p)
  {
    var sent := OneStepMore(c, run, Accept(p));
    longer := EverythingCanArrive(c, sent);
    PeerGetsPrefix(c, longer, |longer| - 1);
    MessagesAppend(c, run[|run| - 1].accepted, p);
  }

  lemma OneTaskMore<P(!new)>(c: Protocol<P>, run: seq<Link<P>>) returns (next: seq<Link<P>>)
    requires Lawful(c) && Execution(c, run) && Undisturbed(c, run[|run| - 1])
    requires run[|run| - 1].delivered != run[|run| - 1].accepted
    ensures Execution(c, next) && |next| == |run| + 1 && run <= next
    ensures Undisturbed(c, next[|run|]) && next[|run|].accepted == run[|run| - 1].accepted
    ensures 0 <= Work(c, next[|run|]) < Work(c, run[|run| - 1])
  {
    var s := run[|run| - 1];
    ExecutionInv(c, run, |run| - 1);
    var step := NextTask(c, s);
    StepInv(c, s, step);
    WorkIsLeft(c, Do(c, s, step));
    next := OneStepMore(c, run, step);
  }

  lemma OneStepMore<P(!new)>(c: Protocol<P>, run: seq<Link<P>>, step: Step<P>) returns (next: seq<Link<P>>)
    requires Execution(c, run) && Enabled(c, run[|run| - 1], step)
    ensures Execution(c, next) && |next| == |run| + 1 && run <= next && next[|run|] == Do(c, run[|run| - 1], step)
  {
    next := run + [Do(c, run[|run| - 1], step)];
    forall i | 0 <= i < |next| - 1
      ensures StepAt(c, next, i)
    {
      assert i < |run| - 1 ==> StepAt(c, run, i);
    }
  }
}
