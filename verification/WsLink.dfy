/** Two connections over a WebSocket: the ends of `ConnStream` with the messages of
    `common/network/ws_impl.go:37-110` between them in place of a byte stream. */
module WsLinks {

  import opened Basics
  import opened ConnStream
  import opened WsTransports

  /** The wire of the sender is what it has put into messages, and the wire of the peer what it
      has read out of them. */
  datatype WsLink<P> = WsLink(
    sender: Link<P>,
    peer: Link<P>,
    incoming: seq<Message>,   // messages the peer has not begun
    unread: seq<Byte>)        // what is left of the one it has begun

  datatype WsStep<P> =
    | AtSender(step: Step<P>)
    | PutMessage(k: nat)      // the next k bytes of the frame in one binary message
    | NextReader              // the peer begins a message, the last one being at its end
    | ReadMessage(k: nat)     // the peer's read returns k bytes
    | AtPeer(step: Step<P>)

  predicate WsInit<P(==)>(w: WsLink<P>) {
    Init(w.sender) && Init(w.peer) && w.incoming == [] && w.unread == []
  }

  predicate WsEnabled<P>(c: Protocol<P>, w: WsLink<P>, step: WsStep<P>) {
    match step
    case AtSender(s) => SenderStep(s) && !s.Emit? && Enabled(c, w.sender, s)
    case PutMessage(k) => Enabled(c, w.sender, Emit(k))
    case NextReader => w.unread == [] && w.incoming != [] && w.incoming[0].binary
    case ReadMessage(k) => k <= |w.unread|
    case AtPeer(s) => !SenderStep(s) && !s.Arrive? && Enabled(c, w.peer, s)
  }

  function WsDo<P>(c: Protocol<P>, w: WsLink<P>, step: WsStep<P>): WsLink<P>
    requires WsEnabled(c, w, step)
  {
    match step
    case AtSender(s) => w.(sender := Do(c, w.sender, s))
    case PutMessage(k) =>
      var out := w.sender.writing.value[|w.sender.sent|..|w.sender.sent| + k];
      w.(sender := Do(c, w.sender, Emit(k)), incoming := w.incoming + [Message(true, out)])
    case NextReader => w.(unread := w.incoming[0].payload, incoming := w.incoming[1..])
    case ReadMessage(k) =>
      w.(peer := w.peer.(wire := w.peer.wire + w.unread[..k], arrived := w.peer.arrived + k), unread := w.unread[k..])
    case AtPeer(s) => w.(peer := Do(c, w.peer, s))
  }

  ghost predicate WsStepAt<P(!new)>(c: Protocol<P>, run: seq<WsLink<P>>, i: nat)
    requires i + 1 < |run|
  {
    exists step :: WsEnabled(c, run[i], step) && run[i + 1] == WsDo(c, run[i], step)
  }

  ghost predicate WsExecution<P(!new)>(c: Protocol<P>, run: seq<WsLink<P>>) {
    && run != [] && WsInit(run[0])
    && forall i :: 0 <= i < |run| - 1 ==> WsStepAt(c, run, i)
  }

  // ---------------------------------------------------------------------------
  // The messages are a byte stream
  // ---------------------------------------------------------------------------

  /** What the peer has read and what it can still read is what the sender has put in. */
  ghost predicate Carried<P>(w: WsLink<P>) {
    && AllBinary(w.incoming)
    && w.sender.wire == w.peer.wire + (w.unread + Payload(w.incoming))
    && w.peer.arrived == |w.peer.wire|
  }

  /** The two ends as one link over a byte transport. */
  ghost function AsLink<P>(w: WsLink<P>): Link<P> {
    w.peer.(accepted := w.sender.accepted, queue := w.sender.queue, writing := w.sender.writing,
            sent := w.sender.sent, writerUp := w.sender.writerUp, cancelled := w.sender.cancelled,
            frames := w.sender.frames, bytes := w.sender.bytes, wire := w.sender.wire)
  }

  lemma Appended(read: seq<Byte>, unread: seq<Byte>, later: seq<Byte>, out: seq<Byte>)
    ensures (read + (unread + later)) + out == read + (unread + (later + out))
  {
  }

  lemma MovedOn(read: seq<Byte>, unread: seq<Byte>, later: seq<Byte>, k: nat)
    requires k <= |unread|
    ensures read + (unread + later) == (read + unread[..k]) + (unread[k..] + later)
  {
    assert unread == unread[..k] + unread[k..];
  }

  lemma StepCarries<P>(c: Protocol<P>, w: WsLink<P>, step: WsStep<P>)
    requires Carried(w) && WsEnabled(c, w, step)
    ensures Carried(WsDo(c, w, step))
  {
    match step
    case AtSender(s) =>
      assert Do(c, w.sender, s).wire == w.sender.wire;
    case PutMessage(k) =>
      var out := w.sender.writing.value[|w.sender.sent|..|w.sender.sent| + k];
      PayloadAppend(w.incoming, out);
      Appended(w.peer.wire, w.unread, Payload(w.incoming), out);
    case NextReader =>
      assert [] + Payload(w.incoming) == Payload(w.incoming);
    case ReadMessage(k) =>
      MovedOn(w.peer.wire, w.unread, Payload(w.incoming), k);
    case AtPeer(s) =>
      PeerStepFrame(c, w.peer, s);
      assert Do(c, w.peer, s).arrived == w.peer.arrived;
  }

  lemma SameWindow(wire: seq<Byte>, read: seq<Byte>, later: seq<Byte>, consumed: nat)
    requires wire == read + later && consumed <= |read|
    ensures wire[consumed..|read|] == read[consumed..|read|]
  {
  }

  /** What the peer can do over the messages, it can do over the byte transport, with the same
      effect. */
  lemma PeerStepRefines<P>(c: Protocol<P>, w: WsLink<P>, step: Step<P>)
    requires Carried(w) && WsEnabled(c, w, AtPeer(step))
    ensures Enabled(c, AsLink(w), step) && Do(c, AsLink(w), step) == AsLink(WsDo(c, w, AtPeer(step)))
  {
    if w.peer.consumed <= w.peer.arrived {
      SameWindow(w.sender.wire, w.peer.wire, w.unread + Payload(w.incoming), w.peer.consumed);
    }
  }

  lemma SenderStepRefines<P>(c: Protocol<P>, w: WsLink<P>, step: Step<P>, w': WsLink<P>)
    requires SenderStep(step) && Enabled(c, w.sender, step)
    requires w'.sender == Do(c, w.sender, step) && w'.peer == w.peer
    ensures Enabled(c, AsLink(w), step) && Do(c, AsLink(w), step) == AsLink(w')
  {
  }

  /** Every step over the messages is a step over a byte transport, or does not show there. */
  lemma StepRefines<P(!new)>(c: Protocol<P>, w: WsLink<P>, step: WsStep<P>)
    requires Carried(w) && WsEnabled(c, w, step)
    ensures var s, s' := AsLink(w), AsLink(WsDo(c, w, step)); s' == s || Next(c, s, s')
  {
    var s, s' := AsLink(w), AsLink(WsDo(c, w, step));
    match step
    case AtSender(x) =>
      SenderStepRefines(c, w, x, w.(sender := Do(c, w.sender, x)));
    case PutMessage(k) =>
      SenderStepRefines(c, w, Emit(k), WsDo(c, w, step));
    case NextReader =>
      assert s' == s;
    case ReadMessage(k) =>
      assert Enabled(c, s, Arrive(k)) && s' == Do(c, s, Arrive(k));
    case AtPeer(x) =>
      PeerStepRefines(c, w, x);
  }

  lemma {:induction false} WsExecutionInv<P(!new)>(c: Protocol<P>, run: seq<WsLink<P>>, i: nat)
    requires Lawful(c) && WsExecution(c, run) && i < |run|
    ensures Carried(run[i]) && Inv(c, AsLink(run[i]))
  {
    if i == 0 {
      assert AsLink(run[0]) == run[0].sender;
    } else {
      WsExecutionInv(c, run, i - 1);
      assert WsStepAt(c, run, i - 1);
      var step :| WsEnabled(c, run[i - 1], step) && run[i] == WsDo(c, run[i - 1], step);
      StepCarries(c, run[i - 1], step);
      StepRefines(c, run[i - 1], step);
      var s, s' := AsLink(run[i - 1]), AsLink(run[i]);
      if s' != s {
        var x :| Enabled(c, s, x) && s' == Do(c, s, x);
        ConnStream.StepInv(c, s, x);
      }
    }
  }

  // ---------------------------------------------------------------------------
  // End to end
  // ---------------------------------------------------------------------------

  /** However the frames are cut into messages and the messages into reads, the peer decodes a
      prefix of the accepted packets, and its receiver gets the messages among those delivered. */
  lemma PacketsCrossMessages<P(!new)>(c: Protocol<P>, run: seq<WsLink<P>>, i: nat)
    requires Lawful(c) && WsExecution(c, run) && i < |run|
    ensures var sender, peer := run[i].sender, run[i].peer;
            && peer.decoded <= sender.accepted
            && peer.delivered <= peer.decoded && |peer.decoded| <= |peer.delivered| + 1
            && peer.received == (if c.hasReceiver then Messages(c, peer.delivered) else [])
            && !WsEnabled(c, run[i], AtPeer(DecodeFails))
  {
    WsExecutionInv(c, run, i);
    WindowOfPeer(c, AsLink(run[i]));
    if WsEnabled(c, run[i], AtPeer(DecodeFails)) {
      PeerStepRefines(c, run[i], DecodeFails);
    }
  }

  /** What the peer has read, what is left of its message and what is in the others are the frames
      written in full, which the statistics count, and then perhaps a part of the next one. */
  lemma MessagesCarryFrames<P(!new)>(c: Protocol<P>, run: seq<WsLink<P>>, i: nat)
    requires Lawful(c) && WsExecution(c, run) && i < |run|
    ensures var w, sender := run[i], run[i].sender;
            && sender.frames <= |sender.accepted|
            && w.peer.wire + (w.unread + Payload(w.incoming)) ==
               Stream(c, sender.accepted[..sender.frames]) + sender.sent
            && sender.bytes == FrameBytes(c, sender.accepted[..sender.frames])
            && (sender.sent == []
                || (sender.frames < |sender.accepted| && sender.sent <= FrameOf(c, sender.accepted[sender.frames])))
  {
    WsExecutionInv(c, run, i);
    StreamLength(c, run[i].sender.accepted[..run[i].sender.frames]);
  }

  /** A peer that waits for more when there is no more to read, in however many messages that are
      empty, has delivered every frame written in full. */
  lemma NothingIsLeftInMessages<P(!new)>(c: Protocol<P>, run: seq<WsLink<P>>, i: nat)
    requires Lawful(c) && WsExecution(c, run) && i < |run|
    requires run[i].peer.readerUp && run[i].peer.pending.None? && run[i].unread == []
    requires Payload(run[i].incoming) == [] && !WsEnabled(c, run[i], AtPeer(DecodeNext))
    ensures run[i].sender.frames <= |run[i].peer.delivered|
  {
    var w := run[i];
    var s := AsLink(w);
    WsExecutionInv(c, run, i);
    WindowOfPeer(c, s);
    assert w.sender.wire == w.peer.wire;
    if |s.decoded| < s.frames {
      NextFrameIsOut(c, s);
    }
  }
}
