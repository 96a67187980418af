/** The byte stream over WebSocket messages, `common/network/ws_impl.go:37-110`. */
module WsTransports {

  import opened Basics

  datatype Message = Message(binary: bool, payload: seq<Byte>)

  datatype Result = Ok | SocketError | NotBinary

  predicate AllBinary(messages: seq<Message>) {
    forall i :: 0 <= i < |messages| ==> messages[i].binary
  }

  /** The bytes a reader gets from these messages, boundaries hidden: those before the first
      message that is not binary. */
  function Payload(messages: seq<Message>): seq<Byte> {
    if messages == [] || !messages[0].binary then []
    else messages[0].payload + Payload(messages[1..])
  }

  /** What one side writes is what the other side's stream consists of. */
  lemma {:induction false} PayloadAppend(messages: seq<Message>, data: seq<Byte>)
    requires AllBinary(messages)
    ensures Payload(messages + [Message(true, data)]) == Payload(messages) + data
  {
    var more := messages + [Message(true, data)];
    if messages == [] {
      assert more[1..] == [];
    } else {
      PayloadAppend(messages[1..], data);
      assert more[1..] == messages[1..] + [Message(true, data)];
    }
  }

  /** What the connection does in one operation: it fails or not; a read returns at most `n` bytes,
      and reports the end of a message after its last bytes rather than with them if `late`. */
  datatype Turn = Turn(fails: bool, n: nat, late: bool)

  /** The WebSocket connection below the transport, `turns` being its own choices. */
  class Socket {
    const turns: nat -> Turn
    var done: nat                // operations so far
    var incoming: seq<Message>   // messages not begun
    var unread: seq<Byte>        // what is left of the message begun
    var outgoing: seq<Message>

    constructor (turns: nat -> Turn, incoming: seq<Message>)
      ensures this.turns == turns && done == 0
      ensures this.incoming == incoming && unread == [] && outgoing == []
    {
      this.turns, done := turns, 0;
      this.incoming, unread, outgoing := incoming, [], [];
    }

    /** The operations from number `from` on, but for the last one, have gone well. */
    ghost predicate WellSince(from: nat)
      reads `done
    {
      from < done && forall j :: from <= j < done - 1 ==> !turns(j).fails
    }

    ghost predicate LastFailed()
      requires done > 0
      reads `done
    {
      turns(done - 1).fails
    }

    method SetDeadline() returns (ok: bool)
      modifies `done
      ensures done == old(done) + 1 && ok == !turns(old(done)).fails
    {
      ok := !turns(done).fails;
      done := done + 1;
    }

    /** Without a further message the connection has ended. */
    method NextReader() returns (binary: bool, ok: bool)
      modifies `done, `incoming, `unread
      ensures done == old(done) + 1
      ensures ok <==> old(incoming) != [] && !turns(old(done)).fails
      ensures !ok ==> incoming == old(incoming) && unread == old(unread)
      ensures ok ==> incoming == old(incoming)[1..] && unread == old(incoming)[0].payload
      ensures ok ==> binary == old(incoming)[0].binary
    {
      binary, ok := false, incoming != [] && !turns(done).fails;
      done := done + 1;
      if ok {
        binary, unread, incoming := incoming[0].binary, incoming[0].payload, incoming[1..];
      }
    }

    method ReadMessage(buffer: array<Byte>) returns (n: nat, eof: bool, ok: bool)
      modifies `done, `unread, buffer
      ensures done == old(done) + 1 && ok == !turns(old(done)).fails
      ensures n <= buffer.Length && n <= old(|unread|) && n <= turns(old(done)).n
      ensures n == buffer.Length || n == old(|unread|) || n == turns(old(done)).n
      ensures buffer[..n] == old(unread)[..n] && unread == old(unread)[n..]
      ensures eof <==> ok && unread == [] && (n == 0 || !turns(old(done)).late)
    {
      n := if turns(done).n < buffer.Length then turns(done).n else buffer.Length;
      if |unread| < n {
        n := |unread|;
      }
      forall i | 0 <= i < n {
        buffer[i] := unread[i];
      }
      unread := unread[n..];
      ok := !turns(done).fails;
      eof := ok && unread == [] && (n == 0 || !turns(done).late);
      done := done + 1;
    }

    method WriteMessage(data: seq<Byte>) returns (ok: bool)
      modifies `done, `outgoing
      ensures done == old(done) + 1 && ok == !turns(old(done)).fails
      ensures outgoing == if ok then old(outgoing) + [Message(true, data)] else old(outgoing)
    {
      ok := !turns(done).fails;
      done := done + 1;
      if ok {
        outgoing := outgoing + [Message(true, data)];
      }
    }
  }

  class WsTransport {
    const socket: Socket
    var reading: bool            // a message has been begun and its end not been seen
    const readTimeout: int
    const writeTimeout: int

    constructor (socket: Socket, readTimeout: int, writeTimeout: int)
      ensures this.socket == socket && !reading
    {
      this.socket, this.readTimeout, this.writeTimeout := socket, readTimeout, writeTimeout;
      reading := false;
    }

    /** The stream still to be read. */
    function Remaining(): seq<Byte>
      reads `reading, socket`unread, socket`incoming
    {
      (if reading then socket.unread else []) + Payload(socket.incoming)
    }

    /** Begins the next message. */
    method Begin() returns (result: Result)
      requires !reading
      modifies `reading, socket`done, socket`unread, socket`incoming
      ensures socket.done == old(socket.done) + 1
      ensures reading <==> result == Ok
      ensures result == Ok ==> Remaining() == old(Remaining()) && |socket.incoming| < old(|socket.incoming|)
      ensures result == NotBinary ==> old(socket.incoming) != [] && !old(socket.incoming)[0].binary
      ensures result == SocketError <==> socket.turns(old(socket.done)).fails || old(socket.incoming) == []
      ensures result != SocketError ==> socket.incoming == old(socket.incoming)[1..]
    {
      var binary, ok := socket.NextReader();
      if !ok {
        return SocketError;
      }
      if !binary {
        return NotBinary;
      }
      reading := true;
      return Ok;
    }

    /** Reads from the message begun, and forgets it at its end. */
    method ReadOn(buffer: array<Byte>) returns (n: nat, eof: bool, ok: bool)
      requires reading
      modifies `reading, socket`done, socket`unread, buffer
      ensures socket.done == old(socket.done) + 1 && ok == !socket.turns(old(socket.done)).fails
      ensures n <= buffer.Length
      ensures buffer[..n] + Remaining() == old(Remaining())
      ensures reading <==> !eof
      ensures n == 0 && buffer.Length > 0 && ok ==> eof || socket.turns(old(socket.done)).n == 0
      ensures eof ==> ok
    {
      n, eof, ok := socket.ReadMessage(buffer);
      ghost var got, left := buffer[..n], socket.unread;
      assert old(socket.unread) == got + left;
      assert got + (left + Payload(socket.incoming)) == old(socket.unread) + Payload(socket.incoming);
      reading := !eof;
    }

    /** Every read takes its bytes off the front of the stream and loses none, whatever the
        message boundaries and however many messages are empty. It fails only when the connection
        does, or has ended, or has a message that is not binary; and it returns nothing only when
        the connection's own last read has returned nothing. */
    method Read(buffer: array<Byte>) returns (n: nat, result: Result)
      modifies `reading, socket`done, socket`unread, socket`incoming, buffer
      ensures n <= buffer.Length
      ensures buffer.Length == 0 ==> n == 0 && result == Ok && reading == old(reading) && socket.done == old(socket.done)
      ensures buffer.Length > 0 ==> socket.WellSince(old(socket.done))
      ensures result == Ok ==> buffer[..n] + Remaining() == old(Remaining())
      ensures result == Ok && buffer.Length > 0 ==>
                !socket.LastFailed() && (n == 0 ==> reading && socket.turns(socket.done - 1).n == 0)
      ensures result == SocketError ==>
                buffer[..n] <= old(Remaining()) && (socket.LastFailed() || (n == 0 && old(Remaining()) == []))
      ensures result == NotBinary ==>
                && n == 0 && old(Remaining()) == [] && !socket.LastFailed()
                && exists m :: m in old(socket.incoming) && !m.binary
    {
      if buffer.Length == 0 {
        return 0, Ok;
      }
      if readTimeout > 0 {
        var ok := socket.SetDeadline();
        if !ok {
          return 0, SocketError;
        }
      }
      while true
        invariant Remaining() == old(Remaining())
        invariant old(socket.done) <= socket.done
        invariant forall j :: old(socket.done) <= j < socket.done ==> !socket.turns(j).fails
        invariant forall m :: m in socket.incoming ==> m in old(socket.incoming)
        decreases |socket.incoming|, if reading then 1 else 0
      {
        if !reading {
          result := Begin();
          if result != Ok {
            return 0, result;
          }
        }
        var eof, ok;
        n, eof, ok := ReadOn(buffer);
        if !eof {
          return n, if ok then Ok else SocketError;
        }
        if n > 0 {
          return n, Ok;
        }
      }
    }

    /** One message for all of `data`, or none because the connection fails; no message for no
        data. */
    method Write(data: seq<Byte>) returns (n: nat, result: Result)
      requires AllBinary(socket.outgoing)
      modifies socket`done, socket`outgoing
      ensures AllBinary(socket.outgoing)
      ensures n == if result == Ok then |data| else 0
      ensures if data == [] then result == Ok && socket.done == old(socket.done)
              else
                && socket.WellSince(old(socket.done))
                && result == if socket.LastFailed() then SocketError else Ok
      ensures Payload(socket.outgoing) == old(Payload(socket.outgoing)) + data[..n]
      ensures |socket.outgoing| == old(|socket.outgoing|) + if n > 0 then 1 else 0
    {
      if data == [] {
        return 0, Ok;
      }
      if writeTimeout > 0 {
        var ok := socket.SetDeadline();
        if !ok {
          return 0, SocketError;
        }
      }
      PayloadAppend(socket.outgoing, data);
      var ok := socket.WriteMessage(data);
      n, result := if ok then |data| else 0, if ok then Ok else SocketError;
    }
  }
}
