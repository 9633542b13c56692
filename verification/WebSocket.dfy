/** `WebSocket::onReading`: the incremental frame parser over the connection's input buffer. */
module WebSockets {
  import opened Frames
  import opened Seqs

  // ---------------------------------------------------------------- one read event, for any stream

  /** The fields of a socket. */
  datatype Connection = Connection(
    connected: bool,
    input: seq<Octet>,
    body: seq<Octet>,
    bodyType: Kind,
    bodyLength: nat,
    received: seq<Message>,
    closed: Option<Reason>)

  const NEW_CONNECTION := Connection(true, [], [], NoType, 0, [], None)

  function Delivered(c: Connection): Connection {
    c.(received := c.received + [Message(c.bodyType, c.body)], body := [], bodyType := NoType, bodyLength := 0)
  }

  /** The payload of a started frame completed; no if more has to arrive. */
  function Collected(c: Connection): (Connection, bool) {
    if c.bodyType == NoType || c.bodyLength == 0 || c.input == [] then (c, true)
    else
      var v := c.bodyLength - |c.body|;
      var t := if 0 < v <= |c.input| then c.(body := c.body + c.input[..v], input := c.input[v..]) else c;
      if |t.body| == t.bodyLength then (Delivered(t), true) else (t, false)
  }

  function Loaded(c: Connection, opcode: Octet, offset: nat, end: nat): Connection
    requires offset <= end <= |c.input|
  {
    c.(input := c.input[end..],
       body := c.body + c.input[offset..end],
       bodyType := if opcode == OP_CONTINUE then c.bodyType else KindOf(opcode))
  }

  /** The payload, as far as it has arrived, of the frame whose header is complete. */
  function Taken(c: Connection, offset: nat, length: nat): (r: Connection)
    requires 2 <= offset <= |c.input|
    ensures |r.input| < |c.input| && r.connected == c.connected && r.closed == c.closed
  {
    var p := c.input;
    var end := offset + if length > |p| - offset then |p| - offset else length;
    if Opcode(p[0]) == OP_PONG then c.(input := p[end..])
    else
      var t := Loaded(c, Opcode(p[0]), offset, end);
      if Fin(p[0]) && |t.body| == length then Delivered(t) else t.(bodyLength := length)
  }

  /** The next frame begun; no if its header is incomplete or refused. */
  function Begun(c: Connection): (r: (Connection, bool))
    requires |c.input| >= 2
    ensures r.1 ==> |r.0.input| < |c.input| && r.0.connected == c.connected && r.0.closed == c.closed
  {
    var p := c.input;
    match Classify(p[0], p[1])
    case Bad(reason) => (c.(connected := false, closed := Some(reason)), false)
    case _ =>
      var offset := HeaderSize(p[1]);
      if |p| < offset then (c, false) else (Taken(c, offset, PayloadLength(p[..offset])), true)
  }

  /** What one read event makes of the input. */
  function Reading(c: Connection): Connection
    decreases |c.input|
  {
    var (t, go) := Collected(c);
    if !go || |t.input| < 2 then t
    else
      var (u, more) := Begun(t);
      if more then Reading(u) else u
  }

  /** What read events for `chunks`, one by one, make of them. */
  function AllRead(c: Connection, chunks: seq<seq<Octet>>): Connection
    decreases |chunks|
  {
    if chunks == [] || !c.connected then c
    else AllRead(Reading(c.(input := c.input + chunks[0])), chunks[1..])
  }

  class WebSocket {
    var connected: bool
    var input: seq<Octet>
    var body: seq<Octet>
    var bodyType: Kind
    var bodyLength: nat
    /** What `onData` has been called with, and what `onClose` was told. */
    var received: seq<Message>
    var closed: Option<Reason>
    /** The header of the frame whose payload is being collected. */
    ghost var header: seq<Octet>

    constructor ()
      ensures Quiescent() && State() == NEW_CONNECTION
    {
      connected := true;
      input, body, header := [], [], [];
      bodyType := NoType;
      bodyLength := 0;
      received := [];
      closed := None;
    }

    ghost function State(): Connection
      reads this
    {
      Connection(connected, input, body, bodyType, bodyLength, received, closed)
    }

    /** The bytes taken in but not yet delivered, with the header of a started frame in front. */
    ghost function Pending(): seq<Octet>
      reads this
    {
      if bodyType == NoType then input else header + body + input
    }

    /** A started frame is an ordinary one whose payload is incomplete. */
    ghost predicate Valid()
      reads this
    {
      if bodyType == NoType then body == []
      else ParseHead(header) == Frame(bodyType, |header|, bodyLength) && |body| < bodyLength
    }

    /** Nothing that has arrived can be delivered yet. */
    ghost predicate Quiescent()
      reads this
    {
      Valid() && Decode(Pending()) == Decoded([], Pending(), Waiting)
    }

    method OnData(message: Message)
      modifies `received
      ensures received == old(received) + [message]
    {
      received := received + [message];
    }

    method Close(reason: Reason)
      modifies `connected, `closed
      ensures !connected && closed == Some(reason)
    {
      connected := false;
      closed := Some(reason);
    }

    /** What a call must end with when `d` is what there was to decode. */
    ghost predicate Finished(d: Decoded, before: seq<Message>, closedBefore: Option<Reason>)
      reads this
    {
      && received == before + d.messages
      && (if d.status == Waiting then connected && closed == closedBefore && Pending() == d.rest && Quiescent()
          else !connected && (d.status.Rejected? ==> closed == Some(d.status.reason)))
    }

    /** What the loop keeps: the rest of the outcome is that of what is still pending. */
    ghost predicate Underway(d: Decoded, before: seq<Message>)
      reads this
    {
      Valid() && before <= received && Remains(d, received[|before|..], Pending())
    }

    /** Delivers every message that is complete, as long as the stream holds no frame whose
        handling depends on how it is cut into reads (`Outside`: continuations, fragments,
        pongs, payloads of 2^31 bytes or more). */
    method OnReading()
      requires connected
      modifies this
      ensures State() == Reading(old(State()))
      ensures
        var d := Decode(old(Pending()));
        old(Valid()) && d.status != Outside ==> Finished(d, old(received), old(closed))
    {
      ghost var d, before := if Valid() then Decode(Pending()) else Decoded([], [], Outside), received;
      ghost var even := d.status != Outside;
      assert [] + d.messages == d.messages;
      while true
        invariant connected && closed == old(closed)
        invariant Reading(State()) == Reading(old(State()))
        invariant even ==> Underway(d, before)
        decreases |input|
      {
        var go := CollectBody(d, before);
        if !go { return; }
        if |input| < 2 { return; }
        go := ReadFrame(d, before);
        if !go { return; }
      }
    }

    /** Completes the payload of a started frame, if enough has arrived. */
    method CollectBody(ghost d: Decoded, ghost before: seq<Message>) returns (go: bool)
      requires connected
      requires d.status != Outside ==> Underway(d, before)
      modifies this
      ensures (State(), go) == Collected(old(State()))
      ensures connected == old(connected) && closed == old(closed) && |input| <= old(|input|)
      ensures go && d.status != Outside ==> Underway(d, before) && (bodyType == NoType || input == [])
      ensures (!go || |input| < 2) && d.status != Outside ==> Finished(d, before, old(closed))
    {
      hide ParseHead, Decode;
      ghost var even, pending := d.status != Outside, Pending();
      var n := |input|;
      if bodyType != NoType && bodyLength > 0 && n > 0 {
        var v := bodyLength - |body|;
        if even {
          if n >= v { StartedFrame(header, body, input, v); } else { IncompleteFrame(header, body, input); }
        }
        if v > 0 && n >= v {
          body, input := body + input[..v], input[v..];
        }
        if |body| == bodyLength {
          Deliver(d, before, pending);
        } else {
          return false;
        }
      } else if even && bodyType != NoType {
        IncompleteFrame(header, body, input);
      }
      if |input| < 2 { TooShort(input); }
      return true;
    }

    /** Hands over the collected body and starts afresh. */
    method Deliver(ghost d: Decoded, ghost before: seq<Message>, ghost pending: seq<Octet>)
      requires d.status != Outside ==>
        && before <= received && Remains(d, received[|before|..], pending)
        && Decode(pending)
             == Decode(input).(messages := [Message(bodyType, body)] + Decode(input).messages)
      modifies this
      ensures State() == Delivered(old(State()))
      ensures d.status != Outside ==> Underway(d, before)
    {
      ghost var m, taken := Message(bodyType, body), if |before| <= |received| then received[|before|..] else [];
      if d.status != Outside { RemainsNext(d, taken, pending, m, input); }
      OnData(Message(bodyType, body));
      body := [];
      bodyType := NoType;
      bodyLength := 0;
      assert d.status != Outside ==> received[|before|..] == taken + [m];
    }

    /** Handles the header, and as much of the payload as is there, of the next frame. */
    method ReadFrame(ghost d: Decoded, ghost before: seq<Message>) returns (go: bool)
      requires connected && |input| >= 2
      requires d.status != Outside ==> Underway(d, before) && bodyType == NoType
      modifies this
      ensures (State(), go) == Begun(old(State()))
      ensures go && d.status != Outside ==> Underway(d, before)
      ensures !go && d.status != Outside ==> Finished(d, before, old(closed))
    {
      var n, p := |input|, input;
      var isFin := Fin(p[0]);
      var opcode := Opcode(p[0]);
      var isMasked := Masked(p[1]);
      var payloadLen := Length7(p[1]);
      if (isMasked || Rsv(p[0])) && opcode != OP_PONG {
        Close(Unsupported);
        return false;
      }
      var isControlFrame := opcode == OP_CLOSE || opcode == OP_PING;
      if !isControlFrame && opcode != OP_BINARY && opcode != OP_CONTINUE && opcode != OP_TEXT && opcode != OP_PONG {
        Close(Unsupported);
        return false;
      }
      if isControlFrame && !isFin {
        Close(Unsupported);
        return false;
      }
      if opcode == OP_CLOSE {
        Close(ClosedByPeer);
        return false;
      }
      if isControlFrame && payloadLen > 125 {
        Close(Unsupported);
        return false;
      }

      var dataLength, offset := payloadLen, 2;
      if payloadLen == 127 {
        offset := 10;
        if n >= 10 { dataLength := BigEndian(p[2..10]); }
      } else if payloadLen == 126 {
        offset := 4;
        if n >= 4 { dataLength := BigEndian(p[2..4]); }
      }
      if n < offset { return false; }
      assert p[..offset][2..] == p[2..offset];
      TakePayload(d, before, isFin, opcode, offset, dataLength);
      return true;
    }

    /** Takes the payload, as far as it has arrived, of the frame at the front of the input. */
    method TakePayload(ghost d: Decoded, ghost before: seq<Message>,
                       isFin: bool, opcode: Octet, offset: nat, dataLength: nat)
      requires connected && 2 <= offset <= |input|
      requires isFin == Fin(input[0]) && opcode == Opcode(input[0])
      requires opcode in {OP_PONG, OP_CONTINUE, OP_TEXT, OP_BINARY, OP_PING}
      requires d.status != Outside ==>
        && Underway(d, before) && isFin && bodyType == NoType
        && opcode != OP_PONG && opcode != OP_CONTINUE
        && ParseHead(input) == Frame(KindOf(opcode), offset, dataLength)
      modifies this
      ensures State() == Taken(old(State()), offset, dataLength)
      ensures d.status != Outside ==> Underway(d, before)
    {
      hide Decode, ParseHead, Opcode, Fin, KindOf, Remains;
      ghost var even := d.status != Outside;
      var n, p := |input|, input;
      var len := if dataLength > n - offset then n - offset else dataLength;
      if opcode == OP_PONG {
        input := input[offset + len..];
        return;
      }
      Load(opcode, offset, offset + len);
      assert even ==> body == p[offset..offset + len] && input == p[offset + len..] && bodyType == KindOf(opcode);
      hide Loaded, Delivered, Underway;
      if isFin && |body| == dataLength {
        if even { CompleteFrame(p); }
        Deliver(d, before, p);
      } else {
        bodyLength := dataLength;
        header := p[..offset];
        if even { StartedUnderway(d, before, p); }
      }
    }

    method Load(opcode: Octet, offset: nat, end: nat)
      requires offset <= end <= |input|
      requires opcode in {OP_CONTINUE, OP_TEXT, OP_BINARY, OP_PING}
      modifies `input, `body, `bodyType
      ensures State() == Loaded(old(State()), opcode, offset, end)
    {
      if opcode != OP_CONTINUE {
        bodyType := KindOf(opcode);
      }
      body := body + input[offset..end];
      input := input[end..];
    }

    lemma StartedUnderway(d: Decoded, before: seq<Message>, p: seq<Octet>)
      requires bodyType != NoType && ParseHead(p) == Frame(bodyType, |header|, bodyLength)
      requires |header| <= |p| && header == p[..|header|] && body == p[|header|..] && input == []
      requires |body| < bodyLength && before <= received && Remains(d, received[|before|..], p)
      ensures Underway(d, before)
    {
      HeaderAlone(p);
      assert header + body + input == p;
    }

    /** The connection delivers `chunks` one read event at a time, until it is closed.  What is
        received depends only on the bytes, not on how they were cut. */
    method Receive(chunks: seq<seq<Octet>>)
      requires connected
      modifies this
      ensures State() == AllRead(old(State()), chunks)
      ensures
        var d := Decode(old(Pending()) + Concat(chunks));
        old(Quiescent()) && d.status != Outside ==> Finished(d, old(received), old(closed))
      decreases |chunks|
    {
      if chunks == [] {
        assert Pending() + Concat(chunks) == Pending();
        return;
      }
      ghost var a, b := Pending() + chunks[0], Concat(chunks[1..]);
      Assoc(Pending(), chunks[0], b);
      DecodeMore(a, b);
      PendingMore(chunks[0]);
      input := input + chunks[0];
      ghost var before := received;
      OnReading();
      if connected {
        Assoc(before, Decode(a).messages, Decode(Pending() + b).messages);
        Receive(chunks[1..]);
      }
    }

    lemma PendingMore(chunk: seq<Octet>)
      ensures Pending() + chunk
        == if bodyType == NoType then input + chunk else header + body + (input + chunk)
    {
    }
  }

  /** Chunking invariance: however the bytes of any frames are cut, exactly their messages are
      delivered, in order, and nothing is left over. */
  method ReceiveFrames(socket: WebSocket, fs: seq<Incoming>, chunks: seq<seq<Octet>>)
    requires forall f :: f in fs ==> Sendable(f)
    requires Concat(chunks) == Wire(fs)
    requires socket.connected && socket.Quiescent() && socket.Pending() == []
    modifies socket
    ensures socket.connected && socket.received == old(socket.received) + Messages(fs)
    ensures socket.input == [] && socket.body == [] && socket.bodyType == NoType
  {
    WireDecodes(fs);
    assert [] + Concat(chunks) == Concat(chunks);
    socket.Receive(chunks);
  }

  /** A short frame on a new connection, as its bytes are (section 5.2 of RFC 6455). */
  lemma ShortFrames(p: seq<Octet>)
    requires |p| <= 125
    ensures Reading(NEW_CONNECTION.(input := [0x81, |p|] + p)) == NEW_CONNECTION.(received := [Message(Text, p)])
    ensures Reading(NEW_CONNECTION.(input := [0x82, |p|] + p)) == NEW_CONNECTION.(received := [Message(Binary, p)])
    ensures Reading(NEW_CONNECTION.(input := [0x89, |p|] + p)) == NEW_CONNECTION.(received := [Message(Ping, p)])
    ensures var c := Reading(NEW_CONNECTION.(input := [0x88, |p|] + p));
      !c.connected && c.closed == Some(ClosedByPeer) && c.received == []
  {
    hide Reading;
    ShortFrame(0x81, Text, p);
    ShortFrame(0x82, Binary, p);
    ShortFrame(0x89, Ping, p);
    CloseFrame(p);
  }

  lemma CloseFrame(p: seq<Octet>)
    requires |p| <= 125
    ensures var c := NEW_CONNECTION.(input := [0x88, |p|] + p);
      Reading(c) == c.(connected := false, closed := Some(ClosedByPeer))
  {
    hide Classify;
    FirstBytes(0x88, |p|);
  }

  lemma ShortFrame(first: Octet, kind: Kind, p: seq<Octet>)
    requires |p| <= 125 && (first, kind) in {(0x81, Text), (0x82, Binary), (0x89, Ping)}
    ensures Reading(NEW_CONNECTION.(input := [first, |p|] + p)) == NEW_CONNECTION.(received := [Message(kind, p)])
  {
    hide Classify, PayloadLength;
    var s := [first, |p|] + p;
    FirstBytes(first, |p|);
    LengthBytes(first, |p|, []);
    assert s[..2] == [first, |p|] && s[2..] == p && s[|s|..] == [] && [] + p == p;
    assert s[2..2 + |p|] == p;
  }

  /** The rest of a started frame is taken when all of it has come, and not before. */
  lemma BodyCollected(c: Connection)
    requires c.bodyType != NoType && |c.body| < c.bodyLength && c.input != []
    ensures
      var v := c.bodyLength - |c.body|;
      Reading(c) ==
        if |c.input| < v then c
        else Reading(c.(input := c.input[v..], received := c.received + [Message(c.bodyType, c.body + c.input[..v])],
                        body := [], bodyType := NoType, bodyLength := 0))
  {
    hide Begun;
  }

  /** The bytes of the extended length. */
  function Extended(second: Octet): nat {
    if second == 126 then 2 else 8
  }

  lemma HeaderIncomplete(first: Octet, second: Octet, b: seq<Octet>)
    requires first in {0x81, 0x82} && 126 <= second < 128 && |b| < Extended(second)
    ensures var c := NEW_CONNECTION.(input := [first, second] + b); Begun(c) == (c, false)
  {
    hide Classify, PayloadLength, Taken;
    FirstBytes(first, second);
    LengthBytes(first, second, [0, 0]);
    LengthBytes(first, second, [0, 0, 0, 0, 0, 0, 0, 0]);
  }

  lemma HeaderComplete(first: Octet, kind: Kind, second: Octet, b: seq<Octet>, part: seq<Octet>)
    requires (first, kind) in {(0x81, Text), (0x82, Binary)} && 126 <= second < 128
    requires |b| == Extended(second) && |part| < PayloadLength([first, second] + b)
    ensures Begun(NEW_CONNECTION.(input := [first, second] + b + part))
      == (NEW_CONNECTION.(body := part, bodyType := kind, bodyLength := PayloadLength([first, second] + b)), true)
  {
    hide Classify, PayloadLength;
    var c, n := NEW_CONNECTION.(input := [first, second] + b + part), 2 + |b|;
    FirstBytes(first, second);
    assert c.input[..n] == [first, second] + b && c.input[n..n + |part|] == part && c.input[n + |part|..] == [];
    assert [] + part == part && HeaderSize(second) == n && KindOf(Opcode(first)) == kind && Fin(first);
  }

  /** A header is read when all of it has come, and then what there is of the payload is put aside. */
  lemma FrameStarted(first: Octet, kind: Kind, second: Octet, b: seq<Octet>, part: seq<Octet>)
    requires (first, kind) in {(0x81, Text), (0x82, Binary)} && 126 <= second < 128
    ensures |b| < Extended(second) ==>
      var c := NEW_CONNECTION.(input := [first, second] + b); Reading(c) == c
    ensures |b| == Extended(second) && |part| < PayloadLength([first, second] + b) ==>
      Reading(NEW_CONNECTION.(input := [first, second] + b + part))
        == NEW_CONNECTION.(body := part, bodyType := kind, bodyLength := PayloadLength([first, second] + b))
  {
    hide Begun, PayloadLength;
    if |b| < Extended(second) {
      HeaderIncomplete(first, second, b);
    } else if |b| == Extended(second) && |part| < PayloadLength([first, second] + b) {
      HeaderComplete(first, kind, second, b, part);
      NothingToRead(NEW_CONNECTION.(body := part, bodyType := kind, bodyLength := PayloadLength([first, second] + b)));
    }
  }

  /** Masked frames, reserved bits, unknown types and fragmented or long control frames end the connection. */
  lemma Refused(c: Connection, first: Octet, second: Octet, rest: seq<Octet>)
    requires c.input == [first, second] + rest && (c.bodyType == NoType || c.bodyLength == 0)
    requires first % 16 != 10
    requires second >= 128 || first !in {0x00, 0x01, 0x02, 0x80, 0x81, 0x82, 0x88, 0x89} || (first == 0x89 && second > 125)
    ensures Reading(c) == c.(connected := false, closed := Some(Unsupported))
  {
    hide Classify;
    FirstBytes(first, second);
  }

  /** A pong must arrive in one piece. Cut after its header, its payload is read as frames. */
  lemma PongCut(c: Connection, header: seq<Octet>, payload: seq<Octet>)
    requires c.connected && c.input == [] && (c.bodyType == NoType || c.bodyLength == 0)
    requires |header| >= 2 && Opcode(header[0]) == OP_PONG
    requires |header| == HeaderSize(header[1]) && PayloadLength(header) == |payload|
    ensures AllRead(c, [header + payload]) == c
    ensures AllRead(c, [header, payload]) == Reading(c.(input := payload))
  {
    hide PayloadLength, Reading, HeaderSize;
    PongTaken(c, header, payload);
    PongTaken(c, header, []);
    assert header + [] == header;
    ReadFirst(c, header + payload, []);
    ReadFirst(c, header, [payload]);
    ReadFirst(c, payload, []);
  }

  lemma ReadFirst(c: Connection, chunk: seq<Octet>, chunks: seq<seq<Octet>>)
    requires c.connected && c.input == []
    ensures AllRead(c, [chunk] + chunks) == AllRead(Reading(c.(input := chunk)), chunks)
  {
    assert [] + chunk == chunk;
    assert ([chunk] + chunks)[1..] == chunks;
  }

  /** As much of a pong as one read event brings is dropped. */
  lemma PongTaken(c: Connection, header: seq<Octet>, front: seq<Octet>)
    requires c.connected && c.input == [] && (c.bodyType == NoType || c.bodyLength == 0)
    requires |header| >= 2 && Opcode(header[0]) == OP_PONG
    requires |header| == HeaderSize(header[1]) && PayloadLength(header) >= |front|
    ensures Reading(c.(input := header + front)) == c
  {
    hide PayloadLength;
    var p := header + front;
    assert p[..|header|] == header && p[|p|..] == [];
    var b := c.(input := p);
    assert Begun(b) == (c, true);
    assert Reading(c) == c;
  }

  /** So the same bytes can end a connection or leave it as it was. */
  lemma PongCutCloses()
    ensures AllRead(NEW_CONNECTION, [[0x8A, 0x02, 0x88, 0x00]]) == NEW_CONNECTION
    ensures AllRead(NEW_CONNECTION, [[0x8A, 0x02], [0x88, 0x00]]).closed == Some(ClosedByPeer)
  {
    PongCut(NEW_CONNECTION, [0x8A, 0x02], [0x88, 0x00]);
  }

  /** A continuation that arrives in one piece is delivered as a message of its own, without a type; one that
      is cut after its header has its payload read as frames too. */
  lemma ContinuationCut(c: Connection, header: seq<Octet>, payload: seq<Octet>)
    requires c.connected && c.input == [] && c.body == [] && c.bodyType == NoType && c.bodyLength == 0
    requires |header| >= 2 && Opcode(header[0]) == OP_CONTINUE && Fin(header[0])
    requires !Rsv(header[0]) && !Masked(header[1])
    requires |header| == HeaderSize(header[1]) && PayloadLength(header) == |payload| > 0
    ensures AllRead(c, [header + payload]) == c.(received := c.received + [Message(NoType, payload)])
    ensures AllRead(c, [header, payload]) == Reading(c.(input := payload, bodyLength := |payload|))
  {
    hide PayloadLength, Reading, HeaderSize, Opcode, Fin, Rsv, Masked;
    ContinuationTaken(c, header, payload);
    ContinuationTaken(c, header, []);
    assert header + [] == header;
    ReadFirst(c, header + payload, []);
    ReadFirst(c, header, [payload]);
    ReadFirst(c.(bodyLength := |payload|), payload, []);
  }

  lemma ContinuationTaken(c: Connection, header: seq<Octet>, front: seq<Octet>)
    requires c.connected && c.input == [] && c.body == [] && c.bodyType == NoType && c.bodyLength == 0
    requires |header| >= 2 && Opcode(header[0]) == OP_CONTINUE && Fin(header[0])
    requires !Rsv(header[0]) && !Masked(header[1])
    requires |header| == HeaderSize(header[1]) && PayloadLength(header) > 0
    requires |front| == PayloadLength(header) || front == []
    ensures Reading(c.(input := header + front))
      == if front == [] then c.(bodyLength := PayloadLength(header))
         else c.(received := c.received + [Message(NoType, front)])
  {
    hide PayloadLength;
    var b, r := c.(input := header + front), if front == [] then c.(bodyLength := PayloadLength(header))
      else c.(received := c.received + [Message(NoType, front)]);
    assert Collected(b) == (b, true) && Begun(b) == (r, true) by { ContinuationBegun(c, header, front); }
    hide Begun;
    assert Reading(b) == Reading(r);
    assert Reading(r) == r;
  }

  lemma ContinuationBegun(c: Connection, header: seq<Octet>, front: seq<Octet>)
    requires c.connected && c.input == [] && c.body == [] && c.bodyType == NoType && c.bodyLength == 0
    requires |header| >= 2 && Opcode(header[0]) == OP_CONTINUE && Fin(header[0])
    requires !Rsv(header[0]) && !Masked(header[1])
    requires |header| == HeaderSize(header[1]) && PayloadLength(header) > 0
    requires |front| == PayloadLength(header) || front == []
    ensures Begun(c.(input := header + front))
      == (if front == [] then c.(bodyLength := PayloadLength(header))
          else c.(received := c.received + [Message(NoType, front)]), true)
  {
    hide PayloadLength;
    var p := header + front;
    assert p[..|header|] == header && p[|header|..] == front && p[|p|..] == [];
    assert [] + p[|header|..|p|] == front;
  }

  /**
   * The first fragment of a message is not put together with the others: it is delivered as a whole message as soon as
   * anything follows it, in the same read or in the next.
   */
  lemma FragmentDelivered(first: Octet, kind: Kind, p: seq<Octet>, s: seq<Octet>)
    requires 0 < |p| <= 125 && (first, kind) in {(0x01, Text), (0x02, Binary)} && s != []
    ensures
      var frame, c := [first, |p|] + p, NEW_CONNECTION.(received := [Message(kind, p)]);
      && AllRead(NEW_CONNECTION, [frame]) == NEW_CONNECTION.(body := p, bodyType := kind, bodyLength := |p|)
      && AllRead(NEW_CONNECTION, [frame + s]) == AllRead(NEW_CONNECTION, [frame, s]) == AllRead(c, [s])
  {
    hide Reading, Classify, PayloadLength;
    var frame := [first, |p|] + p;
    var begun := NEW_CONNECTION.(body := p, bodyType := kind, bodyLength := |p|);
    FragmentTaken(first, kind, p, []);
    FragmentTaken(first, kind, p, s);
    assert frame + [] == frame;
    NothingToRead(begun);
    FragmentCompleted(kind, p, s);
    ReadFirst(NEW_CONNECTION, frame, []);
    ReadFirst(NEW_CONNECTION, frame + s, []);
    ReadFirst(NEW_CONNECTION, frame, [s]);
    ReadFirst(begun, s, []);
    ReadFirst(NEW_CONNECTION.(received := [Message(kind, p)]), s, []);
  }

  lemma NothingToRead(c: Connection)
    requires c.input == []
    ensures Reading(c) == c
  {
  }

  /** With the fragment in, the loop goes on with what follows. */
  lemma FragmentTaken(first: Octet, kind: Kind, p: seq<Octet>, s: seq<Octet>)
    requires 0 < |p| <= 125 && (first, kind) in {(0x01, Text), (0x02, Binary)}
    ensures Reading(NEW_CONNECTION.(input := [first, |p|] + p + s))
      == Reading(NEW_CONNECTION.(input := s, body := p, bodyType := kind, bodyLength := |p|))
  {
    hide Classify, PayloadLength;
    var c := NEW_CONNECTION.(input := [first, |p|] + p + s);
    FirstBytes(first, |p|);
    LengthBytes(first, |p|, []);
    assert c.input[..2] == [first, |p|] && c.input[2..2 + |p|] == p && c.input[2 + |p|..] == s && [] + p == p;
    assert Begun(c) == (NEW_CONNECTION.(input := s, body := p, bodyType := kind, bodyLength := |p|), true);
    assert Collected(c) == (c, true);
    hide Begun, Collected;
    assert Reading(c) == Reading(Begun(c).0);
  }

  lemma FragmentCompleted(kind: Kind, p: seq<Octet>, s: seq<Octet>)
    requires 0 < |p| && kind != NoType && s != []
    ensures Reading(NEW_CONNECTION.(input := s, body := p, bodyType := kind, bodyLength := |p|))
      == Reading(NEW_CONNECTION.(input := s, received := [Message(kind, p)]))
  {
    hide Begun;
    var c := NEW_CONNECTION.(input := s, body := p, bodyType := kind, bodyLength := |p|);
    var d := NEW_CONNECTION.(input := s, received := [Message(kind, p)]);
    assert [] + [Message(kind, p)] == [Message(kind, p)];
    assert Collected(c) == (d, true) && Collected(d) == (d, true);
  }
}
