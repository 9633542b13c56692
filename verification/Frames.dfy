/** WebSocket frames as section 5.2 of RFC 6455 lays them out, read off a byte stream. */
module Frames {
  import opened Bits
  import opened Seqs

  type Octet = b: int | 0 <= b < 256

  datatype Option<T> = None | Some(value: T)

  datatype Kind = NoType | Text | Binary | Ping

  datatype Message = Message(kind: Kind, payload: seq<Octet>)

  datatype Reason = Unsupported | ClosedByPeer

  // The bit fields of a frame's first two bytes: masks 0x80, 0x70 and 0x0F of the first,
  // 0x80 and 0x7F of the second.

  predicate Fin(first: Octet) { first >= 0x80 }

  predicate Rsv(first: Octet) { first / 0x10 % 8 != 0 }

  function Opcode(first: Octet): Octet { first % 0x10 }

  predicate Masked(second: Octet) { second >= 0x80 }

  function Length7(second: Octet): (n: nat)
    ensures n < 128
  {
    second % 0x80
  }

  const OP_CONTINUE: Octet := 0x0
  const OP_TEXT: Octet := 0x1
  const OP_BINARY: Octet := 0x2
  const OP_CLOSE: Octet := 0x8
  const OP_PING: Octet := 0x9
  const OP_PONG: Octet := 0xA

  const INT_LIMIT := 0x8000_0000

  /** The number that bytes in network order stand for. */
  function BigEndian(s: seq<Octet>): nat {
    if s == [] then 0 else 256 * BigEndian(s[..|s| - 1]) + s[|s| - 1]
  }

  /** What the first two bytes of a frame say. */
  datatype Class = Bad(reason: Reason) | Odd | Fine(kind: Kind)

  function Classify(first: Octet, second: Octet): Class {
    var opcode := Opcode(first);
    var control := opcode == OP_CLOSE || opcode == OP_PING;
    if (Masked(second) || Rsv(first)) && opcode != OP_PONG then Bad(Unsupported)
    else if !control && opcode != OP_BINARY && opcode != OP_CONTINUE && opcode != OP_TEXT && opcode != OP_PONG then
      Bad(Unsupported)
    else if control && !Fin(first) then Bad(Unsupported)
    else if opcode == OP_CLOSE then Bad(ClosedByPeer)
    else if control && Length7(second) > 125 then Bad(Unsupported)
    else if opcode == OP_PONG || opcode == OP_CONTINUE || !Fin(first) then Odd
    else Fine(KindOf(opcode))
  }

  /**
   * The first two bytes, as section 5.2 of RFC 6455 has them: 1 is text, 2 binary, 8 close, 9 a ping, 10 a pong, 0 a
   * continuation; the topmost bits say that a frame is the last of its message and that it is masked.
   */
  lemma FirstBytes(first: Octet, second: Octet)
    ensures Classify(first, second) ==
      if first % 16 == 10 then Odd
      else if second >= 128 then Bad(Unsupported)
      else if first == 0x81 then Fine(Text)
      else if first == 0x82 then Fine(Binary)
      else if first == 0x88 then Bad(ClosedByPeer)
      else if first == 0x89 && second <= 125 then Fine(Ping)
      else if first == 0x80 || first == 0x00 || first == 0x01 || first == 0x02 then Odd
      else Bad(Unsupported)
  {
    SevenBits(first);
  }

  lemma SevenBits(b: Octet)
    ensures b / 0x10 % 8 == 0 <==> b < 0x10 || 0x80 <= b < 0x90
    ensures b < 0x10 ==> b % 0x10 == b
    ensures 0x80 <= b < 0x90 ==> b % 0x10 == b - 0x80
  {
  }

  /** The length field: seven bits, or two or eight more bytes, the most significant first. */
  lemma LengthBytes(first: Octet, second: Octet, b: seq<Octet>)
    ensures second < 126 ==> HeaderSize(second) == 2 && PayloadLength([first, second]) == second
    ensures second == 126 && |b| == 2 ==>
      HeaderSize(second) == 4 && PayloadLength([first, second] + b) == (b[0] as int) * 256 + b[1]
    ensures second == 127 && |b| == 8 && b[..6] == [0, 0, 0, 0, 0, 0] ==>
      HeaderSize(second) == 10 && PayloadLength([first, second] + b) == (b[6] as int) * 256 + b[7]
    ensures second == 127 && |b| == 8 && b[..4] == [0, 0, 0, 0] && b[6..] == [0, 0] ==>
      HeaderSize(second) == 10 && PayloadLength([first, second] + b) == ((b[4] as int) * 256 + b[5]) * 0x1_0000
  {
    assert ([first, second] + b)[2..] == b;
    if |b| == 2 {
      assert b == [b[0]] + [b[1]] && [] + [b[0]] == [b[0]];
      BigEndianNext([b[0]], b[1]);
      BigEndianNext([], b[0]);
    } else if |b| == 8 {
      assert b == b[..4] + [b[4]] + [b[5]] + [b[6]] + [b[7]];
      BigEndianNext(b[..4] + [b[4]] + [b[5]] + [b[6]], b[7]);
      BigEndianNext(b[..4] + [b[4]] + [b[5]], b[6]);
      BigEndianNext(b[..4] + [b[4]], b[5]);
      BigEndianNext(b[..4], b[4]);
      if b[..4] == [0, 0, 0, 0] { FourZeros(); }
    }
  }

  lemma BigEndianNext(s: seq<Octet>, b: Octet)
    ensures BigEndian(s + [b]) == 256 * BigEndian(s) + b
  {
    assert (s + [b])[..|s|] == s;
  }

  lemma FourZeros()
    ensures BigEndian([0, 0, 0, 0]) == 0
  {
    assert [0, 0, 0, 0] == [] + [0] + [0] + [0] + [0];
    BigEndianNext([], 0);
    BigEndianNext([] + [0], 0);
    BigEndianNext([] + [0] + [0], 0);
    BigEndianNext([] + [0] + [0] + [0], 0);
  }

  function KindOf(opcode: Octet): (k: Kind)
    ensures k != NoType
  {
    if opcode == OP_TEXT then Text else if opcode == OP_BINARY then Binary else Ping
  }

  function HeaderSize(second: Octet): (n: nat)
    ensures n == 2 || n == 4 || n == 10
  {
    if Length7(second) == 127 then 10 else if Length7(second) == 126 then 4 else 2
  }

  function PayloadLength(header: seq<Octet>): nat
    requires |header| >= 2 && |header| == HeaderSize(header[1])
  {
    if |header| == 2 then Length7(header[1]) else BigEndian(header[2..])
  }

  /** What the start of a stream shows: too little, something the client refuses, a frame whose
      handling depends on how the stream is cut into reads, or an ordinary frame. */
  datatype Head =
    | More
    | Refused(reason: Reason)
    | Uneven
    | Frame(kind: Kind, header: nat, length: nat)

  function ParseHead(s: seq<Octet>): Head {
    if |s| < 2 then More
    else
      match Classify(s[0], s[1])
      case Bad(reason) => Refused(reason)
      case Odd => Uneven
      case Fine(kind) =>
        var n := HeaderSize(s[1]);
        if |s| < n then More
        else
          var length := PayloadLength(s[..n]);
          if length >= INT_LIMIT then Uneven else Frame(kind, n, length)
  }

  datatype Status = Waiting | Rejected(reason: Reason) | Outside

  /** The complete messages at the front of a stream, what is left, and why it stops there. */
  datatype Decoded = Decoded(messages: seq<Message>, rest: seq<Octet>, status: Status)

  function Decode(s: seq<Octet>): Decoded
    decreases |s|
  {
    match ParseHead(s)
    case More => Decoded([], s, Waiting)
    case Refused(reason) => Decoded([], s, Rejected(reason))
    case Uneven => Decoded([], s, Outside)
    case Frame(kind, header, length) =>
      if |s| < header + length then Decoded([], s, Waiting)
      else
        var d := Decode(s[header + length..]);
        d.(messages := [Message(kind, s[header..header + length])] + d.messages)
  }

  lemma ParseHeadStable(a: seq<Octet>, b: seq<Octet>)
    requires ParseHead(a) != More
    ensures ParseHead(a + b) == ParseHead(a)
    ensures ParseHead(a).Frame? ==> |a| >= ParseHead(a).header >= 2
  {
    var s := a + b;
    assert s[0] == a[0] && s[1] == a[1];
    var n := HeaderSize(a[1]);
    if |a| >= n {
      assert s[..n] == a[..n];
    }
  }

  /** `e` is what decoding gives when `b` arrives after a stream that decoded to `d`. */
  ghost predicate Extends(d: Decoded, b: seq<Octet>, e: Decoded) {
    if d.status == Waiting then
      var f := Decode(d.rest + b);
      e == f.(messages := d.messages + f.messages)
    else e == d.(rest := d.rest + b)
  }

  lemma ExtendsFront(m: seq<Message>, d: Decoded, b: seq<Octet>, e: Decoded)
    requires Extends(d, b, e)
    ensures Extends(d.(messages := m + d.messages), b, e.(messages := m + e.messages))
  {
    Assoc(m, d.messages, Decode(d.rest + b).messages);
  }

  /** Decoding commutes with the arrival of more bytes. */
  lemma {:induction false} DecodeMore(a: seq<Octet>, b: seq<Octet>)
    ensures Extends(Decode(a), b, Decode(a + b))
    decreases |a|
  {
    var h := ParseHead(a);
    if h == More || (h.Frame? && |a| < h.header + h.length) {
      var f := Decode(a + b);
      assert [] + f.messages == f.messages;
    } else {
      ParseHeadStable(a, b);
      if h.Frame? {
        var k, n := h.header, h.header + h.length;
        DecodeMore(a[n..], b);
        DropMore(a, b, k, n);
        ExtendsFront([Message(h.kind, a[k..n])], Decode(a[n..]), b, Decode(a[n..] + b));
      }
    }
  }

  lemma DropMore(a: seq<Octet>, b: seq<Octet>, k: nat, n: nat)
    requires k <= n <= |a|
    ensures (a + b)[n..] == a[n..] + b && (a + b)[k..n] == a[k..n]
  {
  }

  /** `s` is what is left of a stream that decodes to `d`, with `taken` already delivered. */
  ghost predicate Remains(d: Decoded, taken: seq<Message>, s: seq<Octet>) {
    var e := Decode(s);
    e.status == d.status && e.rest == d.rest && taken + e.messages == d.messages
  }

  lemma RemainsNext(d: Decoded, taken: seq<Message>, s: seq<Octet>, m: Message, rest: seq<Octet>)
    requires Remains(d, taken, s)
    requires Decode(s) == Decode(rest).(messages := [m] + Decode(rest).messages)
    ensures Remains(d, taken + [m], rest)
  {
    Assoc(taken, [m], Decode(rest).messages);
  }

  lemma CompleteFrame(s: seq<Octet>)
    requires ParseHead(s).Frame? && |s| >= ParseHead(s).header + ParseHead(s).length
    ensures
      var h := ParseHead(s);
      var d := Decode(s[h.header + h.length..]);
      Decode(s) == d.(messages := [Message(h.kind, s[h.header..h.header + h.length])] + d.messages)
  {
  }

  /** A header alone shows the same frame. */
  lemma HeaderAlone(s: seq<Octet>)
    requires ParseHead(s).Frame?
    ensures |s| >= ParseHead(s).header >= 2 && ParseHead(s[..ParseHead(s).header]) == ParseHead(s)
  {
    var n := HeaderSize(s[1]);
    assert s[..n][..n] == s[..n];
  }

  /** A frame whose header and first payload bytes have already been set aside. */
  lemma {:induction false} StartedFrame(header: seq<Octet>, body: seq<Octet>, input: seq<Octet>, v: nat)
    requires ParseHead(header).Frame? && ParseHead(header).header == |header|
    requires |body| + v == ParseHead(header).length && v <= |input|
    ensures
      var d := Decode(input[v..]);
      Decode(header + body + input)
        == d.(messages := [Message(ParseHead(header).kind, body + input[..v])] + d.messages)
  {
    hide ParseHead, Decode;
    var h, p := ParseHead(header), body + input;
    Assoc(header, body, input);
    ParseHeadStable(header, p);
    CompleteFrame(header + p);
    AfterHeader(header, p, h.length);
    BodyThenInput(body, input, v);
  }

  lemma AfterHeader(header: seq<Octet>, p: seq<Octet>, length: nat)
    requires length <= |p|
    ensures (header + p)[|header| + length..] == p[length..]
    ensures (header + p)[|header|..|header| + length] == p[..length]
  {
  }

  lemma BodyThenInput(body: seq<Octet>, input: seq<Octet>, v: nat)
    requires v <= |input|
    ensures (body + input)[|body| + v..] == input[v..]
    ensures (body + input)[..|body| + v] == body + input[..v]
  {
  }

  lemma {:induction false} IncompleteFrame(header: seq<Octet>, body: seq<Octet>, input: seq<Octet>)
    requires ParseHead(header).Frame? && ParseHead(header).header == |header|
    requires |body| + |input| < ParseHead(header).length
    ensures Decode(header + body + input) == Decoded([], header + body + input, Waiting)
  {
    assert header + body + input == header + (body + input);
    ParseHeadStable(header, body + input);
  }

  lemma TooShort(s: seq<Octet>)
    requires |s| < 2
    ensures Decode(s) == Decoded([], s, Waiting)
  {
  }

  function Concat(chunks: seq<seq<Octet>>): seq<Octet> {
    if chunks == [] then [] else chunks[0] + Concat(chunks[1..])
  }

  // ---------------------------------------------------------------- frames a peer may send

  /** An unmasked, unfragmented frame.  Its length may be written in any form it fits. */
  datatype Incoming = Incoming(message: Message, form: nat)

  predicate Sendable(f: Incoming) {
    && f.message.kind != NoType
    && (f.message.kind == Ping ==> |f.message.payload| <= 125 && f.form == 2)
    && (f.form == 2 || f.form == 4 || f.form == 10)
    && (f.form == 2 ==> |f.message.payload| < 126)
    && (f.form == 4 ==> |f.message.payload| < 0x1_0000)
    && |f.message.payload| < INT_LIMIT
  }

  function OpcodeOf(kind: Kind): Octet {
    match kind
    case Text => OP_TEXT
    case Binary => OP_BINARY
    case Ping => OP_PING
    case NoType => OP_CONTINUE
  }

  /** `n` in `k` bytes of network order. */
  function NetworkOrder(n: nat, k: nat): (s: seq<Octet>)
    ensures |s| == k
    decreases k
  {
    if k == 0 then [] else NetworkOrder(n / 256, k - 1) + [n % 256]
  }

  lemma {:induction false} NetworkOrderInverts(n: nat, k: nat)
    requires n < Pow256(k)
    ensures BigEndian(NetworkOrder(n, k)) == n
    decreases k
  {
    if k > 0 {
      NetworkOrderInverts(n / 256, k - 1);
      var s := NetworkOrder(n, k);
      assert s[..|s| - 1] == NetworkOrder(n / 256, k - 1);
    }
  }

  function HeaderOf(f: Incoming): (s: seq<Octet>)
    requires Sendable(f)
    ensures |s| == f.form
  {
    var n := |f.message.payload|;
    var second := if f.form == 2 then n else if f.form == 4 then 126 else 127;
    [0x80 + OpcodeOf(f.message.kind), second] + NetworkOrder(n, f.form - 2)
  }

  function Wire(fs: seq<Incoming>): seq<Octet>
    requires forall f :: f in fs ==> Sendable(f)
  {
    if fs == [] then [] else HeaderOf(fs[0]) + fs[0].message.payload + Wire(fs[1..])
  }

  function Messages(fs: seq<Incoming>): seq<Message> {
    if fs == [] then [] else [fs[0].message] + Messages(fs[1..])
  }

  lemma {:induction false} HeaderParses(f: Incoming)
    requires Sendable(f)
    ensures ParseHead(HeaderOf(f)) == Frame(f.message.kind, f.form, |f.message.payload|)
  {
    hide NetworkOrder, PayloadLength;
    LengthParses(f);
    assert HeaderOf(f)[..f.form] == HeaderOf(f);
  }

  lemma LengthParses(f: Incoming)
    requires Sendable(f)
    ensures HeaderSize(HeaderOf(f)[1]) == f.form
    ensures PayloadLength(HeaderOf(f)) == |f.message.payload|
  {
    if f.form > 2 {
      var n := |f.message.payload|;
      assert HeaderOf(f)[2..] == NetworkOrder(n, f.form - 2);
      assert Pow256(2) == 0x1_0000 && Pow256(8) == 0x1_0000_0000_0000_0000;
      NetworkOrderInverts(n, f.form - 2);
    }
  }

  lemma Regroup(h: seq<Octet>, p: seq<Octet>, rest: seq<Octet>)
    ensures h + p + rest == h + [] + (p + rest)
    ensures (p + rest)[|p|..] == rest && [] + (p + rest)[..|p|] == p
  {
  }

  /** The bytes of any frames decode to exactly their messages, with nothing left over. */
  lemma {:induction false} WireDecodes(fs: seq<Incoming>)
    requires forall f :: f in fs ==> Sendable(f)
    ensures Decode(Wire(fs)) == Decoded(Messages(fs), [], Waiting)
  {
    if fs != [] {
      var h, p, rest := HeaderOf(fs[0]), fs[0].message.payload, Wire(fs[1..]);
      HeaderParses(fs[0]);
      WireDecodes(fs[1..]);
      Regroup(h, p, rest);
      StartedFrame(h, [], p + rest, |p|);
    }
  }
}
