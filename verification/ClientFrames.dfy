/** `WebSocket::write`: masked frames, and a reader of them as sections 5.2 and 5.3 of
    RFC 6455 prescribe. */
module ClientFrames {
  import opened Bits
  import opened Frames
  import opened Seqs

  // ---------------------------------------------------------------- masking

  /** Exclusive or of the low `n` bits. */
  function XorBits(a: nat, b: nat, n: nat): nat
    decreases n
  {
    if n == 0 then 0 else (a + b) % 2 + 2 * XorBits(a / 2, b / 2, n - 1)
  }

  lemma {:induction false} XorBitsBound(a: nat, b: nat, n: nat)
    ensures XorBits(a, b, n) < Pow2(n)
    decreases n
  {
    if n > 0 {
      XorBitsBound(a / 2, b / 2, n - 1);
    }
  }

  lemma {:induction false} XorBitsTwice(a: nat, b: nat, n: nat)
    requires a < Pow2(n)
    ensures XorBits(XorBits(a, b, n), b, n) == a
    decreases n
  {
    if n > 0 {
      XorBitsTwice(a / 2, b / 2, n - 1);
      HalfAndParity((a + b) % 2, XorBits(a / 2, b / 2, n - 1));
      Parity(a, b);
    }
  }

  lemma HalfAndParity(bit: nat, half: nat)
    requires bit < 2
    ensures (bit + 2 * half) % 2 == bit && (bit + 2 * half) / 2 == half
  {
  }

  lemma Parity(a: nat, b: nat)
    ensures forall h: nat :: ((a + b) % 2 + 2 * h + b) % 2 == a % 2
  {
    forall h: nat
      ensures ((a + b) % 2 + 2 * h + b) % 2 == a % 2
    {
    }
  }

  function Xor(a: Octet, b: Octet): Octet {
    XorBitsBound(a, b, 8);
    assert Pow2(8) == 256;
    XorBits(a, b, 8)
  }

  lemma XorTwice(a: Octet, b: Octet)
    ensures Xor(Xor(a, b), b) == a
  {
    assert Pow2(8) == 256;
    XorBitsTwice(a, b, 8);
  }

  /** Bit `k` of a number. */
  function Bit(a: nat, k: nat): nat {
    if k == 0 then a % 2 else Bit(a / 2, k - 1)
  }

  lemma {:induction false} XorBitsBit(a: nat, b: nat, n: nat, k: nat)
    requires k < n
    ensures Bit(XorBits(a, b, n), k) == (Bit(a, k) + Bit(b, k)) % 2
    decreases n
  {
    var bit, half := (a + b) % 2, XorBits(a / 2, b / 2, n - 1);
    HalfAndParity(bit, half);
    SumParity(a, b);
    assert XorBits(a, b, n) == bit + 2 * half;
    hide XorBits;
    if k > 0 {
      XorBitsBit(a / 2, b / 2, n - 1, k - 1);
      assert Bit(bit + 2 * half, k) == Bit(half, k - 1);
    }
  }

  lemma SumParity(a: nat, b: nat)
    ensures (a + b) % 2 == (a % 2 + b % 2) % 2
  {
  }

  /** Each bit of an exclusive or is one where exactly one of the two is. */
  lemma XorBit(a: Octet, b: Octet, k: nat)
    requires k < 8
    ensures Bit(Xor(a, b), k) == 1 <==> Bit(a, k) != Bit(b, k)
  {
    hide XorBits, Bit;
    XorBitsBit(a, b, 8, k);
    BitRange(a, k);
    BitRange(b, k);
  }

  lemma {:induction false} BitRange(a: nat, k: nat)
    ensures Bit(a, k) == 0 || Bit(a, k) == 1
  {
    if k > 0 { BitRange(a / 2, k - 1); }
  }

  /** Byte `i` combined with byte `i` modulo 4 of the key. */
  function MaskedBy(data: seq<Octet>, key: seq<Octet>): (r: seq<Octet>)
    requires |key| == 4
    ensures |r| == |data|
  {
    seq(|data|, i requires 0 <= i < |data| => Xor(data[i], key[i % 4]))
  }

  /** Bit by bit, with the four bytes of the key in turn (section 5.3 of RFC 6455). */
  lemma MaskedBit(data: seq<Octet>, key: seq<Octet>, i: nat, k: nat)
    requires |key| == 4 && i < |data| && k < 8
    ensures Bit(MaskedBy(data, key)[i], k) == 1 <==> Bit(data[i], k) != Bit(key[i - i / 4 * 4], k)
  {
    hide Xor, Bit;
    assert i - i / 4 * 4 == i % 4;
    XorBit(data[i], key[i % 4], k);
  }

  lemma {:induction false} MaskedTwice(data: seq<Octet>, key: seq<Octet>)
    requires |key| == 4
    ensures MaskedBy(MaskedBy(data, key), key) == data
  {
    forall i | 0 <= i < |data|
      ensures MaskedBy(MaskedBy(data, key), key)[i] == data[i]
    {
      XorTwice(data[i], key[i % 4]);
    }
  }

  // ---------------------------------------------------------------- the frame written

  function LengthForm(n: nat): nat {
    if n < 126 then 2 else if n <= 0xFFFF then 4 else 10
  }

  function ClientHeader(kind: Kind, n: nat): (s: seq<Octet>)
    ensures |s| == LengthForm(n)
  {
    var second := if n < 126 then n else if n <= 0xFFFF then 126 else 127;
    [0x80 + OpcodeOf(kind), 0x80 + second] + NetworkOrder(n, LengthForm(n) - 2)
  }

  function ClientFrame(m: Message, key: seq<Octet>): seq<Octet>
    requires |key| == 4
  {
    ClientHeader(m.kind, |m.payload|) + key + MaskedBy(m.payload, key)
  }

  // ---------------------------------------------------------------- reading

  /** The length field must use the fewest bytes that hold it (section 5.2). */
  predicate ShortestForm(form: nat, n: nat) {
    form == LengthForm(n)
  }

  datatype FrameRead = Illegal | Good(message: Message, rest: seq<Octet>)

  /** One masked, final text, binary or ping frame off the front of a stream. */
  function ReadFrame(s: seq<Octet>): (r: FrameRead)
    ensures r.Good? ==> |r.rest| < |s|
  {
    if |s| < 2 || !Fin(s[0]) || Rsv(s[0]) || !Masked(s[1]) then Illegal
    else
      var form := HeaderSize(s[1]);
      if |s| < form + 4 then Illegal
      else
        var n := PayloadLength(s[..form]);
        var key := s[form..form + 4];
        var at := form + 4;
        if !ShortestForm(form, n) || |s| < at + n then Illegal
        else
          var payload := MaskedBy(s[at..at + n], key);
          if Opcode(s[0]) == OP_TEXT then Good(Message(Text, payload), s[at + n..])
          else if Opcode(s[0]) == OP_BINARY then Good(Message(Binary, payload), s[at + n..])
          else if Opcode(s[0]) == OP_PING && n <= 125 then Good(Message(Ping, payload), s[at + n..])
          else Illegal
  }

  function ReadAll(s: seq<Octet>): Option<seq<Message>>
    decreases |s|
  {
    if s == [] then Some([])
    else
      match ReadFrame(s)
      case Illegal => None
      case Good(m, rest) =>
        match ReadAll(rest)
        case None => None
        case Some(ms) => Some([m] + ms)
  }

  /** What the protocol lets a client send in one frame: control payloads are short. */
  predicate Legal(m: Message) {
    m.kind != NoType && |m.payload| < INT_LIMIT && (m.kind == Ping ==> |m.payload| <= 125)
  }

  lemma {:induction false} ClientLength(kind: Kind, n: nat)
    requires n < INT_LIMIT
    ensures HeaderSize(ClientHeader(kind, n)[1]) == LengthForm(n)
    ensures PayloadLength(ClientHeader(kind, n)) == n
  {
    hide NetworkOrder, BigEndian, Pow256;
    var h, form := ClientHeader(kind, n), LengthForm(n);
    if form > 2 {
      assert h[2..] == NetworkOrder(n, form - 2);
      TwoAndEightBytes();
      NetworkOrderInverts(n, form - 2);
    }
  }

  lemma TwoAndEightBytes()
    ensures Pow256(2) == 0x1_0000 && Pow256(8) == 0x1_0000_0000_0000_0000
  {
    assert Pow256(4) == 0x1_0000_0000;
  }

  lemma FrameParts(h: seq<Octet>, key: seq<Octet>, data: seq<Octet>, rest: seq<Octet>)
    requires |key| == 4
    ensures
      var s, at := h + key + data + rest, |h| + 4;
      s[..|h|] == h && s[|h|..at] == key && s[at..at + |data|] == data && s[at + |data|..] == rest
  {
  }

  /** A written frame reads back exactly when the protocol allows it. */
  lemma {:induction false} FrameInverts(m: Message, key: seq<Octet>, rest: seq<Octet>)
    requires |key| == 4 && m.kind != NoType && |m.payload| < INT_LIMIT
    ensures ReadFrame(ClientFrame(m, key) + rest) == if Legal(m) then Good(m, rest) else Illegal
  {
    hide NetworkOrder, MaskedBy, PayloadLength;
    var n := |m.payload|;
    var h := ClientHeader(m.kind, n);
    var s := h + key + MaskedBy(m.payload, key) + rest;
    ClientLength(m.kind, n);
    FrameParts(h, key, MaskedBy(m.payload, key), rest);
    MaskedTwice(m.payload, key);
    assert s[0] == h[0] && s[1] == h[1];
  }

  /** A frame as its bytes are: type, masked length in the shortest form, key, and payload (section 5.2). */
  lemma FrameWritten(m: Message, key: seq<Octet>)
    requires |key| == 4 && m.kind != NoType && |m.payload| < INT_LIMIT
    ensures
      var n := |m.payload|;
      var first: Octet := if m.kind == Text then 0x81 else if m.kind == Binary then 0x82 else 0x89;
      ClientFrame(m, key) ==
        (if n < 126 then [first, 0x80 + n]
         else if n < 0x1_0000 then [first, 0xFE, n / 256, n % 256]
         else [first, 0xFF, 0, 0, 0, 0, n / 0x100_0000, n / 0x1_0000 % 256, n / 256 % 256, n % 256])
        + key + MaskedBy(m.payload, key)
  {
    hide MaskedBy;
    var n := |m.payload|;
    if n >= 126 {
      LastBytes(n);
    } else {
      assert NetworkOrder(n, 0) == [];
    }
  }

  lemma LastBytes(n: nat)
    requires n < INT_LIMIT
    ensures n < 0x1_0000 ==> NetworkOrder(n, 2) == [n / 256, n % 256]
    ensures NetworkOrder(n, 8) == [0, 0, 0, 0, n / 0x100_0000, n / 0x1_0000 % 256, n / 256 % 256, n % 256]
  {
    var a, b, c := n / 256, n / 0x1_0000, n / 0x100_0000;
    Quotients(n);
    FourZeroBytes();
    NextByte(n, a, 1);
    NextByte(a, b, 0);
    NextByte(n, a, 7);
    NextByte(a, b, 6);
    NextByte(b, c, 5);
    NextByte(c, 0, 4);
    hide NetworkOrder;
  }

  lemma NextByte(n: nat, a: nat, k: nat)
    requires a == n / 256
    ensures NetworkOrder(n, k + 1) == NetworkOrder(a, k) + [n % 256] && NetworkOrder(a, 0) == []
  {
  }

  lemma Quotients(n: nat)
    requires n < INT_LIMIT
    ensures n / 256 / 256 == n / 0x1_0000 && n / 0x1_0000 / 256 == n / 0x100_0000
    ensures n / 0x100_0000 < 256 && n / 0x100_0000 / 256 == 0
    ensures n < 0x1_0000 ==> n / 256 < 256
  {
  }

  lemma FourZeroBytes()
    ensures NetworkOrder(0, 4) == [0, 0, 0, 0]
  {
    assert NetworkOrder(0, 1) == [0];
    assert NetworkOrder(0, 2) == [0, 0];
    assert NetworkOrder(0, 3) == [0, 0, 0];
  }

  /** A long ping is written all the same. */
  lemma LongPing(payload: seq<Octet>, key: seq<Octet>)
    requires |key| == 4 && 126 <= |payload| < INT_LIMIT
    ensures ReadFrame(ClientFrame(Message(Ping, payload), key)) == Illegal
  {
    var frame := ClientFrame(Message(Ping, payload), key);
    FrameInverts(Message(Ping, payload), key, []);
    assert frame + [] == frame;
  }

  function Stream(ms: seq<Message>, keys: seq<seq<Octet>>): seq<Octet>
    requires |keys| == |ms| && forall k :: k in keys ==> |k| == 4
  {
    if ms == [] then [] else ClientFrame(ms[0], keys[0]) + Stream(ms[1..], keys[1..])
  }

  /** Whatever is written, with whatever keys, is read back as exactly that. */
  lemma {:induction false} StreamInverts(ms: seq<Message>, keys: seq<seq<Octet>>)
    requires |keys| == |ms| && forall k :: k in keys ==> |k| == 4
    requires forall m :: m in ms ==> Legal(m)
    ensures ReadAll(Stream(ms, keys)) == Some(ms)
  {
    hide ClientFrame, ReadFrame;
    if ms != [] {
      assert ms[0] in ms && keys[0] in keys;
      FrameInverts(ms[0], keys[0], Stream(ms[1..], keys[1..]));
      StreamInverts(ms[1..], keys[1..]);
      assert [ms[0]] + ms[1..] == ms;
    }
  }

  // ---------------------------------------------------------------- writing

  class Writer {
    var connected: bool
    /** The connection's output buffer. */
    var output: seq<Octet>

    constructor ()
      ensures connected && output == []
    {
      connected := true;
      output := [];
    }

    /** Appends one frame; `key` is what the random generator supplies. */
    method Write(data: seq<Octet>, kind: Kind, key: seq<Octet>)
      requires |data| < INT_LIMIT && |key| == 4
      modifies `output
      ensures output == if !connected || kind == NoType then old(output)
                        else old(output) + ClientFrame(Message(kind, data), key)
    {
      hide ClientHeader, MaskedBy;
      if !connected || kind == NoType { return; }
      var n := |data|;
      var frame := new Octet[32](_ => 0);
      var offset := FillHeader(frame, kind, n);
      var header := frame[..offset];
      for i := 0 to 4
        invariant frame[..offset] == header && frame[offset..offset + i] == key[..i]
        modifies frame
      {
        frame[offset + i] := key[i];
      }
      assert frame[..offset + 4] == header + frame[offset..offset + 4];
      output := output + frame[..offset + 4];
      AppendMasked(data, key);
      ghost var masked := MaskedBy(data, key);
      Assoc(old(output), header + key, masked);
    }

    /** The payload, one masked byte at a time. */
    method AppendMasked(data: seq<Octet>, key: seq<Octet>)
      requires |key| == 4
      modifies `output
      ensures output == old(output) + MaskedBy(data, key)
    {
      ghost var masked := MaskedBy(data, key);
      for i := 0 to |data|
        invariant output == old(output) + masked[..i]
      {
        var u := Xor(data[i], key[i % 4]);
        assert masked[..i + 1] == masked[..i] + [u];
        Assoc(old(output), masked[..i], [u]);
        output := output + [u];
      }
      assert masked[..|data|] == masked;
    }
  }

  /** The first bytes of a frame, up to the mask key. */
  method FillHeader(frame: array<Octet>, kind: Kind, n: nat) returns (offset: nat)
    requires frame.Length == 32 && kind != NoType && n < INT_LIMIT
    modifies frame
    ensures offset == LengthForm(n) && frame[..offset] == ClientHeader(kind, n)
  {
    hide NetworkOrder;
    match kind {
      case Ping => frame[0] := 0x80 + OP_PING;
      case Text => frame[0] := 0x80 + OP_TEXT;
      case Binary => frame[0] := 0x80 + OP_BINARY;
    }
    offset := 2;
    if n < 126 {
      frame[1] := n;
    } else if n <= 0xFFFF {
      frame[1] := 126;
      PutNetworkOrder(frame, offset, n, 2);
      offset := offset + 2;
    } else {
      frame[1] := 127;
      PutNetworkOrder(frame, offset, n, 8);
      offset := offset + 8;
    }
    assert frame[..2] == [0x80 + OpcodeOf(kind), frame[1]];
    assert frame[2..offset] == NetworkOrder(n, offset - 2);
    frame[1] := frame[1] + 0x80;
    assert frame[..offset] == frame[..2] + frame[2..offset];
  }

  /** htons and htonll: `n` stored at `a[at..at + k]`, most significant byte first. */
  method PutNetworkOrder(a: array<Octet>, at: nat, n: nat, k: nat)
    requires at + k <= a.Length
    modifies a
    ensures a[at..at + k] == NetworkOrder(n, k)
    ensures a[..at] == old(a[..at]) && a[at + k..] == old(a[at + k..])
  {
    var v, i := n, k;
    while i > 0
      invariant 0 <= i <= k
      invariant a[..at] == old(a[..at]) && a[at + k..] == old(a[at + k..])
      invariant NetworkOrder(v, i) + a[at + i..at + k] == NetworkOrder(n, k)
    {
      i := i - 1;
      ghost var tail := a[at + i + 1..at + k];
      a[at + i] := v % 256;
      assert a[at + i..at + k] == [v % 256] + tail;
      assert NetworkOrder(v, i + 1) + tail == NetworkOrder(v / 256, i) + ([v % 256] + tail);
      v := v / 256;
    }
  }
}
