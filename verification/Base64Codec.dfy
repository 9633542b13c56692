/** The alphabet and the reference codec of core/crypto.cc (section 4 of RFC 4648). */
module Base64Codec {
  import opened Bio

  datatype Option<T> = None | Some(value: T)

  // ---------------------------------------------------------------- the two tables

  const ERROR := -1
  const SPACE := -2
  const PAD := -3

  const EQUALS: Byte := 0x3d

  /** `Crypto_base64_enctab`. */
  function Char(v: int): Byte
    requires 0 <= v < 64
  {
    if v < 26 then v + 0x41
    else if v < 52 then v - 26 + 0x61
    else if v < 62 then v - 52 + 0x30
    else if v == 62 then 0x2b
    else 0x2f
  }

  /** `Crypto_base64_dectab`. */
  function Entry(c: Byte): (x: int)
    ensures -3 <= x < 64
  {
    if 0x41 <= c <= 0x5a then c - 0x41
    else if 0x61 <= c <= 0x7a then c - 0x61 + 26
    else if 0x30 <= c <= 0x39 then c - 0x30 + 52
    else if c == 0x2b then 62
    else if c == 0x2f then 63
    else if c == EQUALS then PAD
    else if c == 9 || c == 10 || c == 13 || c == 32 then SPACE
    else ERROR
  }

  /** The tables are inverse: a character stands for a value exactly if it is the character of that value. */
  lemma TablesInvert(c: Byte, v: int)
    requires 0 <= v < 64
    ensures Entry(c) == v <==> c == Char(v)
  {
  }

  /** The values from `v` on are those of the characters of `letters`. */
  predicate Stands(v: nat, letters: string) {
    v + |letters| <= 64 && forall i: nat {:trigger letters[i]} :: i < |letters| ==> Char(v + i) == letters[i] as int
  }

  /** The alphabet of section 4 of RFC 4648. */
  lemma Alphabet()
    ensures Stands(0, "ABCDEFGHIJKLM") && Stands(13, "NOPQRSTUVWXYZ")
    ensures Stands(26, "abcdefghijklm") && Stands(39, "nopqrstuvwxyz")
    ensures Stands(52, "0123456789") && Stands(62, "+/")
  {
    CapitalLetters();
    SmallLetters();
  }

  lemma CapitalLetters()
    ensures Stands(0, "ABCDEFGHIJKLM") && Stands(13, "NOPQRSTUVWXYZ")
  {
  }

  lemma SmallLetters()
    ensures Stands(26, "abcdefghijklm") && Stands(39, "nopqrstuvwxyz")
  {
  }

  /** The other characters: padding, white space, and all that is neither. */
  lemma OutsideAlphabet(c: Byte)
    ensures Entry(c) == PAD <==> c == '=' as int
    ensures Entry(c) == SPACE <==> c == '\t' as int || c == '\n' as int || c == '\r' as int || c == ' ' as int
    ensures Entry(c) == ERROR <==> Entry(c) != PAD && Entry(c) != SPACE && forall v | 0 <= v < 64 :: c != Char(v)
  {
    if Entry(c) >= 0 { TablesInvert(c, Entry(c)); }
  }

  // ---------------------------------------------------------------- encoding

  function Three(a: int, b: int, c: int): (q: seq<Byte>)
    requires 0 <= a < 256 && 0 <= b < 256 && 0 <= c < 256
    ensures |q| == 4
  {
    var t := (a * 256 + b) * 256 + c;
    [Char(t / 0x4_0000), Char(t / 0x1000 % 64), Char(t / 0x40 % 64), Char(t % 64)]
  }

  function Two(a: int, b: int): (q: seq<Byte>)
    requires 0 <= a < 256 && 0 <= b < 256
    ensures |q| == 4
  {
    var t := a * 256 + b;
    [Char(t / 0x400), Char(t / 0x10 % 64), Char(t * 4 % 64), EQUALS]
  }

  function One(t: int): (q: seq<Byte>)
    requires 0 <= t < 256
    ensures |q| == 4
  {
    [Char(t / 4), Char(t * 16 % 64), EQUALS, EQUALS]
  }

  function Encode(d: seq<Byte>): seq<Byte> {
    if |d| >= 3 then Three(d[0], d[1], d[2]) + Encode(d[3..])
    else if |d| == 2 then Two(d[0], d[1])
    else if |d| == 1 then One(d[0])
    else []
  }

  lemma {:induction false} EncodeLength(d: seq<Byte>)
    ensures |Encode(d)| == (|d| + 2) / 3 * 4
  {
    hide Three, Two, One;
    if |d| >= 3 { EncodeLength(d[3..]); }
  }

  // ---------------------------------------------------------------- decoding, one character at a time

  /** The bytes of a quantum of four characters, of which the last `equals` are padding. */
  function Emit(t: int, equals: nat): seq<Byte>
    requires equals < 3
  {
    if equals == 0 then [t / 0x1_0000 % 256, t / 0x100 % 256, t % 256]
    else if equals == 1 then [t / 0x1_0000 % 256, t / 0x100 % 256]
    else [t / 0x1_0000 % 256]
  }

  function Prepend(p: seq<Byte>, r: Option<seq<Byte>>): Option<seq<Byte>> {
    if r.Some? then Some(p + r.value) else None
  }

  /**
   * The slow loop: `chars` characters of the current quantum have been read, `equals` of them padding,
   * and `t` is their value.
   */
  function Slow(s: seq<Byte>, t: int, equals: nat, chars: nat): Option<seq<Byte>> {
    if |s| == 0 then (if chars == 0 then Some([]) else None)
    else
      var x := Entry(s[0]);
      if x == SPACE then Slow(s[1..], t, equals, chars)
      else if x == ERROR || (x >= 0 && equals > 0) then None
      else
        var t', equals' := if x == PAD then t * 64 else t * 64 + x, if x == PAD then equals + 1 else equals;
        if chars != 3 then Slow(s[1..], t', equals', chars + 1)
        else if equals' > 2 then None
        else Prepend(Emit(t', equals'), Slow(s[1..], 0, 0, 0))
  }

  function Decode(s: seq<Byte>): Option<seq<Byte>> {
    Slow(s, 0, 0, 0)
  }

  // ---------------------------------------------------------------- its properties

  predicate IsSpace(c: Byte) {
    Entry(c) == SPACE
  }

  function Strip(s: seq<Byte>): seq<Byte> {
    if |s| == 0 then [] else (if IsSpace(s[0]) then [] else [s[0]]) + Strip(s[1..])
  }

  lemma {:induction false} SlowStrip(s: seq<Byte>, t: int, equals: nat, chars: nat)
    ensures Slow(Strip(s), t, equals, chars) == Slow(s, t, equals, chars)
  {
    if |s| > 0 {
      var x := Entry(s[0]);
      if x == SPACE {
        assert Strip(s) == Strip(s[1..]);
        SlowStrip(s[1..], t, equals, chars);
      } else {
        assert Strip(s)[1..] == Strip(s[1..]);
        SlowStrip(s[1..], t * 64, equals + 1, chars + 1);
        SlowStrip(s[1..], t * 64 + x, equals, chars + 1);
        SlowStrip(s[1..], 0, 0, 0);
      }
    }
  }

  /** Tabs, line feeds, carriage returns and spaces make no difference, wherever they are. */
  lemma WhitespaceIgnored(s: seq<Byte>, s': seq<Byte>)
    requires Strip(s) == Strip(s')
    ensures Decode(s) == Decode(s')
  {
    SlowStrip(s, 0, 0, 0);
    SlowStrip(s', 0, 0, 0);
  }

  function Both(a: Option<seq<Byte>>, b: Option<seq<Byte>>): Option<seq<Byte>> {
    if a.Some? then Prepend(a.value, b) else None
  }

  lemma PrependNothing(r: Option<seq<Byte>>)
    ensures Prepend([], r) == r
  {
    if r.Some? {
      assert [] + r.value == r.value;
    }
  }

  lemma PrependBoth(p: seq<Byte>, a: Option<seq<Byte>>, b: Option<seq<Byte>>)
    ensures Both(Prepend(p, a), b) == Prepend(p, Both(a, b))
  {
    if a.Some? && b.Some? {
      assert p + (a.value + b.value) == p + a.value + b.value;
    }
  }

  lemma {:induction false} SlowConcat(a: seq<Byte>, b: seq<Byte>, t: int, equals: nat, chars: nat)
    requires Slow(a, t, equals, chars).Some? && (chars == 0 ==> t == 0 && equals == 0)
    ensures Slow(a + b, t, equals, chars) == Both(Slow(a, t, equals, chars), Decode(b))
  {
    if |a| == 0 {
      assert a + b == b;
      PrependNothing(Decode(b));
    } else {
      assert (a + b)[1..] == a[1..] + b;
      var x := Entry(a[0]);
      if x == SPACE {
        SlowConcat(a[1..], b, t, equals, chars);
      } else {
        var t', equals' := if x == PAD then t * 64 else t * 64 + x, if x == PAD then equals + 1 else equals;
        if chars != 3 {
          SlowConcat(a[1..], b, t', equals', chars + 1);
        } else {
          SlowConcat(a[1..], b, 0, 0, 0);
          PrependBoth(Emit(t', equals'), Decode(a[1..]), Decode(b));
        }
      }
    }
  }

  /** If the first part decodes, the whole decodes exactly if the second part does, to both results in order. */
  lemma ConcatDecodes(a: seq<Byte>, b: seq<Byte>)
    requires Decode(a).Some?
    ensures Decode(a + b) == Both(Decode(a), Decode(b))
  {
    SlowConcat(a, b, 0, 0, 0);
  }

  // ---------------------------------------------------------------- RFC 4648, four characters at a time

  /** Four characters, of which the last two may be padding. */
  predicate Quantum(q: seq<Byte>) {
    && |q| == 4 && Entry(q[0]) >= 0 && Entry(q[1]) >= 0
    && (Entry(q[2]) >= 0 || (q[2] == EQUALS && q[3] == EQUALS))
    && (Entry(q[3]) >= 0 || q[3] == EQUALS)
  }

  function Value(c: Byte): (v: int)
    ensures 0 <= v < 64
  {
    if Entry(c) >= 0 then Entry(c) else 0
  }

  /** The twenty-four bits of the quantum, without those of the padding. */
  function Bytes(q: seq<Byte>): seq<Byte>
    requires Quantum(q)
  {
    var t := ((Value(q[0]) * 64 + Value(q[1])) * 64 + Value(q[2])) * 64 + Value(q[3]);
    if q[2] == EQUALS then [t / 0x1_0000 % 256]
    else if q[3] == EQUALS then [t / 0x1_0000 % 256, t / 0x100 % 256]
    else [t / 0x1_0000 % 256, t / 0x100 % 256, t % 256]
  }

  function Reference(s: seq<Byte>): Option<seq<Byte>> {
    if |s| == 0 then Some([])
    else if |s| < 4 || !Quantum(s[..4]) then None
    else Prepend(Bytes(s[..4]), Reference(s[4..]))
  }

  /** One character of the slow loop that is not whitespace. */
  lemma SlowNext(c: Byte, rest: seq<Byte>, t: int, equals: nat, chars: nat)
    requires !IsSpace(c)
    ensures
      var x := Entry(c);
      var t', equals' := if x == PAD then t * 64 else t * 64 + x, if x == PAD then equals + 1 else equals;
      Slow([c] + rest, t, equals, chars) ==
        if x == ERROR || (x >= 0 && equals > 0) then None
        else if chars != 3 then Slow(rest, t', equals', chars + 1)
        else if equals' > 2 then None
        else Prepend(Emit(t', equals'), Slow(rest, 0, 0, 0))
  {
    assert ([c] + rest)[1..] == rest;
  }

  /** Padding in the second place: no byte can be made of the quantum. */
  lemma PadThenTwo(c: Byte, d: Byte, rest: seq<Byte>, t: int, equals: nat)
    requires !IsSpace(c) && !IsSpace(d) && equals > 0
    ensures Slow([c] + ([d] + rest), t, equals, 2) == None
  {
    hide Slow;
    SlowNext(c, [d] + rest, t, equals, 2);
    SlowNext(d, rest, t * 64, equals + 1, 3);
  }

  lemma PadThenThree(b: Byte, c: Byte, d: Byte, rest: seq<Byte>)
    requires !IsSpace(b) && !IsSpace(c) && !IsSpace(d)
    ensures Slow([b] + ([c] + ([d] + rest)), 0, 1, 1) == None
  {
    hide Slow;
    SlowNext(b, [c] + ([d] + rest), 0, 1, 1);
    PadThenTwo(c, d, rest, 0, 2);
  }

  /** A quantum is read by four steps of the slow loop, and nothing else of its kind is. */
  lemma SlowQuantum(q: seq<Byte>, rest: seq<Byte>)
    requires |q| == 4 && forall c <- q :: !IsSpace(c)
    ensures Decode(q + rest) == if Quantum(q) then Prepend(Bytes(q), Decode(rest)) else None
  {
    hide Slow;
    var a, b, c, d := q[0], q[1], q[2], q[3];
    assert !IsSpace(a) && !IsSpace(b) && !IsSpace(c) && !IsSpace(d);
    assert q + rest == [a] + ([b] + ([c] + ([d] + rest)));
    var x, y, z := Entry(a), Entry(b), Entry(c);
    SlowNext(a, [b] + ([c] + ([d] + rest)), 0, 0, 0);
    if x == PAD {
      PadThenThree(b, c, d, rest);
    } else if x >= 0 {
      SlowNext(b, [c] + ([d] + rest), x, 0, 1);
      if y == PAD {
        PadThenTwo(c, d, rest, x * 64, 1);
      } else if y >= 0 {
        var t := x * 64 + y;
        SlowNext(c, [d] + rest, t, 0, 2);
        SlowNext(d, rest, t * 64, 1, 3);
        SlowNext(d, rest, t * 64 + z, 0, 3);
      }
    }
  }

  /** On a text without whitespace the slow loop is the decoder of RFC 4648, quantum by quantum. */
  lemma {:induction false} DecodeIsReference(s: seq<Byte>)
    requires forall c <- s :: !IsSpace(c)
    ensures Decode(s) == Reference(s)
  {
    if |s| >= 4 {
      assert s[..4] + s[4..] == s;
      SlowQuantum(s[..4], s[4..]);
      DecodeIsReference(s[4..]);
    } else {
      ShortFails(s, 0, 0, 0);
    }
  }

  lemma {:induction false} ShortFails(s: seq<Byte>, t: int, equals: nat, chars: nat)
    requires chars + |s| < 4 && forall c <- s :: !IsSpace(c)
    ensures Slow(s, t, equals, chars).Some? <==> chars + |s| == 0
  {
    if |s| > 0 {
      assert !IsSpace(s[0]);
      ShortFails(s[1..], t * 64, equals + 1, chars + 1);
      ShortFails(s[1..], t * 64 + Entry(s[0]), equals, chars + 1);
    }
  }

  // ---------------------------------------------------------------- round trip

  lemma DivDiv(t: nat)
    ensures t / 0x40 / 0x40 == t / 0x1000 && t / 0x1000 / 0x40 == t / 0x4_0000
  {
  }

  /** Cut into four groups of six bits and put together again. */
  lemma SixBits(t: nat)
    ensures ((t / 0x4_0000 * 64 + t / 0x1000 % 64) * 64 + t / 0x40 % 64) * 64 + t % 64 == t
  {
    DivDiv(t);
  }

  lemma EightBits(a: nat, b: nat, c: nat)
    requires a < 256 && b < 256 && c < 256
    ensures
      var t := (a * 256 + b) * 256 + c;
      t / 0x1_0000 % 256 == a && t / 0x100 % 256 == b && t % 256 == c
  {
    var t := (a * 256 + b) * 256 + c;
    assert t / 0x100 == a * 256 + b;
    assert t / 0x1_0000 == a;
  }

  lemma ThreeBits(a: nat, b: nat, c: nat)
    requires a < 256 && b < 256 && c < 256
    ensures
      var t := (a * 256 + b) * 256 + c;
      var u := ((t / 0x4_0000 * 64 + t / 0x1000 % 64) * 64 + t / 0x40 % 64) * 64 + t % 64;
      Emit(u, 0) == [a, b, c] && t / 0x4_0000 < 64
  {
    SixBits((a * 256 + b) * 256 + c);
    EightBits(a, b, c);
  }

  lemma Shifted(t: nat)
    ensures t * 256 / 0x4_0000 == t / 0x400 && t * 256 / 0x1000 == t / 0x10 && t * 256 / 0x40 == t * 4
    ensures t * 256 % 64 == 0
  {
  }

  lemma TwoBits(a: nat, b: nat)
    requires a < 256 && b < 256
    ensures
      var t := a * 256 + b;
      var u := ((t / 0x400 * 64 + t / 0x10 % 64) * 64 + t * 4 % 64) * 64;
      Emit(u, 1) == [a, b] && t / 0x400 < 64
  {
    SixBits((a * 256 + b) * 256);
    Shifted(a * 256 + b);
    EightBits(a, b, 0);
  }

  lemma OneBits(a: int)
    requires 0 <= a < 256
    ensures
      var u := (a / 4 * 64 + a * 16 % 64) * 64 * 64;
      Emit(u, 2) == [a]
  {
    assert a * 16 % 64 == a % 4 * 16;
  }

  lemma CharValue(v: int)
    requires 0 <= v < 64
    ensures Entry(Char(v)) == v && Value(Char(v)) == v && !IsSpace(Char(v)) && Char(v) != EQUALS
  {
  }

  /** What four characters of the alphabet decode to; padding replaces the last one or two. */
  lemma CharsDecode(v0: int, v1: int, v2: int, v3: int, rest: seq<Byte>)
    requires 0 <= v0 < 64 && 0 <= v1 < 64 && 0 <= v2 < 64 && 0 <= v3 < 64
    ensures Decode([Char(v0), Char(v1), Char(v2), Char(v3)] + rest)
      == Prepend(Emit(((v0 * 64 + v1) * 64 + v2) * 64 + v3, 0), Decode(rest))
    ensures Decode([Char(v0), Char(v1), Char(v2), EQUALS] + rest)
      == Prepend(Emit(((v0 * 64 + v1) * 64 + v2) * 64, 1), Decode(rest))
    ensures Decode([Char(v0), Char(v1), EQUALS, EQUALS] + rest)
      == Prepend(Emit((v0 * 64 + v1) * 64 * 64, 2), Decode(rest))
  {
    hide Slow, Char;
    CharValue(v0);
    CharValue(v1);
    CharValue(v2);
    CharValue(v3);
    SlowQuantum([Char(v0), Char(v1), Char(v2), Char(v3)], rest);
    SlowQuantum([Char(v0), Char(v1), Char(v2), EQUALS], rest);
    SlowQuantum([Char(v0), Char(v1), EQUALS, EQUALS], rest);
  }

  lemma EmptyDecodes()
    ensures Decode([]) == Some([])
  {
  }

  lemma ThreeDecode(a: int, b: int, c: int, rest: seq<Byte>)
    requires 0 <= a < 256 && 0 <= b < 256 && 0 <= c < 256
    ensures Decode(Three(a, b, c) + rest) == Prepend([a, b, c], Decode(rest))
  {
    hide Slow, Char, Decode, Emit;
    var t := (a * 256 + b) * 256 + c;
    ThreeBits(a, b, c);
    CharsDecode(t / 0x4_0000, t / 0x1000 % 64, t / 0x40 % 64, t % 64, rest);
  }

  lemma TwoDecode(a: int, b: int)
    requires 0 <= a < 256 && 0 <= b < 256
    ensures Decode(Two(a, b)) == Some([a, b])
  {
    hide Slow, Char, Decode, Emit;
    var t := a * 256 + b;
    TwoBits(a, b);
    CharsDecode(t / 0x400, t / 0x10 % 64, t * 4 % 64, 0, []);
    EmptyDecodes();
    assert Two(a, b) + [] == Two(a, b) && [a, b] + [] == [a, b];
  }

  lemma OneDecode(a: int)
    requires 0 <= a < 256
    ensures Decode(One(a)) == Some([a])
  {
    hide Slow, Char, Decode, Emit;
    OneBits(a);
    CharsDecode(a / 4, a * 16 % 64, 0, 0, []);
    EmptyDecodes();
    assert One(a) + [] == One(a) && [a] + [] == [a];
  }

  /** Decoding an encoding gives the bytes back. */
  lemma {:induction false} RoundTrip(d: seq<Byte>)
    ensures Decode(Encode(d)) == Some(d)
  {
    hide Three, Two, One, Decode;
    if |d| >= 3 {
      ThreeDecode(d[0], d[1], d[2], Encode(d[3..]));
      RoundTrip(d[3..]);
      assert d == [d[0], d[1], d[2]] + d[3..];
    } else if |d| == 2 {
      TwoDecode(d[0], d[1]);
      assert d == [d[0], d[1]];
    } else if |d| == 1 {
      OneDecode(d[0]);
      assert d == [d[0]];
    } else {
      EmptyDecodes();
    }
  }

  // ---------------------------------------------------------------- where the bits go

  lemma SplitBits(v0: int, v1: int, v2: int, v3: int)
    requires 0 <= v0 < 64 && 0 <= v1 < 64 && 0 <= v2 < 64 && 0 <= v3 < 64
    ensures
      var t := ((v0 * 64 + v1) * 64 + v2) * 64 + v3;
      && t / 0x1_0000 % 256 == v0 * 4 + v1 / 16
      && t / 0x100 % 256 == v1 % 16 * 16 + v2 / 4
      && t % 256 == v2 % 4 * 64 + v3
  {
    var t := ((v0 * 64 + v1) * 64 + v2) * 64 + v3;
    var y, z := v1 / 16, v2 / 4;
    assert v1 == 16 * y + v1 % 16 && v2 == 4 * z + v2 % 4;
    assert t == (v0 * 4 + y) * 0x1_0000 + (v1 % 16 * 16 + z) * 0x100 + (v2 % 4 * 64 + v3);
    EightBits(v0 * 4 + y, v1 % 16 * 16 + z, v2 % 4 * 64 + v3);
  }

  /**
   * Six bits of each character go into the bytes, the highest first; in front of padding the bits that do not fill a
   * byte are dropped, whatever they are.
   */
  lemma BitsDecode(v0: int, v1: int, v2: int, v3: int, rest: seq<Byte>)
    requires 0 <= v0 < 64 && 0 <= v1 < 64 && 0 <= v2 < 64 && 0 <= v3 < 64
    ensures Decode([Char(v0), Char(v1), Char(v2), Char(v3)] + rest)
      == Prepend([v0 * 4 + v1 / 16, v1 % 16 * 16 + v2 / 4, v2 % 4 * 64 + v3], Decode(rest))
    ensures Decode([Char(v0), Char(v1), Char(v2), 0x3d] + rest)
      == Prepend([v0 * 4 + v1 / 16, v1 % 16 * 16 + v2 / 4], Decode(rest))
    ensures Decode([Char(v0), Char(v1), 0x3d, 0x3d] + rest) == Prepend([v0 * 4 + v1 / 16], Decode(rest))
  {
    hide Decode, Char;
    CharsDecode(v0, v1, v2, v3, rest);
    SplitBits(v0, v1, v2, v3);
    SplitBits(v0, v1, v2, 0);
    SplitBits(v0, v1, 0, 0);
  }

  predicate Spells(b: seq<Byte>, s: string) {
    |b| == |s| && forall i: nat {:trigger s[i]} :: i < |s| ==> b[i] == s[i] as int
  }

  /** The longest three test vectors of section 10 of RFC 4648: foob, fooba and foobar. */
  lemma Foobar()
    ensures Spells(Encode([0x66, 0x6f, 0x6f, 0x62]), "Zm9vYg==")
    ensures Spells(Encode([0x66, 0x6f, 0x6f, 0x62, 0x61]), "Zm9vYmE=")
    ensures Spells(Encode([0x66, 0x6f, 0x6f, 0x62, 0x61, 0x72]), "Zm9vYmFy")
  {
    hide Char;
    Bars();
    Foo([]);
    Foo([0x62]);
    Foo([0x62, 0x61]);
    Foo([0x62, 0x61, 0x72]);
  }

  lemma Foo(rest: seq<Byte>)
    ensures Encode([0x66, 0x6f, 0x6f] + rest) == [0x5a, 0x6d, 0x39, 0x76] + Encode(rest)
  {
    hide Three;
    var d := [0x66, 0x6f, 0x6f] + rest;
    assert d[3..] == rest && d[0] == 0x66 && d[1] == 0x6f && d[2] == 0x6f;
    FooAlone();
  }

  lemma FooAlone()
    ensures Three(0x66, 0x6f, 0x6f) == [0x5a, 0x6d, 0x39, 0x76]
  {
    ThreeChars(0x66, 0x6f, 0x6f, 25, 38, 61, 47);
  }

  /** Three bytes are the characters whose values are the four digits of their number to the base of 64. */
  lemma ThreeChars(a: int, b: int, c: int, v0: nat, v1: nat, v2: nat, v3: nat)
    requires 0 <= a < 256 && 0 <= b < 256 && 0 <= c < 256 && v0 < 64 && v1 < 64 && v2 < 64 && v3 < 64
    requires (a * 256 + b) * 256 + c == ((v0 * 64 + v1) * 64 + v2) * 64 + v3
    ensures Three(a, b, c) == [Char(v0), Char(v1), Char(v2), Char(v3)]
  {
    hide Char;
    SextetsOf((a * 256 + b) * 256 + c, v0, v1, v2, v3);
  }

  lemma SextetsOf(t: nat, v0: nat, v1: nat, v2: nat, v3: nat)
    requires v0 < 64 && v1 < 64 && v2 < 64 && v3 < 64 && t == ((v0 * 64 + v1) * 64 + v2) * 64 + v3
    ensures t / 0x4_0000 == v0 && t / 0x1000 % 64 == v1 && t / 0x40 % 64 == v2 && t % 64 == v3
  {
    var u := t / 0x40;
    assert u == (v0 * 64 + v1) * 64 + v2 && t % 64 == v3;
    var w := u / 0x40;
    assert w == v0 * 64 + v1 && u % 64 == v2;
    assert w / 0x40 == v0 && w % 64 == v1;
    DivDiv(t);
  }

  lemma Bars()
    ensures Encode([0x62]) == [0x59, 0x67, 0x3d, 0x3d] && Encode([0x62, 0x61]) == [0x59, 0x6d, 0x45, 0x3d]
    ensures Encode([0x62, 0x61, 0x72]) == [0x59, 0x6d, 0x46, 0x79]
  {
    hide Three;
    assert [0x62, 0x61, 0x72][3..] == [];
    ThreeChars(0x62, 0x61, 0x72, 24, 38, 5, 50);
  }
}
