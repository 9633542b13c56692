/** The loops of core/crypto.cc, proved against the reference codec. */
module Base64 {
  import Bio
  import opened Base64Codec
  import opened Bits
  import opened Buffers

  type Byte = Bio.Byte

  // ---------------------------------------------------------------- the sign-bit trick of the fast path

  /** `(t << 6) | x`: a negative table entry, extended by its sign, covers everything above it. */
  lemma OrShifted(t: int, x: int)
    requires -64 <= x < 64
    ensures Or(t * 64, x) == if x >= 0 then t * 64 + x else x
  {
    hide Or;
    OrDouble(t * 32, x);
    OrDouble(t * 16, x / 2);
    OrDouble(t * 8, x / 2 / 2);
    OrDouble(t * 4, x / 2 / 2 / 2);
    OrDouble(t * 2, x / 2 / 2 / 2 / 2);
    OrDouble(t, x / 2 / 2 / 2 / 2 / 2);
    OrZero(t);
  }

  /** The value the fast path makes of four table entries. */
  function Packed(x0: int, x1: int, x2: int, x3: int): int {
    Or(Or(Or(x0 * 64, x1) * 64, x2) * 64, x3)
  }

  /** It is negative exactly if some entry is, and otherwise the value the slow loop would make. */
  lemma SignTrick(x0: int, x1: int, x2: int, x3: int)
    requires -3 <= x0 < 64 && -3 <= x1 < 64 && -3 <= x2 < 64 && -3 <= x3 < 64
    ensures Packed(x0, x1, x2, x3) < 0 <==> x0 < 0 || x1 < 0 || x2 < 0 || x3 < 0
    ensures x0 >= 0 && x1 >= 0 && x2 >= 0 && x3 >= 0 ==> Packed(x0, x1, x2, x3) == ((x0 * 64 + x1) * 64 + x2) * 64 + x3
  {
    hide Or;
    OrShifted(x0, x1);
    OrShifted(Or(x0 * 64, x1), x2);
    OrShifted(Or(Or(x0 * 64, x1) * 64, x2), x3);
  }

  lemma FastQuantum(s: seq<Byte>, i: nat, t: int)
    requires i + 4 <= |s| && t == Packed(Entry(s[i]), Entry(s[i + 1]), Entry(s[i + 2]), Entry(s[i + 3])) && t >= 0
    ensures Decode(s[i..]) == Prepend(Emit(t, 0), Decode(s[i + 4..]))
  {
    hide Slow, Decode, Packed;
    SignTrick(Entry(s[i]), Entry(s[i + 1]), Entry(s[i + 2]), Entry(s[i + 3]));
    var q := s[i..i + 4];
    assert q + s[i + 4..] == s[i..];
    SlowQuantum(q, s[i + 4..]);
  }

  lemma PrependTwice(a: seq<Byte>, b: seq<Byte>, r: Option<seq<Byte>>)
    ensures Prepend(a, Prepend(b, r)) == Prepend(a + b, r)
  {
    if r.Some? {
      assert a + (b + r.value) == a + b + r.value;
    }
  }

  // ---------------------------------------------------------------- decoding

  /** Room for what `n` characters decode to, behind the first `base` bytes. */
  predicate Room(dst: array<Byte>, base: nat, n: nat) {
    base + n * 3 / 4 + 5 <= dst.Length
  }

  /** Writes the three bytes of a quantum at `k`. */
  method Put(dst: array<Byte>, k: nat, t: nat)
    requires k + 3 <= dst.Length
    modifies dst
    ensures dst[..k + 3] == old(dst[..k]) + Emit(t, 0)
  {
    dst[k] := t / 0x1_0000 % 256;
    dst[k + 1] := t / 0x100 % 256;
    dst[k + 2] := t % 256;
    assert dst[..k + 3] == dst[..k] + [dst[k], dst[k + 1], dst[k + 2]];
  }

  /** What has been written so far, and what is still to be decoded. */
  ghost predicate Decoding(src: seq<Byte>, i: nat, before: seq<Byte>, now: seq<Byte>)
    requires i <= |src|
  {
    Prepend(before, Decode(src)) == Prepend(now, Decode(src[i..]))
  }

  lemma DecodingMore(src: seq<Byte>, i: nat, j: nat, before: seq<Byte>, now: seq<Byte>, q: seq<Byte>)
    requires i <= j <= |src| && Decoding(src, i, before, now)
    requires Decode(src[i..]) == Prepend(q, Decode(src[j..]))
    ensures Decoding(src, j, before, now + q)
  {
    hide Decode;
    PrependTwice(now, q, Decode(src[j..]));
  }

  /** The fast path: quantums without padding, whitespace or errors. */
  method FastLoop(src: seq<Byte>, i0: nat, dst: array<Byte>, base: nat, k0: nat, ghost before: seq<Byte>)
    returns (i: nat, k: nat)
    requires i0 <= |src| && Room(dst, base, |src|) && 4 * k0 <= 3 * i0
    requires Decoding(src, i0, before, dst[..base + k0])
    modifies dst
    ensures i0 <= i <= |src| && 4 * k <= 3 * i
    ensures dst[..base] == old(dst[..base])
    ensures Decoding(src, i, before, dst[..base + k])
  {
    hide Slow, Decode, Decoding, Or, Emit;
    i, k := i0, k0;
    while i + 4 <= |src|
      invariant i0 <= i <= |src| && 4 * k <= 3 * i
      invariant dst[..base] == old(dst[..base])
      invariant Decoding(src, i, before, dst[..base + k])
    {
      var t := Entry(src[i]);
      i := i + 1;
      t := Or(t * 64, Entry(src[i]));
      i := i + 1;
      t := Or(t * 64, Entry(src[i]));
      i := i + 1;
      t := Or(t * 64, Entry(src[i]));
      i := i + 1;
      if t < 0 {
        i := i - 4;
        break;
      }
      FastQuantum(src, i - 4, t);
      DecodingMore(src, i - 4, i, before, dst[..base + k], Emit(t, 0));
      label L:
      Put(dst, base + k, t);
      assert dst[..base] == dst[..base + k + 3][..base];
      k := k + 3;
    }
  }

  lemma SlowSpace(c: Byte, rest: seq<Byte>, t: int, equals: nat, chars: nat)
    requires IsSpace(c)
    ensures Slow([c] + rest, t, equals, chars) == Slow(rest, t, equals, chars)
  {
    assert ([c] + rest)[1..] == rest;
  }

  lemma SlowEnd(t: int, equals: nat, chars: nat)
    ensures Slow([], t, equals, chars) == if chars == 0 then Some([]) else None
  {
  }

  datatype Exit = Again | Done | Failed

  /** The slow path: one quantum, character by character, or the end of the text. */
  method SlowLoop(src: seq<Byte>, i0: nat, dst: array<Byte>, base: nat, k0: nat, ghost before: seq<Byte>)
    returns (exit: Exit, i: nat, k: nat)
    requires i0 <= |src| && Room(dst, base, |src|) && 4 * k0 <= 3 * i0
    requires Decoding(src, i0, before, dst[..base + k0])
    modifies dst
    ensures i0 <= i <= |src| && 4 * k <= 3 * i && dst[..base] == old(dst[..base])
    ensures exit == Again ==> i0 < i && Decoding(src, i, before, dst[..base + k])
    ensures exit == Done ==> Prepend(before, Decode(src)) == Some(dst[..base + k])
    ensures exit == Failed ==> Decode(src) == None
  {
    hide Slow, Emit, Or;
    i, k := i0, k0;
    var equals, chars, t := 0, 0, 0;
    while i < |src|
      invariant i0 + chars <= i <= |src| && chars <= 3 && t >= 0 && k == k0
      invariant dst[..] == old(dst[..])
      invariant Decode(src[i0..]) == Slow(src[i..], t, equals, chars)
      modifies dst
    {
      var x := Entry(src[i]);
      i := i + 1;
      assert src[i - 1..] == [src[i - 1]] + src[i..];
      if x == SPACE {
        SlowSpace(src[i - 1], src[i..], t, equals, chars);
        continue;
      }
      SlowNext(src[i - 1], src[i..], t, equals, chars);
      if x < 0 {
        if x == PAD {
          equals := equals + 1;
          t := t * 64;
        } else {
          exit := Failed;
          return;
        }
      } else {
        if equals > 0 {
          exit := Failed;
          return;
        }
        t := t * 64 + x;
      }
      if chars == 3 {
        exit, k := Flush(src, i0, i, dst, base, k, t, equals, before);
        return;
      }
      chars := chars + 1;
    }
    assert src[i..] == [];
    SlowEnd(t, equals, chars);
    PrependEnd(dst[..base + k]);
    exit := if chars != 0 then Failed else Done;
  }

  lemma PrependEnd(p: seq<Byte>)
    ensures Prepend(p, Some([])) == Some(p)
  {
    assert p + [] == p;
  }

  /** The end of a quantum: three bytes are written, and those of the padding are taken back. */
  method Flush(src: seq<Byte>, i0: nat, i: nat, dst: array<Byte>, base: nat, k0: nat, t: nat, equals: nat, ghost before: seq<Byte>)
    returns (exit: Exit, k: nat)
    requires i0 + 4 <= i <= |src| && Room(dst, base, |src|) && 4 * k0 <= 3 * i0
    requires Decoding(src, i0, before, dst[..base + k0])
    requires Decode(src[i0..]) == if equals > 2 then None else Prepend(Emit(t, equals), Decode(src[i..]))
    modifies dst
    ensures 4 * k <= 3 * i && dst[..base] == old(dst[..base])
    ensures exit == Again ==> Decoding(src, i, before, dst[..base + k])
    ensures exit == Failed ==> Decode(src) == None
    ensures exit != Done
  {
    hide Slow, Decode;
    ghost var now := dst[..base + k0];
    Put(dst, base + k0, t);
    assert dst[..base] == dst[..base + k0 + 3][..base];
    k := k0 + 3;
    if equals > 0 {
      if equals == 1 {
        k := k - 1;
      } else if equals == 2 {
        k := k - 2;
      } else {
        return Failed, k;
      }
    }
    DecodingMore(src, i0, i, before, now, Emit(t, equals));
    assert dst[..base + k] == dst[..base + k0 + 3][..base + k];
    assert dst[..base + k] == now + Emit(t, equals);
    exit := Again;
  }

  /** `Crypto::decodeBASE64`: the fast path and the slow path in turn. */
  method DecodeBase64(src: seq<Byte>, buffer: Buffer) returns (ok: bool)
    requires buffer.Valid() && buffer.length + |src| * 3 / 4 + 5 < UINT_LIMIT
    modifies buffer.Repr()
    ensures buffer.Valid() && fresh(buffer.Repr() - old(buffer.Repr()))
    ensures ok <==> Decode(src).Some?
    ensures buffer.Contents() == old(buffer.Contents()) + if ok then Decode(src).value else []
  {
    hide Slow, Decode, Decoding;
    ghost var before := buffer.Contents();
    var base := buffer.length;
    buffer.Capacity(base + |src| * 3 / 4 + 5);
    var dst := buffer.Data();
    var i: nat, k: nat := 0, 0;
    var exit := Again;
    StartDecoding(src, before);
    while exit == Again
      invariant 0 <= i <= |src| && 4 * k <= 3 * i && dst[..base] == before
      invariant exit == Again ==> Decoding(src, i, before, dst[..base + k])
      invariant exit == Done ==> Prepend(before, Decode(src)) == Some(dst[..base + k])
      invariant exit == Failed ==> Decode(src) == None
      decreases |src| - i, if exit == Again then 1 else 0
      modifies dst
    {
      i, k := FastLoop(src, i, dst, base, k, before);
      exit, i, k := SlowLoop(src, i, dst, base, k, before);
    }
    ok := exit == Done;
    if ok {
      buffer.SetByteLength(base + k);
    }
    assert before + [] == before;
  }

  lemma StartDecoding(src: seq<Byte>, before: seq<Byte>)
    ensures Decoding(src, 0, before, before)
  {
    assert src[0..] == src;
  }

  // ---------------------------------------------------------------- encoding

  /** Writes four characters at `k`. */
  method Put4(dst: array<Byte>, k: nat, q: seq<Byte>)
    requires |q| == 4 && k + 4 <= dst.Length
    modifies dst
    ensures dst[..k + 4] == old(dst[..k]) + q
  {
    dst[k], dst[k + 1], dst[k + 2], dst[k + 3] := q[0], q[1], q[2], q[3];
  }

  lemma EncodeMore(src: seq<Byte>, i: nat)
    requires i + 3 <= |src| && i % 3 == 0
    ensures Encode(src[..i + 3]) == Encode(src[..i]) + Three(src[i], src[i + 1], src[i + 2])
  {
    EncodePrefix(src[..i], src[i..i + 3]);
    assert src[..i] + src[i..i + 3] == src[..i + 3];
    assert Encode(src[i..i + 3]) == Three(src[i], src[i + 1], src[i + 2]) + Encode([]);
  }

  /** A prefix of whole groups of three bytes is encoded on its own. */
  lemma {:induction false} EncodePrefix(a: seq<Byte>, b: seq<Byte>)
    requires |a| % 3 == 0
    ensures Encode(a + b) == Encode(a) + Encode(b)
  {
    hide Three, Two, One;
    if |a| == 0 {
      assert a + b == b;
    } else {
      assert (a + b)[3..] == a[3..] + b;
      EncodePrefix(a[3..], b);
    }
  }

  /** The groups of three bytes. */
  method EncodeFull(src: seq<Byte>, n: nat, dst: array<Byte>, base: nat) returns (k: nat)
    requires n <= |src| && n % 3 == 0 && base + n / 3 * 4 <= dst.Length
    modifies dst
    ensures k == n / 3 * 4
    ensures dst[..base + k] == old(dst[..base]) + Encode(src[..n])
  {
    hide Char, Encode;
    ghost var before := dst[..base];
    ghost var groups: nat := 0;
    var i: nat := 0;
    k := 0;
    assert src[..0] == [];
    EmptyEncodes(before);
    while i != n
      invariant i == 3 * groups <= n && k == 4 * groups
      invariant dst[..base + k] == before + Encode(src[..i])
      decreases n - i
    {
      var t: int := src[i];
      t := t * 256 + src[i + 1];
      t := t * 256 + src[i + 2];
      EncodeMore(src, i);
      Put4(dst, base + k, [Char(t / 0x4_0000), Char(t / 0x1000 % 64), Char(t / 0x40 % 64), Char(t % 64)]);
      i, k, groups := i + 3, k + 4, groups + 1;
    }
  }

  /** The last one or two bytes. */
  method EncodeLast(d: seq<Byte>, dst: array<Byte>, at: nat) returns (k: nat)
    requires |d| < 3 && at + 4 <= dst.Length
    modifies dst
    ensures at <= k <= at + 4 && dst[..k] == old(dst[..at]) + Encode(d)
  {
    hide Char;
    k := at;
    if |d| == 1 {
      var t: int := d[0];
      Put4(dst, k, [Char(t / 4), Char(t * 16 % 64), EQUALS, EQUALS]);
      k := k + 4;
    } else if |d| == 2 {
      var t: int := d[0];
      t := t * 256 + d[1];
      Put4(dst, k, [Char(t / 0x400), Char(t / 0x10 % 64), Char(t * 4 % 64), EQUALS]);
      k := k + 4;
    }
  }

  /** `Crypto::encodeBASE64`. */
  method EncodeBase64(src: seq<Byte>, buffer: Buffer)
    requires buffer.Valid() && buffer.length + |src| / 3 * 4 + 5 < UINT_LIMIT
    modifies buffer.Repr()
    ensures buffer.Valid() && fresh(buffer.Repr() - old(buffer.Repr()))
    ensures buffer.Contents() == old(buffer.Contents()) + Encode(src)
  {
    hide Encode;
    ghost var before := buffer.Contents();
    var base := buffer.length;
    var full3 := |src| / 3 * 3;
    buffer.Capacity(base + |src| / 3 * 4 + 5);
    var dst := buffer.Data();
    var k := EncodeFull(src, full3, dst, base);
    k := EncodeLast(src[full3..], dst, base + k);
    EncodePrefix(src[..full3], src[full3..]);
    assert src[..full3] + src[full3..] == src;
    assert before + Encode(src[..full3]) + Encode(src[full3..]) == before + Encode(src);
    buffer.SetByteLength(k);
  }

  lemma EmptyEncodes(before: seq<Byte>)
    ensures before + Encode([]) == before
  {
  }
}
