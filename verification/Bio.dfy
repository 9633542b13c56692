/** Bytes, and the little-endian integer codec of core/bio.cc. */
module Bio {
  import opened Bits

  type Byte = b: int | 0 <= b < 256

  /** Half the number of `n`-byte words. */
  function Half(n: nat): (r: int)
    requires n > 0
    ensures Pow256(n) == 2 * r && r > 0
  {
    128 * Pow256(n - 1)
  }

  /** The values of an `n`-byte two's-complement integer. */
  predicate Fits(v: int, n: nat) {
    n > 0 && -Half(n) <= v < Half(n)
  }

  /** The low `n` bytes of `v`, least significant first.  Division rounds down, as an
      arithmetic right shift does. */
  function LittleEndian(v: int, n: nat): (s: seq<Byte>)
    ensures |s| == n
    decreases n
  {
    if n == 0 then [] else [v % 256] + LittleEndian(v / 256, n - 1)
  }

  function Unsigned(s: seq<Byte>): (r: int)
    ensures 0 <= r < Pow256(|s|)
  {
    if s == [] then 0 else s[0] + 256 * Unsigned(s[1..])
  }

  /** The value of an `n`-byte word read as two's complement. */
  function Signed(u: int, n: nat): int {
    if n == 0 || u < Half(n) then u else u - Pow256(n)
  }

  lemma {:induction false} LittleEndianModulo(v: int, n: nat) returns (k: int)
    ensures v == Unsigned(LittleEndian(v, n)) + k * Pow256(n)
    decreases n
  {
    if n == 0 {
      k := v;
    } else {
      k := LittleEndianModulo(v / 256, n - 1);
      assert LittleEndian(v, n)[1..] == LittleEndian(v / 256, n - 1);
      assert 256 * (k * Pow256(n - 1)) == k * Pow256(n);
    }
  }

  /** Byte `i` is the value shifted right by `i` bytes, cut to its low eight bits. */
  lemma {:induction false} LittleEndianAt(v: int, n: nat, i: nat)
    requires i < n
    ensures LittleEndian(v, n)[i] == v / Pow256(i) % 256
    decreases n
  {
    if i > 0 {
      LittleEndianAt(v / 256, n - 1, i - 1);
      DividedTwice(v, Pow256(i - 1));
    }
  }

  lemma DividedTwice(v: int, p: int)
    requires p > 0
    ensures v / 256 / p == v / (256 * p)
  {
    var q := v / 256 / p;
    var r := v / 256 - q * p;
    assert v == 256 * p * q + (256 * r + v % 256);
    assert 0 <= 256 * r + v % 256 < 256 * p;
    Quotient(v, 256 * p, q, 256 * r + v % 256);
  }

  lemma Quotient(v: int, d: int, q: int, r: int)
    requires d > 0 && v == d * q + r && 0 <= r < d
    ensures v / d == q
  {
    var e := v / d - q;
    assert d * e == r - v % d;
    if e > 0 { Product(e - 1, d); }
    if e < 0 { Product(-1 - e, d); }
  }

  /** Known bytes: the first is the lowest, and -1 has all bits set. */
  lemma KnownBytes()
    ensures LittleEndian(0x01020304, 4) == [4, 3, 2, 1]
    ensures LittleEndian(-1, 4) == [0xff, 0xff, 0xff, 0xff] && LittleEndian(-2, 1) == [0xfe]
  {
  }

  /** Decoding the encoding of any `n`-byte integer gives it back. */
  lemma {:induction false} DecodeEncode(v: int, n: nat)
    requires Fits(v, n)
    ensures Signed(Unsigned(LittleEndian(v, n)), n) == v
  {
    var k := LittleEndianModulo(v, n);
    Wraps(v, Unsigned(LittleEndian(v, n)), k, Half(n));
  }

  lemma Wraps(v: int, u: int, k: int, h: int)
    requires h > 0 && v == u + k * (2 * h) && 0 <= u < 2 * h && -h <= v < h
    ensures v == if u < h then u else u - 2 * h
  {
    Product(k - 1, 2 * h);
    Product(-2 - k, 2 * h);
  }

  lemma Product(a: int, p: int)
    requires p > 0
    ensures a >= 0 ==> a * p >= 0
  {
  }

  /** Encoding what was decoded from `n` bytes gives the bytes back. */
  lemma {:induction false} EncodeDecode(s: seq<Byte>)
    requires s != []
    ensures Fits(Signed(Unsigned(s), |s|), |s|)
    ensures LittleEndian(Signed(Unsigned(s), |s|), |s|) == s
  {
    var u := Unsigned(s);
    LittleEndianUnsigned(s);
    if u >= Half(|s|) {
      LittleEndianShift(u, |s|, -1);
    }
  }

  lemma {:induction false} LittleEndianUnsigned(s: seq<Byte>)
    ensures LittleEndian(Unsigned(s), |s|) == s
  {
    if s != [] {
      var u := Unsigned(s[1..]);
      LittleEndianUnsigned(s[1..]);
      WholeBytes(s[0], u);
      assert LittleEndian(s[0] + 256 * u, |s|) == [s[0]] + LittleEndian(u, |s| - 1);
      assert s == [s[0]] + s[1..];
    }
  }

  /** Only the value modulo 256 to the `n` matters. */
  lemma {:induction false} LittleEndianShift(v: int, n: nat, k: int)
    ensures LittleEndian(v + k * Pow256(n), n) == LittleEndian(v, n)
    decreases n
  {
    if n > 0 {
      var q := k * Pow256(n - 1);
      assert k * Pow256(n) == 256 * q;
      WholeBytes(v, q);
      LittleEndianShift(v / 256, n - 1, k);
    }
  }

  lemma WholeBytes(v: int, q: int)
    ensures (v + 256 * q) % 256 == v % 256 && (v + 256 * q) / 256 == v / 256 + q
  {
  }

  /** `Bio::encode` for Int32 (`n == 4`) and Int64 (`n == 8`), writing at `data[at..]`. */
  method Encode(value: int, data: array<Byte>, at: nat, n: nat)
    requires at + n <= data.Length
    modifies data
    ensures data[..] == old(data[..at]) + LittleEndian(value, n) + old(data[at + n..])
  {
    var v, b, p := value, n, at;
    ghost var before, written := data[..at], [];
    while b != 0
      invariant 0 <= b <= n && p == at + (n - b)
      invariant |written| == n - b && written + LittleEndian(v, b) == LittleEndian(value, n)
      invariant data[..] == before + written + old(data[p..])
    {
      ghost var rest := old(data[p..]);
      ghost var byte: Byte := v % 256;
      data[p] := v % 256;
      Overwrite(before + written, rest, byte);
      assert old(data[p + 1..]) == rest[1..];
      assert before + written + [byte] == before + (written + [byte]);
      written := written + [byte];
      v := v / 256;
      p := p + 1;
      b := b - 1;
    }
  }

  lemma Overwrite(s: seq<Byte>, t: seq<Byte>, b: Byte)
    requires t != []
    ensures (s + t)[|s| := b] == s + [b] + t[1..]
  {
  }

  /** `Bio::decode`: each byte is shifted into place and or-ed into the word, whose bits are a signed integer. */
  method Decode(data: seq<Byte>) returns (value: int)
    ensures value == Signed(Unsigned(data), |data|)
  {
    var v: nat, c: nat := 0, 0;
    while c < |data|
      invariant c <= |data| && v == Unsigned(data[..c])
    {
      UnsignedSnoc(data[..c], data[c]);
      assert data[..c + 1] == data[..c] + [data[c]];
      ByteBits(c);
      OrDisjoint(8 * c, v, data[c]);
      v := Or(v, data[c] * Pow256(c));
      c := c + 1;
    }
    assert data[..c] == data;
    value := Signed(v, |data|);
  }

  lemma {:induction false} UnsignedSnoc(s: seq<Byte>, b: Byte)
    ensures Unsigned(s + [b]) == Unsigned(s) + b * Pow256(|s|)
  {
    if s == [] {
      assert s + [b] == [b];
      assert [b][1..] == [];
    } else {
      UnsignedSnoc(s[1..], b);
      assert (s + [b])[1..] == s[1..] + [b];
      assert 256 * (b * Pow256(|s| - 1)) == b * Pow256(|s|);
    }
  }
}
