/** The streaming state of lib/md5/md5.c, and the digest of RFC 1321. */
module Md5 {
  import opened Md5Block

  type Octet = bv8

  const WORD := 0x1_0000_0000
  const INT_MAX := 0x7FFF_FFFF

  // ---------------------------------------------------------------- RFC 1321

  /** Four bytes, low-order first, as a word (section 2). */
  function Load(b: seq<Octet>, i: nat): Word
    requires i + 4 <= |b|
  {
    (b[i] as bv32) + (b[i + 1] as bv32 << 8) + (b[i + 2] as bv32 << 16) + (b[i + 3] as bv32 << 24)
  }

  function Words(block: seq<Octet>): (x: seq<Word>)
    requires |block| == 64
    ensures |x| == 16
  {
    seq(16, i requires 0 <= i < 16 => Load(block, 4 * i))
  }

  /** The chaining words after the first `n` blocks of `m`. */
  function Fold(n: nat, m: seq<Octet>): Regs
    requires 64 * n <= |m|
  {
    if n == 0 then INITIAL else Compress(Fold(n - 1, m), Words(m[64 * (n - 1)..64 * n]))
  }

  lemma {:induction false} FoldPrefix(n: nat, m: seq<Octet>, rest: seq<Octet>)
    requires 64 * n <= |m|
    ensures Fold(n, m + rest) == Fold(n, m)
  {
    hide Compress;
    if n > 0 {
      FoldPrefix(n - 1, m, rest);
      assert (m + rest)[64 * (n - 1)..64 * n] == m[64 * (n - 1)..64 * n];
    }
  }

  function Zeros(n: nat): seq<Octet> {
    seq(n, _ => 0)
  }

  /** A one bit and as few zero bits as make the length 448 modulo 512 (section 3.1). */
  function Padding(n: nat): seq<Octet> {
    [0x80] + Zeros((55 - n) % 64)
  }

  /** The four bytes of a number below 2^32, low-order first. */
  function WordBytes(w: nat): (b: seq<Octet>)
    ensures |b| == 4
  {
    [(w % 256) as bv8, (w / 0x100 % 256) as bv8, (w / 0x1_0000 % 256) as bv8, (w / 0x100_0000 % 256) as bv8]
  }

  /** The bit length modulo 2^64: two words, the low-order word first (section 3.2). */
  function LengthBytes(n: nat): seq<Octet> {
    var bits := 8 * n % (WORD * WORD);
    WordBytes(bits % WORD) + WordBytes(bits / WORD)
  }

  lemma FourBytes(w: nat, a: nat, b: nat, c: nat, d: nat)
    requires a < 256 && b < 256 && c < 256 && d < 256 && w == a + 256 * (b + 256 * (c + 256 * d))
    ensures WordBytes(w) == [a as bv8, b as bv8, c as bv8, d as bv8]
  {
    Digits(w, a, b, c, d);
  }

  lemma Digits(w: nat, a: nat, b: nat, c: nat, d: nat)
    requires a < 256 && b < 256 && c < 256 && d < 256 && w == a + 256 * (b + 256 * (c + 256 * d))
    ensures w % 256 == a && w / 0x100 % 256 == b && w / 0x1_0000 % 256 == c && w / 0x100_0000 % 256 == d
  {
    var v := w / 0x100;
    assert v == b + 256 * (c + 256 * d) && w % 256 == a;
    var u := v / 0x100;
    assert u == c + 256 * d && v % 256 == b;
    assert u / 0x100 == d && u % 256 == c;
    assert w / 0x1_0000 == u && w / 0x100_0000 == d;
  }

  /** The bytes of a length of 0x0102030405060708 bits. */
  lemma KnownLength()
    ensures LengthBytes(0x20_4060_80a0_c0e1) == [8, 7, 6, 5, 4, 3, 2, 1]
  {
    hide WordBytes;
    FourBytes(0x0506_0708, 8, 7, 6, 5);
    FourBytes(0x0102_0304, 4, 3, 2, 1);
    assert 8 * 0x20_4060_80a0_c0e1 % (WORD * WORD) == 0x0102_0304_0506_0708;
  }

  lemma Around(a: nat)
    ensures (a + 0x1_0000_0000_0000_0000) % 0x1_0000_0000_0000_0000 == a % 0x1_0000_0000_0000_0000
  {
  }

  /** 2^64 bits more make no difference. */
  lemma LengthWraps(n: nat)
    ensures LengthBytes(n + 0x2000_0000_0000_0000) == LengthBytes(n)
  {
    hide WordBytes;
    Around(8 * n);
    assert WORD * WORD == 0x1_0000_0000_0000_0000;
  }

  function Padded(m: seq<Octet>): seq<Octet> {
    m + Padding(|m|) + LengthBytes(|m|)
  }

  /** The padded message is a whole number of blocks, and no shorter padding with the one bit would do. */
  lemma PaddedWhole(m: seq<Octet>)
    ensures |Padded(m)| % 64 == 0
    ensures 1 <= |Padding(|m|)| <= 64
  {
    PaddedLength(|m|, (55 - |m|) % 64);
  }

  lemma PaddedLength(n: nat, z: nat)
    requires z == (55 - n) % 64
    ensures (n + 9 + z) % 64 == 0
  {
  }

  lemma NoShorter(n: nat, k: nat)
    requires 1 <= k < 1 + (55 - n) % 64
    ensures (n + k + 8) % 64 != 0
  {
    var z := (55 - n) % 64;
    assert (n + z + 9) % 64 == 0;
  }

  /** The words A, B, C, D, low-order byte first (section 3.5). */
  function Output(r: Regs): seq<Octet> {
    Store(r.a) + Store(r.b) + Store(r.c) + Store(r.d)
  }

  /** The initial words, as their bytes are listed in section 3.3. */
  lemma InitialBytes()
    ensures Output(INITIAL)
      == [0x01, 0x23, 0x45, 0x67, 0x89, 0xab, 0xcd, 0xef, 0xfe, 0xdc, 0xba, 0x98, 0x76, 0x54, 0x32, 0x10]
  {
  }

  function Store(w: Word): (b: seq<Octet>)
    ensures |b| == 4
  {
    [Octet8(w), Octet8(w >> 8), Octet8(w >> 16), Octet8(w >> 24)]
  }

  function Octet8(w: Word): Octet {
    (w & 0xff) as bv8
  }

  function Digest(m: seq<Octet>): seq<Octet> {
    var p := Padded(m);
    Output(Fold(|p| / 64, p))
  }

  // ---------------------------------------------------------------- the count

  /** The two words of `count` hold the bit length of `n` bytes modulo 2^64. */
  predicate Counts(count0: nat, count1: nat, n: nat) {
    count0 < WORD && count1 < WORD && count0 + WORD * count1 == 8 * n % (WORD * WORD)
  }

  lemma CountBytes(count0: nat, count1: nat, n: nat)
    requires Counts(count0, count1, n)
    ensures WordBytes(count0) + WordBytes(count1) == LengthBytes(n)
  {
    hide WordBytes;
  }

  lemma PadCount(count0: nat, count1: nat, n: nat)
    requires Counts(count0, count1, n)
    ensures (55 - count0 / 8) % 64 == (55 - n) % 64
  {
    hide *;
    OffsetFromCount(count0, count1, n);
    PadOf(count0 / 8);
    PadOf(n);
  }

  lemma PadOf(n: nat)
    ensures (55 - n) % 64 == (55 - n % 64) % 64
  {
    assert 55 - n == 55 - n % 64 + 64 * -(n / 64);
  }

  lemma OffsetFromCount(count0: nat, count1: nat, n: nat)
    requires Counts(count0, count1, n)
    ensures count0 / 8 % 64 == n % 64
  {
    var q := 8 * n / (WORD * WORD);
    var w := WORD * q + count1;
    assert 8 * n == WORD * WORD * q + 8 * n % (WORD * WORD);
    EightTimes(count0, n, 0x2000_0000 * w);
    Mod64(count0 / 8, n, 0x80_0000 * w);
  }

  lemma EightTimes(a: nat, b: nat, c: nat)
    requires a == 8 * (b - c)
    ensures a / 8 == b - c
  {
  }

  lemma Mod64(a: nat, b: nat, c: nat)
    requires a == b - 64 * c
    ensures a % 64 == b % 64
  {
  }

  /** The carry out of the low word is seen by comparing the sum with what was added. */
  lemma CountStep(count0: nat, count1: nat, n: nat, k: nat)
    requires Counts(count0, count1, n) && k <= INT_MAX
    ensures
      var nbits := 8 * k % WORD;
      var low := (count0 + nbits) % WORD;
      var high := (count1 + k / 0x2000_0000) % WORD;
      Counts(low, if low < nbits then (high + 1) % WORD else high, n + k)
  {
    var nbits, h := 8 * k % WORD, k / 0x2000_0000;
    EightBits(k);
    Carry(count0, nbits);
    var low := (count0 + nbits) % WORD;
    var carry := if low < nbits then 1 else 0;
    var sum := count1 + h + carry;
    var q := 8 * n / (WORD * WORD);
    assert 8 * n == WORD * WORD * q + 8 * n % (WORD * WORD);
    assert sum == WORD * (sum / WORD) + sum % WORD;
    Remainder(8 * (n + k), q + sum / WORD, WORD * (sum % WORD) + low);
    HighWord(count1, h, carry);
  }

  lemma EightBits(k: nat)
    ensures 8 * k == WORD * (k / 0x2000_0000) + 8 * k % WORD
  {
    assert 8 * k == WORD * (k / 0x2000_0000) + 8 * (k % 0x2000_0000);
  }

  /** A sum is smaller than what was added exactly if it has wrapped. */
  lemma Carry(a: nat, b: nat)
    requires a < WORD && b < WORD
    ensures var low := (a + b) % WORD; a + b == low + WORD * if low < b then 1 else 0
  {
  }

  lemma Remainder(m: nat, q: nat, r: nat)
    requires m == (WORD * WORD) * q + r && r < WORD * WORD
    ensures m % (WORD * WORD) == r
  {
  }

  lemma HighWord(count1: nat, h: nat, carry: nat)
    requires carry <= 1
    ensures (count1 + h + carry) % WORD == ((count1 + h) % WORD + carry) % WORD
  {
  }

  // ---------------------------------------------------------------- the state

  /** The bytes of `m` after its last complete block. */
  function Leftover(m: seq<Octet>): seq<Octet> {
    m[|m| - |m| % 64..]
  }

  lemma NextBlock(m: seq<Octet>, block: seq<Octet>)
    requires |m| % 64 == 0 && |block| == 64
    ensures Fold(|m + block| / 64, m + block) == Compress(Fold(|m| / 64, m), Words(block))
  {
    hide *;
    assert |m + block| == 64 * (|m| / 64 + 1);
    FoldNext(|m| / 64, m, block);
  }

  lemma FoldNext(n: nat, m: seq<Octet>, block: seq<Octet>)
    requires |m| == 64 * n && |block| == 64
    ensures Fold(n + 1, m + block) == Compress(Fold(n, m), Words(block))
  {
    hide Compress, Words;
    FoldPrefix(n, m, block);
    assert (m + block)[64 * n..64 * (n + 1)] == block;
  }

  lemma PartialBlock(m: seq<Octet>, rest: seq<Octet>)
    requires |m| % 64 + |rest| < 64
    ensures |m + rest| / 64 == |m| / 64
    ensures Fold(|m + rest| / 64, m + rest) == Fold(|m| / 64, m)
    ensures Leftover(m + rest) == Leftover(m) + rest
  {
    hide Compress;
    FoldPrefix(|m| / 64, m, rest);
  }

  class Md5State {
    var count0: nat
    var count1: nat
    var abcd: Regs
    const buf: array<Octet>

    /** What the state promises after `m` has been appended: RFC 1321, sections 3.3 and 3.4, block by block. */
    ghost predicate Absorbed(m: seq<Octet>)
      reads this, buf
    {
      && buf.Length == 64
      && Counts(count0, count1, |m|)
      && abcd == Fold(|m| / 64, m)
      && buf[..|m| % 64] == Leftover(m)
    }

    /** `md5_init`. */
    constructor ()
      ensures fresh(buf) && Absorbed([])
    {
      count0, count1 := 0, 0;
      abcd := INITIAL;
      buf := new Octet[64];
    }

    /** `md5_process` on a whole block. */
    method ProcessBlock(ghost m: seq<Octet>, block: seq<Octet>)
      requires |m| % 64 == 0 && |block| == 64 && abcd == Fold(|m| / 64, m)
      modifies `abcd
      ensures abcd == Fold(|m + block| / 64, m + block)
    {
      hide Compress;
      abcd := Process(abcd, Words(block));
      NextBlock(m, block);
    }

    /** The length update of `md5_append`. */
    method Count(ghost m: seq<Octet>, nbytes: nat)
      requires Counts(count0, count1, |m|) && nbytes <= INT_MAX
      modifies `count0, `count1
      ensures Counts(count0, count1, |m| + nbytes)
    {
      CountStep(count0, count1, |m|, nbytes);
      var nbits := 8 * nbytes % WORD;
      count1 := (count1 + nbytes / 0x2000_0000) % WORD;
      count0 := (count0 + nbits) % WORD;
      if count0 < nbits {
        count1 := (count1 + 1) % WORD;
      }
    }

    /** `memcpy(pms->buf + offset, p, copy)`. */
    method Copy(offset: nat, p: seq<Octet>)
      requires offset + |p| <= 64 && buf.Length == 64
      modifies buf
      ensures buf[..offset + |p|] == old(buf[..offset]) + p
    {
      for i := 0 to |p|
        invariant buf[..offset + i] == old(buf[..offset]) + p[..i]
      {
        buf[offset + i] := p[i];
      }
    }

    /** The initial partial block of `md5_append`: `p` completes `buf`, which is processed. */
    method Complete(ghost m: seq<Octet>, offset: nat, p: seq<Octet>)
      requires 0 < offset == |m| % 64 && offset + |p| == 64
      requires buf.Length == 64 && abcd == Fold(|m| / 64, m) && buf[..|m| % 64] == Leftover(m)
      modifies `abcd, buf
      ensures |m + p| % 64 == 0 && abcd == Fold(|m + p| / 64, m + p)
    {
      hide *;
      FillBlock(m, p);
      Copy(offset, p);
      assert buf[..] == buf[..64];
      ProcessBlock(m[..|m| - |m| % 64], buf[..]);
    }

    /** The full blocks and the final partial block of `md5_append`. */
    method AppendAligned(ghost m: seq<Octet>, p: seq<Octet>)
      requires |m| % 64 == 0 && buf.Length == 64 && abcd == Fold(|m| / 64, m)
      modifies `abcd, buf
      ensures abcd == Fold(|m + p| / 64, m + p) && buf[..|m + p| % 64] == Leftover(m + p)
    {
      hide *;
      var i := 0;
      assert m + p[..0] == m;
      while |p| - i >= 64
        invariant 0 <= i <= |p| && i % 64 == 0
        invariant abcd == Fold(|m + p[..i]| / 64, m + p[..i])
        modifies `abcd
      {
        ProcessBlock(m + p[..i], p[i..i + 64]);
        assert m + p[..i] + p[i..i + 64] == m + p[..i + 64];
        i := i + 64;
      }
      ghost var done := m + p[..i];
      PartialBlock(done, p[i..]);
      assert done + p[i..] == m + p;
      AlignedLeftover(done);
      if |p| - i != 0 {
        Copy(0, p[i..]);
      }
    }

    /**
     * `md5_append` of the first `nbytes` bytes at `data`. The sum `offset + nbytes` is an int in the source,
     * which must not overflow.
     */
    method Append(ghost m: seq<Octet>, data: seq<Octet>, nbytes: int)
      requires Absorbed(m)
      requires nbytes <= |data| && |m| % 64 + nbytes <= INT_MAX
      modifies this, buf
      ensures Absorbed(if nbytes <= 0 then m else m + data[..nbytes])
    {
      hide Fold, Counts, Leftover;
      OffsetFromCount(count0, count1, |m|);
      var offset := count0 / 8 % 64;
      if nbytes <= 0 {
        return;
      }
      Count(m, nbytes);
      if offset != 0 {
        var copy := if offset + nbytes > 64 then 64 - offset else nbytes;
        if offset + copy < 64 {
          Copy(offset, data[..copy]);
          PartialBlock(m, data[..nbytes]);
          return;
        }
        Complete(m, offset, data[..copy]);
        AppendAligned(m + data[..copy], data[copy..nbytes]);
        assert m + data[..copy] + data[copy..nbytes] == m + data[..nbytes];
        return;
      }
      AppendAligned(m, data[..nbytes]);
    }

    /** `md5_finish`. */
    method Finish(ghost m: seq<Octet>) returns (digest: seq<Octet>)
      requires Absorbed(m)
      modifies this, buf
      ensures digest == Digest(m)
    {
      hide Fold, Store;
      PaddedWhole(m);
      PadCount(count0, count1, |m|);
      CountBytes(count0, count1, |m|);
      var data := WordBytes(count0) + WordBytes(count1);
      var pad := [0x80] + Zeros(63);
      var n := (55 - count0 / 8) % 64 + 1;
      assert pad[..n] == Padding(|m|);
      Append(m, pad, n);
      assert data[..8] == data;
      Append(m + Padding(|m|), data, 8);
      digest := Output(abcd);
    }
  }

  function Joined(chunks: seq<seq<Octet>>): seq<Octet> {
    if |chunks| == 0 then [] else Joined(chunks[..|chunks| - 1]) + chunks[|chunks| - 1]
  }

  /** Every way of cutting a message into appends gives the digest of the message. */
  method DigestOfChunks(chunks: seq<seq<Octet>>) returns (digest: seq<Octet>)
    requires forall c <- chunks :: |c| <= INT_MAX - 63
    ensures digest == Digest(Joined(chunks))
  {
    var state := new Md5State();
    for i := 0 to |chunks|
      invariant fresh(state) && fresh(state.buf) && state.Absorbed(Joined(chunks[..i]))
    {
      hide *;
      assert |chunks[i]| <= INT_MAX - 63;
      state.Append(Joined(chunks[..i]), chunks[i], |chunks[i]|);
      JoinedNext(chunks, i);
    }
    assert chunks[..|chunks|] == chunks;
    digest := state.Finish(Joined(chunks));
  }

  lemma JoinedNext(chunks: seq<seq<Octet>>, i: nat)
    requires i < |chunks|
    ensures Joined(chunks[..i]) + chunks[i][..|chunks[i]|] == Joined(chunks[..i + 1])
    ensures |chunks[i]| == 0 ==> Joined(chunks[..i]) == Joined(chunks[..i + 1])
  {
    assert chunks[..i + 1][..i] == chunks[..i];
    assert chunks[i][..|chunks[i]|] == chunks[i];
  }

  lemma AlignedLeftover(m: seq<Octet>)
    requires |m| % 64 == 0
    ensures Leftover(m) == []
  {
  }

  lemma FillBlock(m: seq<Octet>, rest: seq<Octet>)
    requires 0 < |m| % 64 && |m| % 64 + |rest| == 64
    ensures
      var front := m[..|m| - |m| % 64];
      && |front| % 64 == 0 && |m + rest| % 64 == 0
      && Fold(|front| / 64, front) == Fold(|m| / 64, m)
      && front + (Leftover(m) + rest) == m + rest
  {
    hide Compress;
    var front := m[..|m| - |m| % 64];
    FoldPrefix(|front| / 64, front, Leftover(m));
    assert front + Leftover(m) == m;
  }
}
