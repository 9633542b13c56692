/** The block function of lib/md5/md5.c, and the operations of section 3.4 of RFC 1321. */
module Md5Block {
  type Word = bv32

  /** The four chaining words. */
  datatype Regs = Regs(a: Word, b: Word, c: Word, d: Word)

  const INITIAL := Regs(0x67452301, 0xefcdab89, 0x98badcfe, 0x10325476)

  function F(x: Word, y: Word, z: Word): Word { (x & y) | (!x & z) }

  function G(x: Word, y: Word, z: Word): Word { (x & z) | (y & !z) }

  function H(x: Word, y: Word, z: Word): Word { x ^ y ^ z }

  function I(x: Word, y: Word, z: Word): Word { y ^ (x | !z) }

  function RotateLeft(x: Word, n: nat): Word
    requires 0 < n < 32
  {
    (x << n) | (x >> (32 - n))
  }

  /** One operation: `b + ((a + f + x + t) <<< s)`. */
  function Set(a: Word, b: Word, f: Word, x: Word, s: nat, t: Word): Word
    requires 0 < s < 32
  {
    RotateLeft(a + f + x + t, s) + b
  }

  // ---------------------------------------------------------------- section 3.4 by formula

  /** Which message word operation `i` uses. */
  function WordIndex(i: nat): (k: nat)
    requires i < 64
    ensures k < 16
  {
    if i < 16 then i
    else if i < 32 then (5 * i + 1) % 16
    else if i < 48 then (3 * i + 5) % 16
    else 7 * i % 16
  }

  function Shift(i: nat): (s: nat)
    requires i < 64
    ensures 0 < s < 32
  {
    if i < 16 then [7, 12, 17, 22][i % 4]
    else if i < 32 then [5, 9, 14, 20][i % 4]
    else if i < 48 then [4, 11, 16, 23][i % 4]
    else [6, 10, 15, 21][i % 4]
  }

  function Mix(i: nat, r: Regs): Word
    requires i < 64
  {
    if i < 16 then F(r.b, r.c, r.d)
    else if i < 32 then G(r.b, r.c, r.d)
    else if i < 48 then H(r.b, r.c, r.d)
    else I(r.b, r.c, r.d)
  }

  /** The table T of section 3.4: the integer part of 2^32 times abs(sin(i + 1)). */
  function T(i: nat): Word
    requires i < 64
  {
    match i / 4
    case 0 => [0xd76aa478, 0xe8c7b756, 0x242070db, 0xc1bdceee][i % 4]
    case 1 => [0xf57c0faf, 0x4787c62a, 0xa8304613, 0xfd469501][i % 4]
    case 2 => [0x698098d8, 0x8b44f7af, 0xffff5bb1, 0x895cd7be][i % 4]
    case 3 => [0x6b901122, 0xfd987193, 0xa679438e, 0x49b40821][i % 4]
    case 4 => [0xf61e2562, 0xc040b340, 0x265e5a51, 0xe9b6c7aa][i % 4]
    case 5 => [0xd62f105d, 0x02441453, 0xd8a1e681, 0xe7d3fbc8][i % 4]
    case 6 => [0x21e1cde6, 0xc33707d6, 0xf4d50d87, 0x455a14ed][i % 4]
    case 7 => [0xa9e3e905, 0xfcefa3f8, 0x676f02d9, 0x8d2a4c8a][i % 4]
    case 8 => [0xfffa3942, 0x8771f681, 0x6d9d6122, 0xfde5380c][i % 4]
    case 9 => [0xa4beea44, 0x4bdecfa9, 0xf6bb4b60, 0xbebfbc70][i % 4]
    case 10 => [0x289b7ec6, 0xeaa127fa, 0xd4ef3085, 0x04881d05][i % 4]
    case 11 => [0xd9d4d039, 0xe6db99e5, 0x1fa27cf8, 0xc4ac5665][i % 4]
    case 12 => [0xf4292244, 0x432aff97, 0xab9423a7, 0xfc93a039][i % 4]
    case 13 => [0x655b59c3, 0x8f0ccc92, 0xffeff47d, 0x85845dd1][i % 4]
    case 14 => [0x6fa87e4f, 0xfe2ce6e0, 0xa3014314, 0x4e0811a1][i % 4]
    case _ => [0xf7537e82, 0xbd3af235, 0x2ad7d2bb, 0xeb86d391][i % 4]
  }

  /** Operation `i`, with the registers renamed so that the word just computed is `b`. */
  function Operation(i: nat, r: Regs, x: seq<Word>): Regs
    requires i < 64 && |x| == 16
  {
    Regs(r.d, Set(r.a, r.b, Mix(i, r), x[WordIndex(i)], Shift(i), T(i)), r.b, r.c)
  }

  /** The first `n` operations. */
  function Operations(n: nat, r: Regs, x: seq<Word>): Regs
    requires n <= 64 && |x| == 16
    decreases n, x
  {
    if n == 0 then r else Operation(n - 1, Operations(n - 1, r, x), x)
  }

  /** Word by word, modulo 2^32. */
  function Sum(r: Regs, s: Regs): Regs {
    Regs(r.a + s.a, r.b + s.b, r.c + s.c, r.d + s.d)
  }

  /** The 64 operations on one block, and the additions that follow them. */
  function Compress(r: Regs, x: seq<Word>): Regs
    requires |x| == 16
  {
    Sum(r, Operations(64, r, x))
  }

  // ---------------------------------------------------------------- what the functions are (section 3.4)

  /** Where a bit of `x` is one, that of `y` is taken, and elsewhere that of `z`. */
  lemma Chooses(x: Word, y: Word, z: Word)
    ensures F(x, y, z) & x == y & x && F(x, y, z) & !x == z & !x
    ensures G(x, y, z) == F(z, x, y)
  {
  }

  /** A bit is one where an odd number of the three are: it does not matter in which, and two of them cancel out. */
  lemma Parity(x: Word, y: Word, z: Word)
    ensures H(x, y, z) == H(y, x, z) == H(z, y, x)
    ensures H(x, x, z) == z
  {
  }

  /** Where a bit of `z` is zero or one of `x` is one, that of `y` is flipped. */
  lemma Flips(x: Word, y: Word, z: Word)
    ensures I(x, y, z) & !z == !y & !z
    ensures I(x, y, z) & x == !y & x
  {
  }

  /** Elsewhere it is kept. */
  lemma Keeps(x: Word, y: Word, z: Word)
    ensures I(x, y, z) & z & !x == y & z & !x
  {
  }

  lemma Halves(x: Word)
    ensures RotateLeft(x, 7) == (x << 7) | (x >> 25)
    ensures RotateLeft(x, 5) == (x << 5) | (x >> 27)
    ensures RotateLeft(x, 4) == (x << 4) | (x >> 28)
    ensures RotateLeft(x, 6) == (x << 6) | (x >> 26)
  {
  }

  /** The low bits of a rotated word are the high ones of the word, and the others have moved up. */
  lemma RotatesBy7(x: Word)
    ensures RotateLeft(x, 7) & 0x7f == x >> 25 && RotateLeft(x, 7) & 0xffffff80 == x << 7
  {
    hide RotateLeft;
    Halves(x);
  }

  lemma RotatesBy5(x: Word)
    ensures RotateLeft(x, 5) & 0x1f == x >> 27 && RotateLeft(x, 5) & 0xffffffe0 == x << 5
  {
    hide RotateLeft;
    Halves(x);
  }

  lemma RotatesBy4(x: Word)
    ensures RotateLeft(x, 4) & 0xf == x >> 28 && RotateLeft(x, 4) & 0xfffffff0 == x << 4
  {
    hide RotateLeft;
    Halves(x);
  }

  lemma RotatesBy6(x: Word)
    ensures RotateLeft(x, 6) & 0x3f == x >> 26 && RotateLeft(x, 6) & 0xffffffc0 == x << 6
  {
    hide RotateLeft;
    Halves(x);
  }

  /** Each round starts at word 0, 1, 5 or 0, and moves on by 1, 5, 3 or 7 places. */
  lemma WordsOfOne(i: nat)
    requires 0 <= i < 15
    ensures WordIndex(0) == 0 && WordIndex(i + 1) == (WordIndex(i) + 1) % 16
  {
    MovesOn(i, 1);
  }

  lemma WordsOfTwo(i: nat)
    requires 16 <= i < 31
    ensures WordIndex(16) == 1 && WordIndex(i + 1) == (WordIndex(i) + 5) % 16
  {
    MovesOn(5 * i + 1, 5);
  }

  lemma WordsOfThree(i: nat)
    requires 32 <= i < 47
    ensures WordIndex(32) == 5 && WordIndex(i + 1) == (WordIndex(i) + 3) % 16
  {
    MovesOn(3 * i + 5, 3);
  }

  lemma WordsOfFour(i: nat)
    requires 48 <= i < 63
    ensures WordIndex(48) == 0 && WordIndex(i + 1) == (WordIndex(i) + 7) % 16
  {
    MovesOn(7 * i, 7);
  }

  lemma MovesOn(a: nat, c: nat)
    ensures (a + c) % 16 == (a % 16 + c) % 16
  {
  }

  /** The SET macro of round 1. */
  method SetF(a: Word, b: Word, c: Word, d: Word, k: nat, s: nat, t: Word, x: seq<Word>, ghost n: nat, ghost r: Regs)
    returns (a': Word)
    requires |x| == 16 && 0 <= n < 16 && k == WordIndex(n) && s == Shift(n) && t == T(n)
    requires Operations(n, r, x) == Regs(a, b, c, d)
    ensures Operations(n + 1, r, x) == Regs(d, a', b, c)
  {
    a' := Set(a, b, F(b, c, d), x[k], s, t);
  }

  /** The SET macro of round 2. */
  method SetG(a: Word, b: Word, c: Word, d: Word, k: nat, s: nat, t: Word, x: seq<Word>, ghost n: nat, ghost r: Regs)
    returns (a': Word)
    requires |x| == 16 && 16 <= n < 32 && k == WordIndex(n) && s == Shift(n) && t == T(n)
    requires Operations(n, r, x) == Regs(a, b, c, d)
    ensures Operations(n + 1, r, x) == Regs(d, a', b, c)
  {
    a' := Set(a, b, G(b, c, d), x[k], s, t);
  }

  /** The SET macro of round 3. */
  method SetH(a: Word, b: Word, c: Word, d: Word, k: nat, s: nat, t: Word, x: seq<Word>, ghost n: nat, ghost r: Regs)
    returns (a': Word)
    requires |x| == 16 && 32 <= n < 48 && k == WordIndex(n) && s == Shift(n) && t == T(n)
    requires Operations(n, r, x) == Regs(a, b, c, d)
    ensures Operations(n + 1, r, x) == Regs(d, a', b, c)
  {
    a' := Set(a, b, H(b, c, d), x[k], s, t);
  }

  /** The SET macro of round 4. */
  method SetI(a: Word, b: Word, c: Word, d: Word, k: nat, s: nat, t: Word, x: seq<Word>, ghost n: nat, ghost r: Regs)
    returns (a': Word)
    requires |x| == 16 && 48 <= n < 64 && k == WordIndex(n) && s == Shift(n) && t == T(n)
    requires Operations(n, r, x) == Regs(a, b, c, d)
    ensures Operations(n + 1, r, x) == Regs(d, a', b, c)
  {
    a' := Set(a, b, I(b, c, d), x[k], s, t);
  }

  lemma ScheduleOneFirst()
    ensures WordIndex(0) == 0 && WordIndex(1) == 1 && WordIndex(2) == 2 && WordIndex(3) == 3
    ensures Shift(0) == 7 && Shift(1) == 12 && Shift(2) == 17 && Shift(3) == 22
    ensures WordIndex(4) == 4 && WordIndex(5) == 5 && WordIndex(6) == 6 && WordIndex(7) == 7
    ensures Shift(4) == 7 && Shift(5) == 12 && Shift(6) == 17 && Shift(7) == 22
  {
  }

  method RoundOneFirst(x: seq<Word>, ghost r: Regs, a0: Word, b0: Word, c0: Word, d0: Word)
    returns (a: Word, b: Word, c: Word, d: Word)
    requires |x| == 16 && Operations(0, r, x) == Regs(a0, b0, c0, d0)
    ensures Operations(8, r, x) == Regs(a, b, c, d)
  {
    ScheduleOneFirst();
    hide T;
    a, b, c, d := a0, b0, c0, d0;
    a := SetF(a, b, c, d, 0, 7, T(0), x, 0, r);
    d := SetF(d, a, b, c, 1, 12, T(1), x, 1, r);
    c := SetF(c, d, a, b, 2, 17, T(2), x, 2, r);
    b := SetF(b, c, d, a, 3, 22, T(3), x, 3, r);
    a := SetF(a, b, c, d, 4, 7, T(4), x, 4, r);
    d := SetF(d, a, b, c, 5, 12, T(5), x, 5, r);
    c := SetF(c, d, a, b, 6, 17, T(6), x, 6, r);
    b := SetF(b, c, d, a, 7, 22, T(7), x, 7, r);
  }

  lemma ScheduleOneLast()
    ensures WordIndex(8) == 8 && WordIndex(9) == 9 && WordIndex(10) == 10 && WordIndex(11) == 11
    ensures Shift(8) == 7 && Shift(9) == 12 && Shift(10) == 17 && Shift(11) == 22
    ensures WordIndex(12) == 12 && WordIndex(13) == 13 && WordIndex(14) == 14 && WordIndex(15) == 15
    ensures Shift(12) == 7 && Shift(13) == 12 && Shift(14) == 17 && Shift(15) == 22
  {
  }

  method RoundOneLast(x: seq<Word>, ghost r: Regs, a0: Word, b0: Word, c0: Word, d0: Word)
    returns (a: Word, b: Word, c: Word, d: Word)
    requires |x| == 16 && Operations(8, r, x) == Regs(a0, b0, c0, d0)
    ensures Operations(16, r, x) == Regs(a, b, c, d)
  {
    ScheduleOneLast();
    hide T;
    a, b, c, d := a0, b0, c0, d0;
    a := SetF(a, b, c, d, 8, 7, T(8), x, 8, r);
    d := SetF(d, a, b, c, 9, 12, T(9), x, 9, r);
    c := SetF(c, d, a, b, 10, 17, T(10), x, 10, r);
    b := SetF(b, c, d, a, 11, 22, T(11), x, 11, r);
    a := SetF(a, b, c, d, 12, 7, T(12), x, 12, r);
    d := SetF(d, a, b, c, 13, 12, T(13), x, 13, r);
    c := SetF(c, d, a, b, 14, 17, T(14), x, 14, r);
    b := SetF(b, c, d, a, 15, 22, T(15), x, 15, r);
  }

  lemma ScheduleTwoFirst()
    ensures WordIndex(16) == 1 && WordIndex(17) == 6 && WordIndex(18) == 11 && WordIndex(19) == 0
    ensures Shift(16) == 5 && Shift(17) == 9 && Shift(18) == 14 && Shift(19) == 20
    ensures WordIndex(20) == 5 && WordIndex(21) == 10 && WordIndex(22) == 15 && WordIndex(23) == 4
    ensures Shift(20) == 5 && Shift(21) == 9 && Shift(22) == 14 && Shift(23) == 20
  {
  }

  method RoundTwoFirst(x: seq<Word>, ghost r: Regs, a0: Word, b0: Word, c0: Word, d0: Word)
    returns (a: Word, b: Word, c: Word, d: Word)
    requires |x| == 16 && Operations(16, r, x) == Regs(a0, b0, c0, d0)
    ensures Operations(24, r, x) == Regs(a, b, c, d)
  {
    ScheduleTwoFirst();
    hide T;
    a, b, c, d := a0, b0, c0, d0;
    a := SetG(a, b, c, d, 1, 5, T(16), x, 16, r);
    d := SetG(d, a, b, c, 6, 9, T(17), x, 17, r);
    c := SetG(c, d, a, b, 11, 14, T(18), x, 18, r);
    b := SetG(b, c, d, a, 0, 20, T(19), x, 19, r);
    a := SetG(a, b, c, d, 5, 5, T(20), x, 20, r);
    d := SetG(d, a, b, c, 10, 9, T(21), x, 21, r);
    c := SetG(c, d, a, b, 15, 14, T(22), x, 22, r);
    b := SetG(b, c, d, a, 4, 20, T(23), x, 23, r);
  }

  lemma ScheduleTwoLast()
    ensures WordIndex(24) == 9 && WordIndex(25) == 14 && WordIndex(26) == 3 && WordIndex(27) == 8
    ensures Shift(24) == 5 && Shift(25) == 9 && Shift(26) == 14 && Shift(27) == 20
    ensures WordIndex(28) == 13 && WordIndex(29) == 2 && WordIndex(30) == 7 && WordIndex(31) == 12
    ensures Shift(28) == 5 && Shift(29) == 9 && Shift(30) == 14 && Shift(31) == 20
  {
  }

  method RoundTwoLast(x: seq<Word>, ghost r: Regs, a0: Word, b0: Word, c0: Word, d0: Word)
    returns (a: Word, b: Word, c: Word, d: Word)
    requires |x| == 16 && Operations(24, r, x) == Regs(a0, b0, c0, d0)
    ensures Operations(32, r, x) == Regs(a, b, c, d)
  {
    ScheduleTwoLast();
    hide T;
    a, b, c, d := a0, b0, c0, d0;
    a := SetG(a, b, c, d, 9, 5, T(24), x, 24, r);
    d := SetG(d, a, b, c, 14, 9, T(25), x, 25, r);
    c := SetG(c, d, a, b, 3, 14, T(26), x, 26, r);
    b := SetG(b, c, d, a, 8, 20, T(27), x, 27, r);
    a := SetG(a, b, c, d, 13, 5, T(28), x, 28, r);
    d := SetG(d, a, b, c, 2, 9, T(29), x, 29, r);
    c := SetG(c, d, a, b, 7, 14, T(30), x, 30, r);
    b := SetG(b, c, d, a, 12, 20, T(31), x, 31, r);
  }

  lemma ScheduleThreeFirst()
    ensures WordIndex(32) == 5 && WordIndex(33) == 8 && WordIndex(34) == 11 && WordIndex(35) == 14
    ensures Shift(32) == 4 && Shift(33) == 11 && Shift(34) == 16 && Shift(35) == 23
    ensures WordIndex(36) == 1 && WordIndex(37) == 4 && WordIndex(38) == 7 && WordIndex(39) == 10
    ensures Shift(36) == 4 && Shift(37) == 11 && Shift(38) == 16 && Shift(39) == 23
  {
  }

  method RoundThreeFirst(x: seq<Word>, ghost r: Regs, a0: Word, b0: Word, c0: Word, d0: Word)
    returns (a: Word, b: Word, c: Word, d: Word)
    requires |x| == 16 && Operations(32, r, x) == Regs(a0, b0, c0, d0)
    ensures Operations(40, r, x) == Regs(a, b, c, d)
  {
    ScheduleThreeFirst();
    hide T;
    a, b, c, d := a0, b0, c0, d0;
    a := SetH(a, b, c, d, 5, 4, T(32), x, 32, r);
    d := SetH(d, a, b, c, 8, 11, T(33), x, 33, r);
    c := SetH(c, d, a, b, 11, 16, T(34), x, 34, r);
    b := SetH(b, c, d, a, 14, 23, T(35), x, 35, r);
    a := SetH(a, b, c, d, 1, 4, T(36), x, 36, r);
    d := SetH(d, a, b, c, 4, 11, T(37), x, 37, r);
    c := SetH(c, d, a, b, 7, 16, T(38), x, 38, r);
    b := SetH(b, c, d, a, 10, 23, T(39), x, 39, r);
  }

  lemma ScheduleThreeLast()
    ensures WordIndex(40) == 13 && WordIndex(41) == 0 && WordIndex(42) == 3 && WordIndex(43) == 6
    ensures Shift(40) == 4 && Shift(41) == 11 && Shift(42) == 16 && Shift(43) == 23
    ensures WordIndex(44) == 9 && WordIndex(45) == 12 && WordIndex(46) == 15 && WordIndex(47) == 2
    ensures Shift(44) == 4 && Shift(45) == 11 && Shift(46) == 16 && Shift(47) == 23
  {
  }

  method RoundThreeLast(x: seq<Word>, ghost r: Regs, a0: Word, b0: Word, c0: Word, d0: Word)
    returns (a: Word, b: Word, c: Word, d: Word)
    requires |x| == 16 && Operations(40, r, x) == Regs(a0, b0, c0, d0)
    ensures Operations(48, r, x) == Regs(a, b, c, d)
  {
    ScheduleThreeLast();
    hide T;
    a, b, c, d := a0, b0, c0, d0;
    a := SetH(a, b, c, d, 13, 4, T(40), x, 40, r);
    d := SetH(d, a, b, c, 0, 11, T(41), x, 41, r);
    c := SetH(c, d, a, b, 3, 16, T(42), x, 42, r);
    b := SetH(b, c, d, a, 6, 23, T(43), x, 43, r);
    a := SetH(a, b, c, d, 9, 4, T(44), x, 44, r);
    d := SetH(d, a, b, c, 12, 11, T(45), x, 45, r);
    c := SetH(c, d, a, b, 15, 16, T(46), x, 46, r);
    b := SetH(b, c, d, a, 2, 23, T(47), x, 47, r);
  }

  lemma ScheduleFourFirst()
    ensures WordIndex(48) == 0 && WordIndex(49) == 7 && WordIndex(50) == 14 && WordIndex(51) == 5
    ensures Shift(48) == 6 && Shift(49) == 10 && Shift(50) == 15 && Shift(51) == 21
    ensures WordIndex(52) == 12 && WordIndex(53) == 3 && WordIndex(54) == 10 && WordIndex(55) == 1
    ensures Shift(52) == 6 && Shift(53) == 10 && Shift(54) == 15 && Shift(55) == 21
  {
  }

  method RoundFourFirst(x: seq<Word>, ghost r: Regs, a0: Word, b0: Word, c0: Word, d0: Word)
    returns (a: Word, b: Word, c: Word, d: Word)
    requires |x| == 16 && Operations(48, r, x) == Regs(a0, b0, c0, d0)
    ensures Operations(56, r, x) == Regs(a, b, c, d)
  {
    ScheduleFourFirst();
    hide T;
    a, b, c, d := a0, b0, c0, d0;
    a := SetI(a, b, c, d, 0, 6, T(48), x, 48, r);
    d := SetI(d, a, b, c, 7, 10, T(49), x, 49, r);
    c := SetI(c, d, a, b, 14, 15, T(50), x, 50, r);
    b := SetI(b, c, d, a, 5, 21, T(51), x, 51, r);
    a := SetI(a, b, c, d, 12, 6, T(52), x, 52, r);
    d := SetI(d, a, b, c, 3, 10, T(53), x, 53, r);
    c := SetI(c, d, a, b, 10, 15, T(54), x, 54, r);
    b := SetI(b, c, d, a, 1, 21, T(55), x, 55, r);
  }

  lemma ScheduleFourLast()
    ensures WordIndex(56) == 8 && WordIndex(57) == 15 && WordIndex(58) == 6 && WordIndex(59) == 13
    ensures Shift(56) == 6 && Shift(57) == 10 && Shift(58) == 15 && Shift(59) == 21
    ensures WordIndex(60) == 4 && WordIndex(61) == 11 && WordIndex(62) == 2 && WordIndex(63) == 9
    ensures Shift(60) == 6 && Shift(61) == 10 && Shift(62) == 15 && Shift(63) == 21
  {
  }

  method RoundFourLast(x: seq<Word>, ghost r: Regs, a0: Word, b0: Word, c0: Word, d0: Word)
    returns (a: Word, b: Word, c: Word, d: Word)
    requires |x| == 16 && Operations(56, r, x) == Regs(a0, b0, c0, d0)
    ensures Operations(64, r, x) == Regs(a, b, c, d)
  {
    ScheduleFourLast();
    hide T;
    a, b, c, d := a0, b0, c0, d0;
    a := SetI(a, b, c, d, 8, 6, T(56), x, 56, r);
    d := SetI(d, a, b, c, 15, 10, T(57), x, 57, r);
    c := SetI(c, d, a, b, 6, 15, T(58), x, 58, r);
    b := SetI(b, c, d, a, 13, 21, T(59), x, 59, r);
    a := SetI(a, b, c, d, 4, 6, T(60), x, 60, r);
    d := SetI(d, a, b, c, 11, 10, T(61), x, 61, r);
    c := SetI(c, d, a, b, 2, 15, T(62), x, 62, r);
    b := SetI(b, c, d, a, 9, 21, T(63), x, 63, r);
  }

  method Rounds(x: seq<Word>, r: Regs) returns (a: Word, b: Word, c: Word, d: Word)
    requires |x| == 16
    ensures Operations(64, r, x) == Regs(a, b, c, d)
  {
    a, b, c, d := r.a, r.b, r.c, r.d;
    a, b, c, d := RoundOneFirst(x, r, a, b, c, d);
    a, b, c, d := RoundOneLast(x, r, a, b, c, d);
    a, b, c, d := RoundTwoFirst(x, r, a, b, c, d);
    a, b, c, d := RoundTwoLast(x, r, a, b, c, d);
    a, b, c, d := RoundThreeFirst(x, r, a, b, c, d);
    a, b, c, d := RoundThreeLast(x, r, a, b, c, d);
    a, b, c, d := RoundFourFirst(x, r, a, b, c, d);
    a, b, c, d := RoundFourLast(x, r, a, b, c, d);
  }

  /** `md5_process` on the sixteen words of a block. */
  method Process(r: Regs, x: seq<Word>) returns (r': Regs)
    requires |x| == 16
    ensures r' == Compress(r, x)
  {
    var a, b, c, d := Rounds(x, r);
    r' := Sum(r, Regs(a, b, c, d));
  }
}
