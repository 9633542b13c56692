/**
 * The digest of the lower-case alphabet, from the test suite in section A.5 of RFC 1321, worked out operation by
 * operation: every entry of the table, every shift and each of the four functions has a part in it.
 */
module Md5Vector {
  import opened Md5
  import opened Md5Block

  /** The words of the one block: 26 letters, the one bit, and the length. */
  predicate AlphabetBlock(x: seq<Word>) {
    && |x| == 16
    && x[0] == 0x64636261 && x[1] == 0x68676665 && x[2] == 0x6c6b6a69 && x[3] == 0x706f6e6d
    && x[4] == 0x74737271 && x[5] == 0x78777675 && x[6] == 0x00807a79 && x[7] == 0x00000000
    && x[8] == 0x00000000 && x[9] == 0x00000000 && x[10] == 0x00000000 && x[11] == 0x00000000
    && x[12] == 0x00000000 && x[13] == 0x00000000 && x[14] == 0x000000d0 && x[15] == 0x00000000
  }

  lemma StepF(x: seq<Word>, n: nat, q: Regs, w: Word, s: nat, t: Word)
    requires |x| == 16 && 0 <= n < 16 && Operations(n, INITIAL, x) == q
    requires x[WordIndex(n)] == w && Shift(n) == s && T(n) == t
    ensures Operations(n + 1, INITIAL, x) == Regs(q.d, Set(q.a, q.b, F(q.b, q.c, q.d), w, s, t), q.b, q.c)
  {
    hide T, Set, Shift, WordIndex, F, G, H, I;
  }

  lemma StepG(x: seq<Word>, n: nat, q: Regs, w: Word, s: nat, t: Word)
    requires |x| == 16 && 16 <= n < 32 && Operations(n, INITIAL, x) == q
    requires x[WordIndex(n)] == w && Shift(n) == s && T(n) == t
    ensures Operations(n + 1, INITIAL, x) == Regs(q.d, Set(q.a, q.b, G(q.b, q.c, q.d), w, s, t), q.b, q.c)
  {
    hide T, Set, Shift, WordIndex, F, G, H, I;
  }

  lemma StepH(x: seq<Word>, n: nat, q: Regs, w: Word, s: nat, t: Word)
    requires |x| == 16 && 32 <= n < 48 && Operations(n, INITIAL, x) == q
    requires x[WordIndex(n)] == w && Shift(n) == s && T(n) == t
    ensures Operations(n + 1, INITIAL, x) == Regs(q.d, Set(q.a, q.b, H(q.b, q.c, q.d), w, s, t), q.b, q.c)
  {
    hide T, Set, Shift, WordIndex, F, G, H, I;
  }

  lemma StepI(x: seq<Word>, n: nat, q: Regs, w: Word, s: nat, t: Word)
    requires |x| == 16 && 48 <= n < 64 && Operations(n, INITIAL, x) == q
    requires x[WordIndex(n)] == w && Shift(n) == s && T(n) == t
    ensures Operations(n + 1, INITIAL, x) == Regs(q.d, Set(q.a, q.b, I(q.b, q.c, q.d), w, s, t), q.b, q.c)
  {
    hide T, Set, Shift, WordIndex, F, G, H, I;
  }

  lemma TableOneFirst()
    ensures T(0) == 0xd76aa478 && T(1) == 0xe8c7b756 && T(2) == 0x242070db && T(3) == 0xc1bdceee
    ensures T(4) == 0xf57c0faf && T(5) == 0x4787c62a && T(6) == 0xa8304613 && T(7) == 0xfd469501
  {
  }

  lemma OneFirst(x: seq<Word>)
    requires AlphabetBlock(x)
    requires Operations(0, INITIAL, x) == Regs(0x67452301, 0xefcdab89, 0x98badcfe, 0x10325476)
    ensures Operations(8, INITIAL, x) == Regs(0xfe15f787, 0xda9bbb0d, 0xb71122fc, 0xa811b278)
  {
    ScheduleOneFirst();
    TableOneFirst();
    hide WordIndex, Shift, T, Operations;
    StepF(x, 0, Regs(0x67452301, 0xefcdab89, 0x98badcfe, 0x10325476), 0x64636261, 7, 0xd76aa478);
    StepF(x, 1, Regs(0x10325476, 0xd6d117a6, 0xefcdab89, 0x98badcfe), 0x68676665, 12, 0xe8c7b756);
    StepF(x, 2, Regs(0x98badcfe, 0xaab1aaaa, 0xd6d117a6, 0xefcdab89), 0x6c6b6a69, 17, 0x242070db);
    StepF(x, 3, Regs(0xefcdab89, 0x227d8cf1, 0xaab1aaaa, 0xd6d117a6), 0x706f6e6d, 22, 0xc1bdceee);
    StepF(x, 4, Regs(0xd6d117a6, 0x4503b812, 0x227d8cf1, 0xaab1aaaa), 0x74737271, 7, 0xf57c0faf);
    StepF(x, 5, Regs(0xaab1aaaa, 0xfe15f787, 0x4503b812, 0x227d8cf1), 0x78777675, 12, 0x4787c62a);
    StepF(x, 6, Regs(0x227d8cf1, 0xa811b278, 0xfe15f787, 0x4503b812), 0x00807a79, 17, 0xa8304613);
    StepF(x, 7, Regs(0x4503b812, 0xb71122fc, 0xa811b278, 0xfe15f787), 0x00000000, 22, 0xfd469501);
  }

  lemma TableOneLast()
    ensures T(8) == 0x698098d8 && T(9) == 0x8b44f7af && T(10) == 0xffff5bb1 && T(11) == 0x895cd7be
    ensures T(12) == 0x6b901122 && T(13) == 0xfd987193 && T(14) == 0xa679438e && T(15) == 0x49b40821
  {
  }

  lemma OneLast(x: seq<Word>)
    requires AlphabetBlock(x)
    requires Operations(8, INITIAL, x) == Regs(0xfe15f787, 0xda9bbb0d, 0xb71122fc, 0xa811b278)
    ensures Operations(16, INITIAL, x) == Regs(0x1754a316, 0x608d6b7e, 0x00df74d5, 0x85567d90)
  {
    ScheduleOneLast();
    TableOneLast();
    hide WordIndex, Shift, T, Operations;
    StepF(x, 8, Regs(0xfe15f787, 0xda9bbb0d, 0xb71122fc, 0xa811b278), 0x00000000, 7, 0x698098d8);
    StepF(x, 9, Regs(0xa811b278, 0xae752899, 0xda9bbb0d, 0xb71122fc), 0x00000000, 12, 0x8b44f7af);
    StepF(x, 10, Regs(0xb71122fc, 0x2bbe757f, 0xae752899, 0xda9bbb0d), 0x00000000, 17, 0xffff5bb1);
    StepF(x, 11, Regs(0xda9bbb0d, 0x7d4bd80b, 0x2bbe757f, 0xae752899), 0x00000000, 22, 0x895cd7be);
    StepF(x, 12, Regs(0xae752899, 0x56cfa5cb, 0x7d4bd80b, 0x2bbe757f), 0x00000000, 7, 0x6b901122);
    StepF(x, 13, Regs(0x2bbe757f, 0x1754a316, 0x56cfa5cb, 0x7d4bd80b), 0x00000000, 12, 0xfd987193);
    StepF(x, 14, Regs(0x7d4bd80b, 0x85567d90, 0x1754a316, 0x56cfa5cb), 0x000000d0, 17, 0xa679438e);
    StepF(x, 15, Regs(0x56cfa5cb, 0x00df74d5, 0x85567d90, 0x1754a316), 0x00000000, 22, 0x49b40821);
  }

  lemma TableTwoFirst()
    ensures T(16) == 0xf61e2562 && T(17) == 0xc040b340 && T(18) == 0x265e5a51 && T(19) == 0xe9b6c7aa
    ensures T(20) == 0xd62f105d && T(21) == 0x02441453 && T(22) == 0xd8a1e681 && T(23) == 0xe7d3fbc8
  {
  }

  lemma TwoFirst(x: seq<Word>)
    requires AlphabetBlock(x)
    requires Operations(16, INITIAL, x) == Regs(0x1754a316, 0x608d6b7e, 0x00df74d5, 0x85567d90)
    ensures Operations(24, INITIAL, x) == Regs(0x570c43e0, 0xc9f162d4, 0xc28ab49d, 0x977efd2a)
  {
    ScheduleTwoFirst();
    TableTwoFirst();
    hide WordIndex, Shift, T, Operations;
    StepG(x, 16, Regs(0x1754a316, 0x608d6b7e, 0x00df74d5, 0x85567d90), 0x68676665, 5, 0xf61e2562);
    StepG(x, 17, Regs(0x85567d90, 0x2d8071cc, 0x608d6b7e, 0x00df74d5), 0x00807a79, 9, 0xc040b340);
    StepG(x, 18, Regs(0x00df74d5, 0x5dcee119, 0x2d8071cc, 0x608d6b7e), 0x00000000, 14, 0x265e5a51);
    StepG(x, 19, Regs(0x608d6b7e, 0xedfe7e4b, 0x5dcee119, 0x2d8071cc), 0x64636261, 20, 0xe9b6c7aa);
    StepG(x, 20, Regs(0x2d8071cc, 0x4c2145b3, 0xedfe7e4b, 0x5dcee119), 0x78777675, 5, 0xd62f105d);
    StepG(x, 21, Regs(0x5dcee119, 0x570c43e0, 0x4c2145b3, 0xedfe7e4b), 0x00000000, 9, 0x02441453);
    StepG(x, 22, Regs(0xedfe7e4b, 0x977efd2a, 0x570c43e0, 0x4c2145b3), 0x00000000, 14, 0xd8a1e681);
    StepG(x, 23, Regs(0x4c2145b3, 0xc28ab49d, 0x977efd2a, 0x570c43e0), 0x74737271, 20, 0xe7d3fbc8);
  }

  lemma TableTwoLast()
    ensures T(24) == 0x21e1cde6 && T(25) == 0xc33707d6 && T(26) == 0xf4d50d87 && T(27) == 0x455a14ed
    ensures T(28) == 0xa9e3e905 && T(29) == 0xfcefa3f8 && T(30) == 0x676f02d9 && T(31) == 0x8d2a4c8a
  {
  }

  lemma TwoLast(x: seq<Word>)
    requires AlphabetBlock(x)
    requires Operations(24, INITIAL, x) == Regs(0x570c43e0, 0xc9f162d4, 0xc28ab49d, 0x977efd2a)
    ensures Operations(32, INITIAL, x) == Regs(0xf54d8710, 0xaeb35766, 0x2e69afc7, 0x927b72e2)
  {
    ScheduleTwoLast();
    TableTwoLast();
    hide WordIndex, Shift, T, Operations;
    StepG(x, 24, Regs(0x570c43e0, 0xc9f162d4, 0xc28ab49d, 0x977efd2a), 0x00000000, 5, 0x21e1cde6);
    StepG(x, 25, Regs(0x977efd2a, 0x25bfae3b, 0xc9f162d4, 0xc28ab49d), 0x000000d0, 9, 0xc33707d6);
    StepG(x, 26, Regs(0xc28ab49d, 0x89980104, 0x25bfae3b, 0xc9f162d4), 0x706f6e6d, 14, 0xf4d50d87);
    StepG(x, 27, Regs(0xc9f162d4, 0xf8c8365f, 0x89980104, 0x25bfae3b), 0x00000000, 20, 0x455a14ed);
    StepG(x, 28, Regs(0x25bfae3b, 0xe6d3b398, 0xf8c8365f, 0x89980104), 0x00000000, 5, 0xa9e3e905);
    StepG(x, 29, Regs(0x89980104, 0xf54d8710, 0xe6d3b398, 0xf8c8365f), 0x6c6b6a69, 9, 0xfcefa3f8);
    StepG(x, 30, Regs(0xf8c8365f, 0x927b72e2, 0xf54d8710, 0xe6d3b398), 0x00000000, 14, 0x676f02d9);
    StepG(x, 31, Regs(0xe6d3b398, 0x2e69afc7, 0x927b72e2, 0xf54d8710), 0x00000000, 20, 0x8d2a4c8a);
  }

  lemma TableThreeFirst()
    ensures T(32) == 0xfffa3942 && T(33) == 0x8771f681 && T(34) == 0x6d9d6122 && T(35) == 0xfde5380c
    ensures T(36) == 0xa4beea44 && T(37) == 0x4bdecfa9 && T(38) == 0xf6bb4b60 && T(39) == 0xbebfbc70
  {
  }

  lemma ThreeFirst(x: seq<Word>)
    requires AlphabetBlock(x)
    requires Operations(32, INITIAL, x) == Regs(0xf54d8710, 0xaeb35766, 0x2e69afc7, 0x927b72e2)
    ensures Operations(40, INITIAL, x) == Regs(0xb9c0c733, 0x8d41bf99, 0x23a9451b, 0xf1e6dc7a)
  {
    ScheduleThreeFirst();
    TableThreeFirst();
    hide WordIndex, Shift, T, Operations;
    StepH(x, 32, Regs(0xf54d8710, 0xaeb35766, 0x2e69afc7, 0x927b72e2), 0x78777675, 4, 0xfffa3942);
    StepH(x, 33, Regs(0x927b72e2, 0xb4bf680e, 0xaeb35766, 0x2e69afc7), 0x00000000, 11, 0x8771f681);
    StepH(x, 34, Regs(0x2e69afc7, 0x4c8ffa80, 0xb4bf680e, 0xaeb35766), 0x00000000, 16, 0x6d9d6122);
    StepH(x, 35, Regs(0xaeb35766, 0x2361ed0a, 0x4c8ffa80, 0xb4bf680e), 0x000000d0, 23, 0xfde5380c);
    StepH(x, 36, Regs(0xb4bf680e, 0x06a5e211, 0x2361ed0a, 0x4c8ffa80), 0x68676665, 4, 0xa4beea44);
    StepH(x, 37, Regs(0x4c8ffa80, 0xb9c0c733, 0x06a5e211, 0x2361ed0a), 0x74737271, 11, 0x4bdecfa9);
    StepH(x, 38, Regs(0x2361ed0a, 0xf1e6dc7a, 0xb9c0c733, 0x06a5e211), 0x00000000, 16, 0xf6bb4b60);
    StepH(x, 39, Regs(0x06a5e211, 0x23a9451b, 0xf1e6dc7a, 0xb9c0c733), 0x00000000, 23, 0xbebfbc70);
  }

  lemma TableThreeLast()
    ensures T(40) == 0x289b7ec6 && T(41) == 0xeaa127fa && T(42) == 0xd4ef3085 && T(43) == 0x04881d05
    ensures T(44) == 0xd9d4d039 && T(45) == 0xe6db99e5 && T(46) == 0x1fa27cf8 && T(47) == 0xc4ac5665
  {
  }

  lemma ThreeLast(x: seq<Word>)
    requires AlphabetBlock(x)
    requires Operations(40, INITIAL, x) == Regs(0xb9c0c733, 0x8d41bf99, 0x23a9451b, 0xf1e6dc7a)
    ensures Operations(48, INITIAL, x) == Regs(0xb5d41f9c, 0x71d10367, 0x703d54d8, 0xa04b4904)
  {
    ScheduleThreeLast();
    TableThreeLast();
    hide WordIndex, Shift, T, Operations;
    StepH(x, 40, Regs(0xb9c0c733, 0x8d41bf99, 0x23a9451b, 0xf1e6dc7a), 0x00000000, 4, 0x289b7ec6);
    StepH(x, 41, Regs(0xf1e6dc7a, 0xa3e88ead, 0x8d41bf99, 0x23a9451b), 0x64636261, 11, 0xeaa127fa);
    StepH(x, 42, Regs(0x23a9451b, 0x02c0b11c, 0xa3e88ead, 0x8d41bf99), 0x706f6e6d, 16, 0xd4ef3085);
    StepH(x, 43, Regs(0x8d41bf99, 0x66f6468d, 0x02c0b11c, 0xa3e88ead), 0x00807a79, 23, 0x04881d05);
    StepH(x, 44, Regs(0xa3e88ead, 0x90a35af5, 0x66f6468d, 0x02c0b11c), 0x00000000, 4, 0xd9d4d039);
    StepH(x, 45, Regs(0x02c0b11c, 0xb5d41f9c, 0x90a35af5, 0x66f6468d), 0x00000000, 11, 0xe6db99e5);
    StepH(x, 46, Regs(0x66f6468d, 0xa04b4904, 0xb5d41f9c, 0x90a35af5), 0x00000000, 16, 0x1fa27cf8);
    StepH(x, 47, Regs(0x90a35af5, 0x703d54d8, 0xa04b4904, 0xb5d41f9c), 0x6c6b6a69, 23, 0xc4ac5665);
  }

  lemma TableFourFirst()
    ensures T(48) == 0xf4292244 && T(49) == 0x432aff97 && T(50) == 0xab9423a7 && T(51) == 0xfc93a039
    ensures T(52) == 0x655b59c3 && T(53) == 0x8f0ccc92 && T(54) == 0xffeff47d && T(55) == 0x85845dd1
  {
  }

  lemma FourFirst(x: seq<Word>)
    requires AlphabetBlock(x)
    requires Operations(48, INITIAL, x) == Regs(0xb5d41f9c, 0x71d10367, 0x703d54d8, 0xa04b4904)
    ensures Operations(56, INITIAL, x) == Regs(0xc1e942f1, 0x83877d1b, 0x23a68048, 0xd9bb987c)
  {
    ScheduleFourFirst();
    TableFourFirst();
    hide WordIndex, Shift, T, Operations;
    StepI(x, 48, Regs(0xb5d41f9c, 0x71d10367, 0x703d54d8, 0xa04b4904), 0x64636261, 6, 0xf4292244);
    StepI(x, 49, Regs(0xa04b4904, 0xfc32dd6e, 0x71d10367, 0x703d54d8), 0x00000000, 10, 0x432aff97);
    StepI(x, 50, Regs(0x703d54d8, 0x65456b34, 0xfc32dd6e, 0x71d10367), 0x000000d0, 15, 0xab9423a7);
    StepI(x, 51, Regs(0x71d10367, 0xb35602cb, 0x65456b34, 0xfc32dd6e), 0x78777675, 21, 0xfc93a039);
    StepI(x, 52, Regs(0xfc32dd6e, 0x33edb197, 0xb35602cb, 0x65456b34), 0x00000000, 6, 0x655b59c3);
    StepI(x, 53, Regs(0x65456b34, 0xc1e942f1, 0x33edb197, 0xb35602cb), 0x706f6e6d, 10, 0x8f0ccc92);
    StepI(x, 54, Regs(0xb35602cb, 0xd9bb987c, 0xc1e942f1, 0x33edb197), 0x00000000, 15, 0xffeff47d);
    StepI(x, 55, Regs(0x33edb197, 0x23a68048, 0xd9bb987c, 0xc1e942f1), 0x68676665, 21, 0x85845dd1);
  }

  lemma TableFourLast()
    ensures T(56) == 0x6fa87e4f && T(57) == 0xfe2ce6e0 && T(58) == 0xa3014314 && T(59) == 0x4e0811a1
    ensures T(60) == 0xf7537e82 && T(61) == 0xbd3af235 && T(62) == 0x2ad7d2bb && T(63) == 0xeb86d391
  {
  }

  lemma FourLast(x: seq<Word>)
    requires AlphabetBlock(x)
    requires Operations(56, INITIAL, x) == Regs(0xc1e942f1, 0x83877d1b, 0x23a68048, 0xd9bb987c)
    ensures Operations(64, INITIAL, x) == Regs(0x708ed9c2, 0x1116e6d8, 0xd38f1e7f, 0x2baf1354)
  {
    ScheduleFourLast();
    TableFourLast();
    hide WordIndex, Shift, T, Operations;
    StepI(x, 56, Regs(0xc1e942f1, 0x83877d1b, 0x23a68048, 0xd9bb987c), 0x00000000, 6, 0x6fa87e4f);
    StepI(x, 57, Regs(0xd9bb987c, 0x0077c208, 0x83877d1b, 0x23a68048), 0x00000000, 10, 0xfe2ce6e0);
    StepI(x, 58, Regs(0x23a68048, 0x847fc2e7, 0x0077c208, 0x83877d1b), 0x00807a79, 15, 0xa3014314);
    StepI(x, 59, Regs(0x83877d1b, 0xa3e2247f, 0x847fc2e7, 0x0077c208), 0x00000000, 21, 0x4e0811a1);
    StepI(x, 60, Regs(0x0077c208, 0x5e6bc930, 0xa3e2247f, 0x847fc2e7), 0x74737271, 6, 0xf7537e82);
    StepI(x, 61, Regs(0x847fc2e7, 0x708ed9c2, 0x5e6bc930, 0xa3e2247f), 0x00000000, 10, 0xbd3af235);
    StepI(x, 62, Regs(0xa3e2247f, 0x2baf1354, 0x708ed9c2, 0x5e6bc930), 0x6c6b6a69, 15, 0x2ad7d2bb);
    StepI(x, 63, Regs(0x5e6bc930, 0xd38f1e7f, 0x2baf1354, 0x708ed9c2), 0x00000000, 21, 0xeb86d391);
  }

  lemma AlphabetCompressed(x: seq<Word>)
    requires AlphabetBlock(x)
    ensures Compress(INITIAL, x) == Regs(0xd7d3fcc3, 0x00e49261, 0x6c49fb7d, 0x3be167ca)
  {
    assert Operations(0, INITIAL, x) == INITIAL;
    hide Operations, AlphabetBlock;
    OneFirst(x);
    OneLast(x);
    TwoFirst(x);
    TwoLast(x);
    ThreeFirst(x);
    ThreeLast(x);
    FourFirst(x);
    FourLast(x);
  }

  // ---------------------------------------------------------------- the bytes

  const A_TO_H: seq<Octet> := [0x61, 0x62, 0x63, 0x64, 0x65, 0x66, 0x67, 0x68]

  const I_TO_P: seq<Octet> := [0x69, 0x6a, 0x6b, 0x6c, 0x6d, 0x6e, 0x6f, 0x70]

  const Q_TO_X: seq<Octet> := [0x71, 0x72, 0x73, 0x74, 0x75, 0x76, 0x77, 0x78]

  const Y_AND_Z: seq<Octet> := [0x79, 0x7a]

  const ALPHABET := A_TO_H + I_TO_P + Q_TO_X + Y_AND_Z

  const MARKED: seq<Octet> := [0x79, 0x7a, 0x80, 0x00, 0x00, 0x00, 0x00, 0x00]

  const NONE: seq<Octet> := [0, 0, 0, 0, 0, 0, 0, 0]

  const BIT_LENGTH: seq<Octet> := [0xd0, 0, 0, 0, 0, 0, 0, 0]

  lemma AlphabetPadded()
    ensures Padded(ALPHABET) == A_TO_H + I_TO_P + Q_TO_X + MARKED + NONE + NONE + NONE + BIT_LENGTH
  {
    AlphabetLength();
    assert |ALPHABET| == 26 && (55 - 26) % 64 == 29;
    hide LengthBytes;
    assert Y_AND_Z + [0x80] + Zeros(29) == MARKED + NONE + NONE + NONE;
  }

  lemma AlphabetLength()
    ensures LengthBytes(26) == BIT_LENGTH
  {
    hide WordBytes;
    FourBytes(208, 0xd0, 0, 0, 0);
    FourBytes(0, 0, 0, 0, 0);
    assert 8 * 26 % (WORD * WORD) == 208;
  }

  lemma TwoWords(p: seq<Octet>, at: nat, b: seq<Octet>)
    requires at + 8 <= |p| && b == p[at..at + 8]
    ensures Load(p, at) == Load(b, 0) && Load(p, at + 4) == Load(b, 4)
  {
  }

  lemma ChunkWords()
    ensures Load(A_TO_H, 0) == 0x64636261 && Load(A_TO_H, 4) == 0x68676665
    ensures Load(I_TO_P, 0) == 0x6c6b6a69 && Load(I_TO_P, 4) == 0x706f6e6d
    ensures Load(Q_TO_X, 0) == 0x74737271 && Load(Q_TO_X, 4) == 0x78777675
    ensures Load(MARKED, 0) == 0x00807a79 && Load(MARKED, 4) == 0x00000000
    ensures Load(NONE, 0) == 0x00000000 && Load(NONE, 4) == 0x00000000
    ensures Load(BIT_LENGTH, 0) == 0x000000d0 && Load(BIT_LENGTH, 4) == 0x00000000
  {
  }

  lemma EightChunks(p: seq<Octet>, a: seq<Octet>, b: seq<Octet>, c: seq<Octet>, d: seq<Octet>, e: seq<Octet>,
                    f: seq<Octet>, g: seq<Octet>, h: seq<Octet>)
    requires |a| == |b| == |c| == |d| == |e| == |f| == |g| == |h| == 8 && p == a + b + c + d + e + f + g + h
    ensures |p| == 64 && p[0..8] == a && p[8..16] == b && p[16..24] == c && p[24..32] == d
    ensures p[32..40] == e && p[40..48] == f && p[48..56] == g && p[56..64] == h
  {
  }

  lemma AlphabetWords(p: seq<Octet>)
    requires p == A_TO_H + I_TO_P + Q_TO_X + MARKED + NONE + NONE + NONE + BIT_LENGTH
    ensures |p| == 64 && AlphabetBlock(Words(p))
  {
    EightChunks(p, A_TO_H, I_TO_P, Q_TO_X, MARKED, NONE, NONE, NONE, BIT_LENGTH);
    hide Load;
    TwoWords(p, 0, A_TO_H);
    TwoWords(p, 8, I_TO_P);
    TwoWords(p, 16, Q_TO_X);
    TwoWords(p, 24, MARKED);
    TwoWords(p, 32, NONE);
    TwoWords(p, 40, NONE);
    TwoWords(p, 48, NONE);
    TwoWords(p, 56, BIT_LENGTH);
    ChunkWords();
  }

  /** MD5("abcdefghijklmnopqrstuvwxyz"). */
  lemma AlphabetDigest()
    ensures Digest(ALPHABET) == [
      0xc3, 0xfc, 0xd3, 0xd7, 0x61, 0x92, 0xe4, 0x00, 0x7d, 0xfb, 0x49, 0x6c, 0xca, 0x67, 0xe1, 0x3b]
  {
    var p := Padded(ALPHABET);
    AlphabetPadded();
    AlphabetWords(p);
    AlphabetCompressed(Words(p));
    assert p[0..64] == p;
    hide Padded, Compress, Words;
    assert Fold(1, p) == Compress(Fold(0, p), Words(p[0..64]));
    AlphabetOutput();
  }

  lemma AlphabetOutput()
    ensures Output(Regs(0xd7d3fcc3, 0x00e49261, 0x6c49fb7d, 0x3be167ca)) == [
      0xc3, 0xfc, 0xd3, 0xd7, 0x61, 0x92, 0xe4, 0x00, 0x7d, 0xfb, 0x49, 0x6c, 0xca, 0x67, 0xe1, 0x3b]
  {
  }
}
