/** The digests that appendix A.5 of RFC 1321 gives for the empty message, for "abc" and for eighty
    digits, which take two blocks. They pin the constants, the order of words, rotations and bytes,
    the padding and the chaining, which the rest only relates to each other. */
module Md5Vectors {
  import opened Bytes
  import opened Md5

  /** Four steps from one state to another, their values given. */
  lemma FourValues(s0: State, x: seq<word>, n: nat, r: State, s: State)
    requires |x| == 16 && n % 4 == 0 && Steps(s0, x, n) == r
    requires Op(Mix(n, r.b, r.c, r.d), r.a, r.b, x[WordIndex(n)], Shift(n), T(n)) == s.a
    requires Op(Mix(n + 1, s.a, r.b, r.c), r.d, s.a, x[WordIndex(n + 1)], Shift(n + 1), T(n + 1)) == s.d
    requires Op(Mix(n + 2, s.d, s.a, r.b), r.c, s.d, x[WordIndex(n + 2)], Shift(n + 2), T(n + 2)) == s.c
    requires Op(Mix(n + 3, s.c, s.d, s.a), r.b, s.c, x[WordIndex(n + 3)], Shift(n + 3), T(n + 3)) == s.b
    ensures Steps(s0, x, n + 4) == s
  {
    hide *;
    FourSteps(s0, x, n);
  }

  lemma NothingDone(s0: State, x: seq<word>)
    requires |x| == 16
    ensures Steps(s0, x, 0) == s0
  {
  }

  lemma InitIs()
    ensures INIT == State(0x67452301, 0xefcdab89, 0x98badcfe, 0x10325476)
  {
  }

  /** A block's word, told by its little-endian bytes. */
  lemma WordIs(s: Str, w: word)
    requires |s| == 4 && s == ToLE(w as nat, 4)
    ensures ToWord(s) == w
  {
    RoundTripLE(w as nat, 4);
    Pow256Values();
    hide ToLE, FromLE;
  }

  /** A block's words, told by the bytes of each. */
  lemma WordsAre(block: Str, x: seq<word>)
    requires |block| == 64 && |x| == 16
    requires forall j :: 0 <= j < 16 ==> block[4 * j..4 * j + 4] == ToLE(x[j] as nat, 4)
    ensures Words(block) == x
  {
    hide ToLE, ToWord;
    forall j | 0 <= j < 16 ensures ToWord(block[4 * j..4 * j + 4]) == x[j] {
      WordIs(block[4 * j..4 * j + 4], x[j]);
    }
  }

  lemma CompressSteps(s0: State, block: Str)
    requires |block| == 64
    ensures Compress(s0, block) == AddStates(s0, Steps(s0, Words(block), 64))
  {
    hide Steps, AddStates;
  }

  lemma CompressIs(s0: State, block: Str, x: seq<word>, r: State, s: State)
    requires |block| == 64 && |x| == 16 && Words(block) == x && Steps(s0, x, 64) == r
    requires AddStates(s0, r) == s
    ensures Compress(s0, block) == s
  {
    hide *;
    CompressSteps(s0, block);
  }

  lemma EncodeIs(s: State, a: Str, b: Str, c: Str, d: Str)
    requires ToLE(s.a as nat, 4) == a && ToLE(s.b as nat, 4) == b && ToLE(s.c as nat, 4) == c && ToLE(s.d as nat, 4) == d
    ensures EncodeState(s) == a + b + c + d
  {
    hide ToLE;
  }

  lemma OneBlock(block: Str)
    requires |block| == 64
    ensures ProcessBlocks(block) == Compress(INIT, block)
  {
    hide Compress;
    ProcessNext([], block);
    assert [] + block == block && ProcessBlocks([]) == INIT;
  }

  lemma TwoBlocks(p: Str)
    requires |p| == 128
    ensures ProcessBlocks(p) == Compress(Compress(INIT, p[..64]), p[64..])
  {
    hide Compress;
    OneBlock(p[..64]);
    ProcessNext(p[..64], p[64..]);
    assert p[..64] + p[64..] == p;
  }

  lemma DigestIs(m: Str)
    ensures Digest(m) == EncodeState(ProcessBlocks(Padded(m)))
  {
    hide Padded, ProcessBlocks, EncodeState;
  }

  /** A word's four bytes, one by one. */
  lemma FourBytes(p: Str, i: nat, s: Str)
    requires i + 4 <= |p| && |s| == 4
    requires p[i] == s[0] && p[i + 1] == s[1] && p[i + 2] == s[2] && p[i + 3] == s[3]
    ensures p[i..i + 4] == s
  {
  }

  // ---------------------------------------------------------------- the empty message

  const EMPTY: seq<word> := [0x80, 0x0, 0x0, 0x0, 0x0, 0x0, 0x0, 0x0, 0x0, 0x0, 0x0, 0x0, 0x0, 0x0, 0x0, 0x0]

  lemma EmptyWord()
    ensures |EMPTY| == 16
    ensures EMPTY[0] == 0x80 && EMPTY[1] == 0x0 && EMPTY[2] == 0x0 && EMPTY[3] == 0x0
    ensures EMPTY[4] == 0x0 && EMPTY[5] == 0x0 && EMPTY[6] == 0x0 && EMPTY[7] == 0x0
    ensures EMPTY[8] == 0x0 && EMPTY[9] == 0x0 && EMPTY[10] == 0x0 && EMPTY[11] == 0x0
    ensures EMPTY[12] == 0x0 && EMPTY[13] == 0x0 && EMPTY[14] == 0x0 && EMPTY[15] == 0x0
    ensures forall j :: 0 <= j < 16 && j != 0 ==> EMPTY[j] == 0x0
  {
  }

  lemma EmptyValues1()
    ensures Op(F(0xefcdab89, 0x98badcfe, 0x10325476), 0x67452301, 0xefcdab89, 0x80, 7, 0xd76aa478) == 0xa5202774
    ensures Op(F(0xa5202774, 0xefcdab89, 0x98badcfe), 0x10325476, 0xa5202774, 0x0, 12, 0xe8c7b756) == 0xf59592dd
    ensures Op(F(0xf59592dd, 0xa5202774, 0xefcdab89), 0x98badcfe, 0xf59592dd, 0x0, 17, 0x242070db) == 0xe7f06b23
    ensures Op(F(0xe7f06b23, 0xf59592dd, 0xa5202774), 0xefcdab89, 0xe7f06b23, 0x0, 22, 0xc1bdceee) == 0x1b163203
    ensures Op(F(0x1b163203, 0xe7f06b23, 0xf59592dd), 0xa5202774, 0x1b163203, 0x0, 7, 0xf57c0faf) == 0x32033344
    ensures Op(F(0x32033344, 0x1b163203, 0xe7f06b23), 0xf59592dd, 0x32033344, 0x0, 12, 0x4787c62a) == 0x2f35d494
    ensures Op(F(0x2f35d494, 0x32033344, 0x1b163203), 0xe7f06b23, 0x2f35d494, 0x0, 17, 0xa8304613) == 0xf5b158db
    ensures Op(F(0xf5b158db, 0x2f35d494, 0x32033344), 0x1b163203, 0xf5b158db, 0x0, 22, 0xfd469501) == 0x9bc13ce9
    ensures Op(F(0x9bc13ce9, 0xf5b158db, 0x2f35d494), 0x32033344, 0x9bc13ce9, 0x0, 7, 0x698098d8) == 0x3893b991
    ensures Op(F(0x3893b991, 0x9bc13ce9, 0xf5b158db), 0x2f35d494, 0x3893b991, 0x0, 12, 0x8b44f7af) == 0xfce4a312
    ensures Op(F(0xfce4a312, 0x3893b991, 0x9bc13ce9), 0xf5b158db, 0xfce4a312, 0x0, 17, 0xffff5bb1) == 0xe1ef0576
    ensures Op(F(0xe1ef0576, 0xfce4a312, 0x3893b991), 0x9bc13ce9, 0xe1ef0576, 0x0, 22, 0x895cd7be) == 0x70768a29
    ensures Op(F(0x70768a29, 0xe1ef0576, 0xfce4a312), 0x3893b991, 0x70768a29, 0x0, 7, 0x6b901122) == 0xf56c7cf1
    ensures Op(F(0xf56c7cf1, 0x70768a29, 0xe1ef0576), 0xfce4a312, 0xf56c7cf1, 0x0, 12, 0xfd987193) == 0x374943a7
    ensures Op(F(0x374943a7, 0xf56c7cf1, 0x70768a29), 0xe1ef0576, 0x374943a7, 0x0, 17, 0xa679438e) == 0x5aa53f75
    ensures Op(F(0x5aa53f75, 0x374943a7, 0xf56c7cf1), 0x70768a29, 0x5aa53f75, 0x0, 22, 0x49b40821) == 0xd6819c6a
  {
  }

  lemma EmptyValues2()
    ensures Op(G(0xd6819c6a, 0x5aa53f75, 0x374943a7), 0xf56c7cf1, 0xd6819c6a, 0x0, 5, 0xf61e2562) == 0x1c7d7513
    ensures Op(G(0x1c7d7513, 0xd6819c6a, 0x5aa53f75), 0x374943a7, 0x1c7d7513, 0x0, 9, 0xc040b340) == 0x7bd57a3a
    ensures Op(G(0x7bd57a3a, 0x1c7d7513, 0xd6819c6a), 0x5aa53f75, 0x7bd57a3a, 0x0, 14, 0x265e5a51) == 0xc095f13a
    ensures Op(G(0xc095f13a, 0x7bd57a3a, 0x1c7d7513), 0xd6819c6a, 0xc095f13a, 0x80, 20, 0xe9b6c7aa) == 0xbd782e17
    ensures Op(G(0xbd782e17, 0xc095f13a, 0x7bd57a3a), 0x1c7d7513, 0xbd782e17, 0x0, 5, 0xd62f105d) == 0x3d1e3e6c
    ensures Op(G(0x3d1e3e6c, 0xbd782e17, 0xc095f13a), 0x7bd57a3a, 0x3d1e3e6c, 0x0, 9, 0x2441453) == 0x68b7b3e3
    ensures Op(G(0x68b7b3e3, 0x3d1e3e6c, 0xbd782e17), 0xc095f13a, 0x68b7b3e3, 0x0, 14, 0xd8a1e681) == 0xeb41643e
    ensures Op(G(0xeb41643e, 0x68b7b3e3, 0x3d1e3e6c), 0xbd782e17, 0xeb41643e, 0x0, 20, 0xe7d3fbc8) == 0xe422531a
    ensures Op(G(0xe422531a, 0xeb41643e, 0x68b7b3e3), 0x3d1e3e6c, 0xe422531a, 0x0, 5, 0x21e1cde6) == 0x306ec122
    ensures Op(G(0x306ec122, 0xe422531a, 0xeb41643e), 0x68b7b3e3, 0x306ec122, 0x0, 9, 0xc33707d6) == 0xd28c77c2
    ensures Op(G(0xd28c77c2, 0x306ec122, 0xe422531a), 0xeb41643e, 0xd28c77c2, 0x0, 14, 0xf4d50d87) == 0xa3c663da
    ensures Op(G(0xa3c663da, 0xd28c77c2, 0x306ec122), 0xe422531a, 0xa3c663da, 0x0, 20, 0x455a14ed) == 0xa0572807
    ensures Op(G(0xa0572807, 0xa3c663da, 0xd28c77c2), 0x306ec122, 0xa0572807, 0x0, 5, 0xa9e3e905) == 0x13707036
    ensures Op(G(0x13707036, 0xa0572807, 0xa3c663da), 0xd28c77c2, 0x13707036, 0x0, 9, 0xfcefa3f8) == 0xae7813db
    ensures Op(G(0xae7813db, 0x13707036, 0xa0572807), 0xa3c663da, 0xae7813db, 0x0, 14, 0x676f02d9) == 0x1c31c384
    ensures Op(G(0x1c31c384, 0xae7813db, 0x13707036), 0xa0572807, 0x1c31c384, 0x0, 20, 0x8d2a4c8a) == 0xa2205f1f
  {
  }

  lemma EmptyValues3()
    ensures Op(H(0xa2205f1f, 0x1c31c384, 0xae7813db), 0x13707036, 0xa2205f1f, 0x0, 4, 0xfffa3942) == 0xdf63eaa1
    ensures Op(H(0xdf63eaa1, 0xa2205f1f, 0x1c31c384), 0xae7813db, 0xdf63eaa1, 0x0, 11, 0x8771f681) == 0xc3689f5b
    ensures Op(H(0xc3689f5b, 0xdf63eaa1, 0xa2205f1f), 0x1c31c384, 0xc3689f5b, 0x0, 16, 0x6d9d6122) == 0x12f3e755
    ensures Op(H(0x12f3e755, 0xc3689f5b, 0xdf63eaa1), 0xa2205f1f, 0x12f3e755, 0x0, 23, 0xfde5380c) == 0x4b6669
    ensures Op(H(0x4b6669, 0x12f3e755, 0xc3689f5b), 0xdf63eaa1, 0x4b6669, 0x0, 4, 0xa4beea44) == 0x5f7a9b2e
    ensures Op(H(0x5f7a9b2e, 0x4b6669, 0x12f3e755), 0xc3689f5b, 0x5f7a9b2e, 0x0, 11, 0x4bdecfa9) == 0xabc34e16
    ensures Op(H(0xabc34e16, 0x5f7a9b2e, 0x4b6669), 0x12f3e755, 0xabc34e16, 0x0, 16, 0xf6bb4b60) == 0x91ca4cb7
    ensures Op(H(0x91ca4cb7, 0xabc34e16, 0x5f7a9b2e), 0x4b6669, 0x91ca4cb7, 0x0, 23, 0xbebfbc70) == 0xc5dc8c15
    ensures Op(H(0xc5dc8c15, 0x91ca4cb7, 0xabc34e16), 0x5f7a9b2e, 0xc5dc8c15, 0x0, 4, 0x289b7ec6) == 0x4497169d
    ensures Op(H(0x4497169d, 0xc5dc8c15, 0x91ca4cb7), 0xabc34e16, 0x4497169d, 0x80, 11, 0xeaa127fa) == 0x76fd93d4
    ensures Op(H(0x76fd93d4, 0x4497169d, 0xc5dc8c15), 0x91ca4cb7, 0x76fd93d4, 0x0, 16, 0xd4ef3085) == 0xfd95f243
    ensures Op(H(0xfd95f243, 0x76fd93d4, 0x4497169d), 0xc5dc8c15, 0xfd95f243, 0x0, 23, 0x4881d05) == 0xfe32453
    ensures Op(H(0xfe32453, 0xfd95f243, 0x76fd93d4), 0x4497169d, 0xfe32453, 0x0, 4, 0xd9d4d039) == 0x3f55edfd
    ensures Op(H(0x3f55edfd, 0xfe32453, 0xfd95f243), 0x76fd93d4, 0x3f55edfd, 0x0, 11, 0xe6db99e5) == 0x22a31f54
    ensures Op(H(0x22a31f54, 0x3f55edfd, 0xfe32453), 0xfd95f243, 0x22a31f54, 0x0, 16, 0x1fa27cf8) == 0x68d84ea2
    ensures Op(H(0x68d84ea2, 0x22a31f54, 0x3f55edfd), 0xfe32453, 0x68d84ea2, 0x0, 23, 0xc4ac5665) == 0xca7d2dbd
  {
  }

  lemma EmptyValues4()
    ensures Op(I(0xca7d2dbd, 0x68d84ea2, 0x22a31f54), 0x3f55edfd, 0xca7d2dbd, 0x80, 6, 0xf4292244) == 0x93aa2577
    ensures Op(I(0x93aa2577, 0xca7d2dbd, 0x68d84ea2), 0x22a31f54, 0x93aa2577, 0x0, 10, 0x432aff97) == 0x1688dc85
    ensures Op(I(0x1688dc85, 0x93aa2577, 0xca7d2dbd), 0x68d84ea2, 0x1688dc85, 0x0, 15, 0xab9423a7) == 0xcd85b8cb
    ensures Op(I(0xcd85b8cb, 0x1688dc85, 0x93aa2577), 0xca7d2dbd, 0xcd85b8cb, 0x0, 21, 0xfc93a039) == 0x561e0689
    ensures Op(I(0x561e0689, 0xcd85b8cb, 0x1688dc85), 0x93aa2577, 0x561e0689, 0x0, 6, 0x655b59c3) == 0x5625a114
    ensures Op(I(0x5625a114, 0x561e0689, 0xcd85b8cb), 0x1688dc85, 0x5625a114, 0x0, 10, 0x8f0ccc92) == 0x3450f42b
    ensures Op(I(0x3450f42b, 0x5625a114, 0x561e0689), 0xcd85b8cb, 0x3450f42b, 0x0, 15, 0xffeff47d) == 0x392ad0d0
    ensures Op(I(0x392ad0d0, 0x3450f42b, 0x5625a114), 0x561e0689, 0x392ad0d0, 0x0, 21, 0x85845dd1) == 0x1e77fa61
    ensures Op(I(0x1e77fa61, 0x392ad0d0, 0x3450f42b), 0x5625a114, 0x1e77fa61, 0x0, 6, 0x6fa87e4f) == 0x474a9c8c
    ensures Op(I(0x474a9c8c, 0x1e77fa61, 0x392ad0d0), 0x3450f42b, 0x474a9c8c, 0x0, 10, 0xfe2ce6e0) == 0xdfce00bc
    ensures Op(I(0xdfce00bc, 0x474a9c8c, 0x1e77fa61), 0x392ad0d0, 0xdfce00bc, 0x0, 15, 0xa3014314) == 0x36594b14
    ensures Op(I(0x36594b14, 0xdfce00bc, 0x474a9c8c), 0x1e77fa61, 0x36594b14, 0x0, 21, 0x4e0811a1) == 0x30130182
    ensures Op(I(0x30130182, 0x36594b14, 0xdfce00bc), 0x474a9c8c, 0x30130182, 0x0, 6, 0xf7537e82) == 0x7246fad3
    ensures Op(I(0x7246fad3, 0x30130182, 0x36594b14), 0xdfce00bc, 0x7246fad3, 0x0, 10, 0xbd3af235) == 0x6e10a476
    ensures Op(I(0x6e10a476, 0x7246fad3, 0x30130182), 0x36594b14, 0x6e10a476, 0x0, 15, 0x2ad7d2bb) == 0xff4ea3eb
    ensures Op(I(0xff4ea3eb, 0x6e10a476, 0x7246fad3), 0x30130182, 0xff4ea3eb, 0x0, 21, 0xeb86d391) == 0x14e45506
  {
  }

  /** The 64 steps on it. */
  lemma EmptySteps()
    ensures Steps(INIT, EMPTY, 64) == State(0x7246fad3, 0x14e45506, 0xff4ea3eb, 0x6e10a476)
  {
    hide *;
    EmptyWord();
    NothingDone(INIT, EMPTY);
    InitIs();
    Round1Constants();
    EmptyValues1();
    FourValues(INIT, EMPTY, 0, State(0x67452301, 0xefcdab89, 0x98badcfe, 0x10325476), State(0xa5202774, 0x1b163203, 0xe7f06b23, 0xf59592dd));
    FourValues(INIT, EMPTY, 4, State(0xa5202774, 0x1b163203, 0xe7f06b23, 0xf59592dd), State(0x32033344, 0x9bc13ce9, 0xf5b158db, 0x2f35d494));
    FourValues(INIT, EMPTY, 8, State(0x32033344, 0x9bc13ce9, 0xf5b158db, 0x2f35d494), State(0x3893b991, 0x70768a29, 0xe1ef0576, 0xfce4a312));
    FourValues(INIT, EMPTY, 12, State(0x3893b991, 0x70768a29, 0xe1ef0576, 0xfce4a312), State(0xf56c7cf1, 0xd6819c6a, 0x5aa53f75, 0x374943a7));
    Round2Constants();
    EmptyValues2();
    FourValues(INIT, EMPTY, 16, State(0xf56c7cf1, 0xd6819c6a, 0x5aa53f75, 0x374943a7), State(0x1c7d7513, 0xbd782e17, 0xc095f13a, 0x7bd57a3a));
    FourValues(INIT, EMPTY, 20, State(0x1c7d7513, 0xbd782e17, 0xc095f13a, 0x7bd57a3a), State(0x3d1e3e6c, 0xe422531a, 0xeb41643e, 0x68b7b3e3));
    FourValues(INIT, EMPTY, 24, State(0x3d1e3e6c, 0xe422531a, 0xeb41643e, 0x68b7b3e3), State(0x306ec122, 0xa0572807, 0xa3c663da, 0xd28c77c2));
    FourValues(INIT, EMPTY, 28, State(0x306ec122, 0xa0572807, 0xa3c663da, 0xd28c77c2), State(0x13707036, 0xa2205f1f, 0x1c31c384, 0xae7813db));
    Round3Constants();
    EmptyValues3();
    FourValues(INIT, EMPTY, 32, State(0x13707036, 0xa2205f1f, 0x1c31c384, 0xae7813db), State(0xdf63eaa1, 0x4b6669, 0x12f3e755, 0xc3689f5b));
    FourValues(INIT, EMPTY, 36, State(0xdf63eaa1, 0x4b6669, 0x12f3e755, 0xc3689f5b), State(0x5f7a9b2e, 0xc5dc8c15, 0x91ca4cb7, 0xabc34e16));
    FourValues(INIT, EMPTY, 40, State(0x5f7a9b2e, 0xc5dc8c15, 0x91ca4cb7, 0xabc34e16), State(0x4497169d, 0xfe32453, 0xfd95f243, 0x76fd93d4));
    FourValues(INIT, EMPTY, 44, State(0x4497169d, 0xfe32453, 0xfd95f243, 0x76fd93d4), State(0x3f55edfd, 0xca7d2dbd, 0x68d84ea2, 0x22a31f54));
    Round4Constants();
    EmptyValues4();
    FourValues(INIT, EMPTY, 48, State(0x3f55edfd, 0xca7d2dbd, 0x68d84ea2, 0x22a31f54), State(0x93aa2577, 0x561e0689, 0xcd85b8cb, 0x1688dc85));
    FourValues(INIT, EMPTY, 52, State(0x93aa2577, 0x561e0689, 0xcd85b8cb, 0x1688dc85), State(0x5625a114, 0x1e77fa61, 0x392ad0d0, 0x3450f42b));
    FourValues(INIT, EMPTY, 56, State(0x5625a114, 0x1e77fa61, 0x392ad0d0, 0x3450f42b), State(0x474a9c8c, 0x30130182, 0x36594b14, 0xdfce00bc));
    FourValues(INIT, EMPTY, 60, State(0x474a9c8c, 0x30130182, 0x36594b14, 0xdfce00bc), State(0x7246fad3, 0x14e45506, 0xff4ea3eb, 0x6e10a476));
  }

  lemma EmptySums()
    ensures AddStates(State(0x67452301, 0xefcdab89, 0x98badcfe, 0x10325476), State(0x7246fad3, 0x14e45506, 0xff4ea3eb, 0x6e10a476)) == State(0xd98c1dd4, 0x4b2008f, 0x980980e9, 0x7e42f8ec)
  {
  }

  lemma EmptyWordBytes()
    ensures ToLE(0x0 as word as nat, 4) == [0, 0, 0, 0]
    ensures ToLE(0x80 as word as nat, 4) == [128, 0, 0, 0]
  {
  }

  lemma EmptyBytes()
    ensures ToLE(0xd98c1dd4 as word as nat, 4) == [0xd4, 0x1d, 0x8c, 0xd9]
    ensures ToLE(0x4b2008f as word as nat, 4) == [0x8f, 0x00, 0xb2, 0x04]
    ensures ToLE(0x980980e9 as word as nat, 4) == [0xe9, 0x80, 0x09, 0x98]
    ensures ToLE(0x7e42f8ec as word as nat, 4) == [0xec, 0xf8, 0x42, 0x7e]
  {
  }

  lemma EmptyPadded(i: nat)
    requires i < 64
    ensures |Padded([])| == 64
    ensures Padded([])[i] == if i == 0 then 128 else 0
  {
    assert PadLength(0) == 56;
    EmptyCount();
    hide ToLE, Padded;
    PaddedLength([]);
    PaddedAt([], i);
  }

  lemma EmptyCount()
    ensures ToLE(0 % TWO64, 8) == [0, 0, 0, 0, 0, 0, 0, 0]
  {
    assert 0 % TWO64 == 0;
  }

  lemma EmptyBlock()
    ensures |Padded([])| == 64 && Words(Padded([])) == EMPTY
  {
    hide *;
    EmptyWord();
    EmptyWordBytes();
    EmptyPadded(0);
    forall j | 0 <= j < 16 ensures Padded([])[4 * j..4 * j + 4] == ToLE(EMPTY[j] as nat, 4) {
      EmptyPadded(4 * j);
      EmptyPadded(4 * j + 1);
      EmptyPadded(4 * j + 2);
      EmptyPadded(4 * j + 3);
      FourBytes(Padded([]), 4 * j, ToLE(EMPTY[j] as nat, 4));
    }
    WordsAre(Padded([]), EMPTY);
  }

  /** MD5 ("") = d41d8cd98f00b204e9800998ecf8427e */
  lemma EmptyDigest()
    ensures Digest([]) == [0xd4, 0x1d, 0x8c, 0xd9, 0x8f, 0x00, 0xb2, 0x04, 0xe9, 0x80, 0x09, 0x98, 0xec, 0xf8, 0x42, 0x7e]
  {
    hide *;
    EmptyBlock();
    EmptySteps();
    EmptySums();
    EmptyBytes();
    InitIs();
    OneBlock(Padded([]));
    CompressIs(INIT, Padded([]), EMPTY, State(0x7246fad3, 0x14e45506, 0xff4ea3eb, 0x6e10a476), State(0xd98c1dd4, 0x4b2008f, 0x980980e9, 0x7e42f8ec));
    EncodeIs(State(0xd98c1dd4, 0x4b2008f, 0x980980e9, 0x7e42f8ec), [0xd4, 0x1d, 0x8c, 0xd9], [0x8f, 0x00, 0xb2, 0x04], [0xe9, 0x80, 0x09, 0x98], [0xec, 0xf8, 0x42, 0x7e]);
    DigestIs([]);
  }

  // ---------------------------------------------------------------- "abc"

  const ABC: seq<word> := [0x80636261, 0x0, 0x0, 0x0, 0x0, 0x0, 0x0, 0x0, 0x0, 0x0, 0x0, 0x0, 0x0, 0x0, 0x18, 0x0]

  lemma AbcWord()
    ensures |ABC| == 16
    ensures ABC[0] == 0x80636261 && ABC[1] == 0x0 && ABC[2] == 0x0 && ABC[3] == 0x0
    ensures ABC[4] == 0x0 && ABC[5] == 0x0 && ABC[6] == 0x0 && ABC[7] == 0x0
    ensures ABC[8] == 0x0 && ABC[9] == 0x0 && ABC[10] == 0x0 && ABC[11] == 0x0
    ensures ABC[12] == 0x0 && ABC[13] == 0x0 && ABC[14] == 0x18 && ABC[15] == 0x0
    ensures forall j :: 0 <= j < 16 && j != 0 && j != 14 ==> ABC[j] == 0x0
  {
  }

  lemma AbcValues1()
    ensures Op(F(0xefcdab89, 0x98badcfe, 0x10325476), 0x67452301, 0xefcdab89, 0x80636261, 7, 0xd76aa478) == 0xd6d117b4
    ensures Op(F(0xd6d117b4, 0xefcdab89, 0x98badcfe), 0x10325476, 0xd6d117b4, 0x0, 12, 0xe8c7b756) == 0x344a8432
    ensures Op(F(0x344a8432, 0xd6d117b4, 0xefcdab89), 0x98badcfe, 0x344a8432, 0x0, 17, 0x242070db) == 0x2f6fbd72
    ensures Op(F(0x2f6fbd72, 0x344a8432, 0xd6d117b4), 0xefcdab89, 0x2f6fbd72, 0x0, 22, 0xc1bdceee) == 0x7ad956f2
    ensures Op(F(0x7ad956f2, 0x2f6fbd72, 0x344a8432), 0xd6d117b4, 0x7ad956f2, 0x0, 7, 0xf57c0faf) == 0xc73741ef
    ensures Op(F(0xc73741ef, 0x7ad956f2, 0x2f6fbd72), 0x344a8432, 0xc73741ef, 0x0, 12, 0x4787c62a) == 0x8bac3051
    ensures Op(F(0x8bac3051, 0xc73741ef, 0x7ad956f2), 0x2f6fbd72, 0x8bac3051, 0x0, 17, 0xa8304613) == 0x207dc67b
    ensures Op(F(0x207dc67b, 0x8bac3051, 0xc73741ef), 0x7ad956f2, 0x207dc67b, 0x0, 22, 0xfd469501) == 0x928d99f6
    ensures Op(F(0x928d99f6, 0x207dc67b, 0x8bac3051), 0xc73741ef, 0x928d99f6, 0x0, 7, 0x698098d8) == 0x854b3712
    ensures Op(F(0x854b3712, 0x928d99f6, 0x207dc67b), 0x8bac3051, 0x854b3712, 0x0, 12, 0x8b44f7af) == 0x74e2f284
    ensures Op(F(0x74e2f284, 0x854b3712, 0x928d99f6), 0x207dc67b, 0x74e2f284, 0x0, 17, 0xffff5bb1) == 0x3020401c
    ensures Op(F(0x3020401c, 0x74e2f284, 0x854b3712), 0x928d99f6, 0x3020401c, 0x0, 22, 0x895cd7be) == 0x5ed49596
    ensures Op(F(0x5ed49596, 0x3020401c, 0x74e2f284), 0x854b3712, 0x5ed49596, 0x0, 7, 0x6b901122) == 0xdda9b9a6
    ensures Op(F(0xdda9b9a6, 0x5ed49596, 0x3020401c), 0x74e2f284, 0xdda9b9a6, 0x0, 12, 0xfd987193) == 0xa1051895
    ensures Op(F(0xa1051895, 0xdda9b9a6, 0x5ed49596), 0x3020401c, 0xa1051895, 0x18, 17, 0xa679438e) == 0xe396856b
    ensures Op(F(0xe396856b, 0xa1051895, 0xdda9b9a6), 0x5ed49596, 0xe396856b, 0x0, 22, 0x49b40821) == 0x72aff2e0
  {
  }

  lemma AbcValues2()
    ensures Op(G(0x72aff2e0, 0xe396856b, 0xa1051895), 0xdda9b9a6, 0x72aff2e0, 0x0, 5, 0xf61e2562) == 0x3e9e9126
    ensures Op(G(0x3e9e9126, 0x72aff2e0, 0xe396856b), 0xa1051895, 0x3e9e9126, 0x0, 9, 0xc040b340) == 0x4a1d804e
    ensures Op(G(0x4a1d804e, 0x3e9e9126, 0x72aff2e0), 0xe396856b, 0x4a1d804e, 0x0, 14, 0x265e5a51) == 0xe25e1652
    ensures Op(G(0xe25e1652, 0x4a1d804e, 0x3e9e9126), 0x72aff2e0, 0xe25e1652, 0x80636261, 20, 0xe9b6c7aa) == 0xb5b204e4
    ensures Op(G(0xb5b204e4, 0xe25e1652, 0x4a1d804e), 0x3e9e9126, 0xb5b204e4, 0x0, 5, 0xd62f105d) == 0x59a8ffda
    ensures Op(G(0x59a8ffda, 0xb5b204e4, 0xe25e1652), 0x4a1d804e, 0x59a8ffda, 0x0, 9, 0x2441453) == 0x6d002f1e
    ensures Op(G(0x6d002f1e, 0x59a8ffda, 0xb5b204e4), 0xe25e1652, 0x6d002f1e, 0x0, 14, 0xd8a1e681) == 0xabfc7920
    ensures Op(G(0xabfc7920, 0x6d002f1e, 0x59a8ffda), 0xb5b204e4, 0xabfc7920, 0x0, 20, 0xe7d3fbc8) == 0x47092c07
    ensures Op(G(0x47092c07, 0xabfc7920, 0x6d002f1e), 0x59a8ffda, 0x47092c07, 0x0, 5, 0x21e1cde6) == 0xb7f268cf
    ensures Op(G(0xb7f268cf, 0x47092c07, 0xabfc7920), 0x6d002f1e, 0xb7f268cf, 0x18, 9, 0xc33707d6) == 0x9388eff
    ensures Op(G(0x9388eff, 0xb7f268cf, 0x47092c07), 0xabfc7920, 0x9388eff, 0x0, 14, 0xf4d50d87) == 0xfe1623b1
    ensures Op(G(0xfe1623b1, 0x9388eff, 0xb7f268cf), 0x47092c07, 0xfe1623b1, 0x0, 20, 0x455a14ed) == 0x786acb8f
    ensures Op(G(0x786acb8f, 0xfe1623b1, 0x9388eff), 0xb7f268cf, 0x786acb8f, 0x0, 5, 0xa9e3e905) == 0x790a77fb
    ensures Op(G(0x790a77fb, 0x786acb8f, 0xfe1623b1), 0x9388eff, 0x790a77fb, 0x0, 9, 0xfcefa3f8) == 0x9f47e4f8
    ensures Op(G(0x9f47e4f8, 0x790a77fb, 0x786acb8f), 0xfe1623b1, 0x9f47e4f8, 0x0, 14, 0x676f02d9) == 0xa62884aa
    ensures Op(G(0xa62884aa, 0x9f47e4f8, 0x790a77fb), 0x786acb8f, 0xa62884aa, 0x0, 20, 0x8d2a4c8a) == 0x726342d3
  {
  }

  lemma AbcValues3()
    ensures Op(H(0x726342d3, 0xa62884aa, 0x9f47e4f8), 0x790a77fb, 0x726342d3, 0x0, 4, 0xfffa3942) == 0xb3707ebf
    ensures Op(H(0xb3707ebf, 0x726342d3, 0xa62884aa), 0x9f47e4f8, 0xb3707ebf, 0x0, 11, 0x8771f681) == 0x60127b2e
    ensures Op(H(0x60127b2e, 0xb3707ebf, 0x726342d3), 0xa62884aa, 0x60127b2e, 0x0, 16, 0x6d9d6122) == 0x8d212ff5
    ensures Op(H(0x8d212ff5, 0x60127b2e, 0xb3707ebf), 0x726342d3, 0x8d212ff5, 0x18, 23, 0xfde5380c) == 0x3b0875c7
    ensures Op(H(0x3b0875c7, 0x8d212ff5, 0x60127b2e), 0xb3707ebf, 0x3b0875c7, 0x0, 4, 0xa4beea44) == 0x21b117b9
    ensures Op(H(0x21b117b9, 0x3b0875c7, 0x8d212ff5), 0x60127b2e, 0x21b117b9, 0x0, 11, 0x4bdecfa9) == 0x6e7429d5
    ensures Op(H(0x6e7429d5, 0x21b117b9, 0x3b0875c7), 0x8d212ff5, 0x6e7429d5, 0x0, 16, 0xf6bb4b60) == 0x3575227e
    ensures Op(H(0x3575227e, 0x6e7429d5, 0x21b117b9), 0x3b0875c7, 0x3575227e, 0x0, 23, 0xbebfbc70) == 0x5a2f5ea5
    ensures Op(H(0x5a2f5ea5, 0x3575227e, 0x6e7429d5), 0x21b117b9, 0x5a2f5ea5, 0x0, 4, 0x289b7ec6) == 0x11de1779
    ensures Op(H(0x11de1779, 0x5a2f5ea5, 0x3575227e), 0x6e7429d5, 0x11de1779, 0x80636261, 11, 0xeaa127fa) == 0xfadcaa38
    ensures Op(H(0xfadcaa38, 0x11de1779, 0x5a2f5ea5), 0x3575227e, 0xfadcaa38, 0x0, 16, 0xd4ef3085) == 0x31c465ca
    ensures Op(H(0x31c465ca, 0xfadcaa38, 0x11de1779), 0x5a2f5ea5, 0x31c465ca, 0x0, 23, 0x4881d05) == 0x4c6124f4
    ensures Op(H(0x4c6124f4, 0x31c465ca, 0xfadcaa38), 0x11de1779, 0x4c6124f4, 0x0, 4, 0xd9d4d039) == 0x7f2e507b
    ensures Op(H(0x7f2e507b, 0x4c6124f4, 0x31c465ca), 0xfadcaa38, 0x7f2e507b, 0x0, 11, 0xe6db99e5) == 0x99d9679d
    ensures Op(H(0x99d9679d, 0x7f2e507b, 0x4c6124f4), 0x31c465ca, 0x99d9679d, 0x0, 16, 0x1fa27cf8) == 0x8fae6399
    ensures Op(H(0x8fae6399, 0x99d9679d, 0x7f2e507b), 0x4c6124f4, 0x8fae6399, 0x0, 23, 0xc4ac5665) == 0x7beb9700
  {
  }

  lemma AbcValues4()
    ensures Op(I(0x7beb9700, 0x8fae6399, 0x99d9679d), 0x7f2e507b, 0x7beb9700, 0x80636261, 6, 0xf4292244) == 0x7b201df8
    ensures Op(I(0x7b201df8, 0x7beb9700, 0x8fae6399), 0x99d9679d, 0x7b201df8, 0x0, 10, 0x432aff97) == 0xf4e8e96e
    ensures Op(I(0xf4e8e96e, 0x7b201df8, 0x7beb9700), 0x8fae6399, 0xf4e8e96e, 0x18, 15, 0xab9423a7) == 0xb298cefd
    ensures Op(I(0xb298cefd, 0xf4e8e96e, 0x7b201df8), 0x7beb9700, 0xb298cefd, 0x0, 21, 0xfc93a039) == 0x8bf025c4
    ensures Op(I(0x8bf025c4, 0xb298cefd, 0xf4e8e96e), 0x7b201df8, 0x8bf025c4, 0x0, 6, 0x655b59c3) == 0x6cc5e8a
    ensures Op(I(0x6cc5e8a, 0x8bf025c4, 0xb298cefd), 0xf4e8e96e, 0x6cc5e8a, 0x0, 10, 0x8f0ccc92) == 0x5b0d97aa
    ensures Op(I(0x5b0d97aa, 0x6cc5e8a, 0x8bf025c4), 0xb298cefd, 0x5b0d97aa, 0x0, 15, 0xffeff47d) == 0x7d632dd0
    ensures Op(I(0x7d632dd0, 0x5b0d97aa, 0x6cc5e8a), 0x8bf025c4, 0x7d632dd0, 0x0, 21, 0x85845dd1) == 0x3bfa2c27
    ensures Op(I(0x3bfa2c27, 0x7d632dd0, 0x5b0d97aa), 0x6cc5e8a, 0x3bfa2c27, 0x0, 6, 0x6fa87e4f) == 0x7f81cc35
    ensures Op(I(0x7f81cc35, 0x3bfa2c27, 0x7d632dd0), 0x5b0d97aa, 0x7f81cc35, 0x0, 10, 0xfe2ce6e0) == 0x94454ab
    ensures Op(I(0x94454ab, 0x7f81cc35, 0x3bfa2c27), 0x7d632dd0, 0x94454ab, 0x0, 15, 0xa3014314) == 0x4f9dbe3f
    ensures Op(I(0x4f9dbe3f, 0x94454ab, 0x7f81cc35), 0x3bfa2c27, 0x4f9dbe3f, 0x0, 21, 0x4e0811a1) == 0x7327d604
    ensures Op(I(0x7327d604, 0x4f9dbe3f, 0x94454ab), 0x7f81cc35, 0x7327d604, 0x0, 6, 0xf7537e82) == 0x310ade8f
    ensures Op(I(0x310ade8f, 0x7327d604, 0x4f9dbe3f), 0x94454ab, 0x310ade8f, 0x0, 10, 0xbd3af235) == 0x624d8cb2
    ensures Op(I(0x624d8cb2, 0x310ade8f, 0x7327d604), 0x4f9dbe3f, 0x624d8cb2, 0x0, 15, 0x2ad7d2bb) == 0xe484b9d8
    ensures Op(I(0xe484b9d8, 0x624d8cb2, 0x310ade8f), 0x7327d604, 0xe484b9d8, 0x0, 21, 0xeb86d391) == 0xc08226b3
  {
  }

  /** The 64 steps on it. */
  lemma AbcSteps()
    ensures Steps(INIT, ABC, 64) == State(0x310ade8f, 0xc08226b3, 0xe484b9d8, 0x624d8cb2)
  {
    hide *;
    AbcWord();
    NothingDone(INIT, ABC);
    InitIs();
    Round1Constants();
    AbcValues1();
    FourValues(INIT, ABC, 0, State(0x67452301, 0xefcdab89, 0x98badcfe, 0x10325476), State(0xd6d117b4, 0x7ad956f2, 0x2f6fbd72, 0x344a8432));
    FourValues(INIT, ABC, 4, State(0xd6d117b4, 0x7ad956f2, 0x2f6fbd72, 0x344a8432), State(0xc73741ef, 0x928d99f6, 0x207dc67b, 0x8bac3051));
    FourValues(INIT, ABC, 8, State(0xc73741ef, 0x928d99f6, 0x207dc67b, 0x8bac3051), State(0x854b3712, 0x5ed49596, 0x3020401c, 0x74e2f284));
    FourValues(INIT, ABC, 12, State(0x854b3712, 0x5ed49596, 0x3020401c, 0x74e2f284), State(0xdda9b9a6, 0x72aff2e0, 0xe396856b, 0xa1051895));
    Round2Constants();
    AbcValues2();
    FourValues(INIT, ABC, 16, State(0xdda9b9a6, 0x72aff2e0, 0xe396856b, 0xa1051895), State(0x3e9e9126, 0xb5b204e4, 0xe25e1652, 0x4a1d804e));
    FourValues(INIT, ABC, 20, State(0x3e9e9126, 0xb5b204e4, 0xe25e1652, 0x4a1d804e), State(0x59a8ffda, 0x47092c07, 0xabfc7920, 0x6d002f1e));
    FourValues(INIT, ABC, 24, State(0x59a8ffda, 0x47092c07, 0xabfc7920, 0x6d002f1e), State(0xb7f268cf, 0x786acb8f, 0xfe1623b1, 0x9388eff));
    FourValues(INIT, ABC, 28, State(0xb7f268cf, 0x786acb8f, 0xfe1623b1, 0x9388eff), State(0x790a77fb, 0x726342d3, 0xa62884aa, 0x9f47e4f8));
    Round3Constants();
    AbcValues3();
    FourValues(INIT, ABC, 32, State(0x790a77fb, 0x726342d3, 0xa62884aa, 0x9f47e4f8), State(0xb3707ebf, 0x3b0875c7, 0x8d212ff5, 0x60127b2e));
    FourValues(INIT, ABC, 36, State(0xb3707ebf, 0x3b0875c7, 0x8d212ff5, 0x60127b2e), State(0x21b117b9, 0x5a2f5ea5, 0x3575227e, 0x6e7429d5));
    FourValues(INIT, ABC, 40, State(0x21b117b9, 0x5a2f5ea5, 0x3575227e, 0x6e7429d5), State(0x11de1779, 0x4c6124f4, 0x31c465ca, 0xfadcaa38));
    FourValues(INIT, ABC, 44, State(0x11de1779, 0x4c6124f4, 0x31c465ca, 0xfadcaa38), State(0x7f2e507b, 0x7beb9700, 0x8fae6399, 0x99d9679d));
    Round4Constants();
    AbcValues4();
    FourValues(INIT, ABC, 48, State(0x7f2e507b, 0x7beb9700, 0x8fae6399, 0x99d9679d), State(0x7b201df8, 0x8bf025c4, 0xb298cefd, 0xf4e8e96e));
    FourValues(INIT, ABC, 52, State(0x7b201df8, 0x8bf025c4, 0xb298cefd, 0xf4e8e96e), State(0x6cc5e8a, 0x3bfa2c27, 0x7d632dd0, 0x5b0d97aa));
    FourValues(INIT, ABC, 56, State(0x6cc5e8a, 0x3bfa2c27, 0x7d632dd0, 0x5b0d97aa), State(0x7f81cc35, 0x7327d604, 0x4f9dbe3f, 0x94454ab));
    FourValues(INIT, ABC, 60, State(0x7f81cc35, 0x7327d604, 0x4f9dbe3f, 0x94454ab), State(0x310ade8f, 0xc08226b3, 0xe484b9d8, 0x624d8cb2));
  }

  lemma AbcSums()
    ensures AddStates(State(0x67452301, 0xefcdab89, 0x98badcfe, 0x10325476), State(0x310ade8f, 0xc08226b3, 0xe484b9d8, 0x624d8cb2)) == State(0x98500190, 0xb04fd23c, 0x7d3f96d6, 0x727fe128)
  {
  }

  lemma AbcWordBytes()
    ensures ToLE(0x0 as word as nat, 4) == [0, 0, 0, 0]
    ensures ToLE(0x18 as word as nat, 4) == [24, 0, 0, 0]
    ensures ToLE(0x80636261 as word as nat, 4) == [97, 98, 99, 128]
  {
  }

  lemma AbcBytes()
    ensures ToLE(0x98500190 as word as nat, 4) == [0x90, 0x01, 0x50, 0x98]
    ensures ToLE(0xb04fd23c as word as nat, 4) == [0x3c, 0xd2, 0x4f, 0xb0]
    ensures ToLE(0x7d3f96d6 as word as nat, 4) == [0xd6, 0x96, 0x3f, 0x7d]
    ensures ToLE(0x727fe128 as word as nat, 4) == [0x28, 0xe1, 0x7f, 0x72]
  {
  }

  lemma AbcPadded(i: nat)
    requires i < 64
    ensures |Padded([97, 98, 99])| == 64
    ensures Padded([97, 98, 99])[i] == if i == 0 then 97 else if i == 1 then 98 else if i == 2 then 99 else if i == 3 then 128 else if i == 56 then 24 else 0
  {
    assert PadLength(3) == 53;
    AbcCount();
    hide ToLE, Padded;
    PaddedLength([97, 98, 99]);
    PaddedAt([97, 98, 99], i);
  }

  lemma AbcCount()
    ensures ToLE(24 % TWO64, 8) == [24, 0, 0, 0, 0, 0, 0, 0]
  {
    assert 24 % TWO64 == 24;
  }

  lemma AbcBlock()
    ensures |Padded([97, 98, 99])| == 64 && Words(Padded([97, 98, 99])) == ABC
  {
    hide *;
    AbcWord();
    AbcWordBytes();
    AbcPadded(0);
    forall j | 0 <= j < 16 ensures Padded([97, 98, 99])[4 * j..4 * j + 4] == ToLE(ABC[j] as nat, 4) {
      AbcPadded(4 * j);
      AbcPadded(4 * j + 1);
      AbcPadded(4 * j + 2);
      AbcPadded(4 * j + 3);
      FourBytes(Padded([97, 98, 99]), 4 * j, ToLE(ABC[j] as nat, 4));
    }
    WordsAre(Padded([97, 98, 99]), ABC);
  }

  /** MD5 ("abc") = 900150983cd24fb0d6963f7d28e17f72 */
  lemma AbcDigest()
    ensures Digest([97, 98, 99]) == [0x90, 0x01, 0x50, 0x98, 0x3c, 0xd2, 0x4f, 0xb0, 0xd6, 0x96, 0x3f, 0x7d, 0x28, 0xe1, 0x7f, 0x72]
  {
    hide *;
    AbcBlock();
    AbcSteps();
    AbcSums();
    AbcBytes();
    InitIs();
    OneBlock(Padded([97, 98, 99]));
    CompressIs(INIT, Padded([97, 98, 99]), ABC, State(0x310ade8f, 0xc08226b3, 0xe484b9d8, 0x624d8cb2), State(0x98500190, 0xb04fd23c, 0x7d3f96d6, 0x727fe128));
    EncodeIs(State(0x98500190, 0xb04fd23c, 0x7d3f96d6, 0x727fe128), [0x90, 0x01, 0x50, 0x98], [0x3c, 0xd2, 0x4f, 0xb0], [0xd6, 0x96, 0x3f, 0x7d], [0x28, 0xe1, 0x7f, 0x72]);
    DigestIs([97, 98, 99]);
  }

  // ---------------------------------------------------------------- the ten digits, eight times

  /** "1234567890" eight times. */
  const DIGITS: Str := seq(80, i requires 0 <= i < 80 => 48 + (i + 1) % 10)

  const FIRST: seq<word> := [0x34333231, 0x38373635, 0x32313039, 0x36353433, 0x30393837, 0x34333231, 0x38373635, 0x32313039, 0x36353433, 0x30393837, 0x34333231, 0x38373635, 0x32313039, 0x36353433, 0x30393837, 0x34333231]

  lemma FirstWord()
    ensures |FIRST| == 16
    ensures FIRST[0] == 0x34333231 && FIRST[1] == 0x38373635 && FIRST[2] == 0x32313039 && FIRST[3] == 0x36353433
    ensures FIRST[4] == 0x30393837 && FIRST[5] == 0x34333231 && FIRST[6] == 0x38373635 && FIRST[7] == 0x32313039
    ensures FIRST[8] == 0x36353433 && FIRST[9] == 0x30393837 && FIRST[10] == 0x34333231 && FIRST[11] == 0x38373635
    ensures FIRST[12] == 0x32313039 && FIRST[13] == 0x36353433 && FIRST[14] == 0x30393837 && FIRST[15] == 0x34333231
    ensures forall j :: 0 <= j < 16 ==> FIRST[j] == if j % 5 == 0 then 0x34333231 else if j % 5 == 1 then 0x38373635 else if j % 5 == 2 then 0x32313039 else if j % 5 == 3 then 0x36353433 else 0x30393837
  {
  }

  lemma FirstValues1()
    ensures Op(F(0xefcdab89, 0x98badcfe, 0x10325476), 0x67452301, 0xefcdab89, 0x34333231, 7, 0xd76aa478) == 0xbeb8ff8e
    ensures Op(F(0xbeb8ff8e, 0xefcdab89, 0x98badcfe), 0x10325476, 0xbeb8ff8e, 0x38373635, 12, 0xe8c7b756) == 0x7d989d89
    ensures Op(F(0x7d989d89, 0xbeb8ff8e, 0xefcdab89), 0x98badcfe, 0x7d989d89, 0x32313039, 17, 0x242070db) == 0xf8cdf95d
    ensures Op(F(0xf8cdf95d, 0x7d989d89, 0xbeb8ff8e), 0xefcdab89, 0xf8cdf95d, 0x36353433, 22, 0xc1bdceee) == 0x862797b0
    ensures Op(F(0x862797b0, 0xf8cdf95d, 0x7d989d89), 0xbeb8ff8e, 0x862797b0, 0x30393837, 7, 0xf57c0faf) == 0x8c17de9f
    ensures Op(F(0x8c17de9f, 0x862797b0, 0xf8cdf95d), 0x7d989d89, 0x8c17de9f, 0x34333231, 12, 0x4787c62a) == 0xc0f32d81
    ensures Op(F(0xc0f32d81, 0x8c17de9f, 0x862797b0), 0xf8cdf95d, 0xc0f32d81, 0x38373635, 17, 0xa8304613) == 0xe99fec1b
    ensures Op(F(0xe99fec1b, 0xc0f32d81, 0x8c17de9f), 0x862797b0, 0xe99fec1b, 0x32313039, 22, 0xfd469501) == 0xc57e78c1
    ensures Op(F(0xc57e78c1, 0xe99fec1b, 0xc0f32d81), 0x8c17de9f, 0xc57e78c1, 0x36353433, 7, 0x698098d8) == 0x7c0aceb7
    ensures Op(F(0x7c0aceb7, 0xc57e78c1, 0xe99fec1b), 0xc0f32d81, 0x7c0aceb7, 0x30393837, 12, 0x8b44f7af) == 0x8869d2d8
    ensures Op(F(0x8869d2d8, 0x7c0aceb7, 0xc57e78c1), 0xe99fec1b, 0x8869d2d8, 0x34333231, 17, 0xffff5bb1) == 0x5186a8ba
    ensures Op(F(0x5186a8ba, 0x8869d2d8, 0x7c0aceb7), 0xc57e78c1, 0x5186a8ba, 0x38373635, 22, 0x895cd7be) == 0xa5f36f8d
    ensures Op(F(0xa5f36f8d, 0x5186a8ba, 0x8869d2d8), 0x7c0aceb7, 0xa5f36f8d, 0x32313039, 7, 0x6b901122) == 0x5157e49e
    ensures Op(F(0x5157e49e, 0xa5f36f8d, 0x5186a8ba), 0x8869d2d8, 0x5157e49e, 0x36353433, 12, 0xfd987193) == 0xffac907e
    ensures Op(F(0xffac907e, 0x5157e49e, 0xa5f36f8d), 0x5186a8ba, 0xffac907e, 0x30393837, 17, 0xa679438e) == 0x27e983a0
    ensures Op(F(0x27e983a0, 0xffac907e, 0x5157e49e), 0xa5f36f8d, 0x27e983a0, 0x34333231, 22, 0x49b40821) == 0xaf506a03
  {
  }

  lemma FirstValues2()
    ensures Op(G(0xaf506a03, 0x27e983a0, 0xffac907e), 0x5157e49e, 0xaf506a03, 0x38373635, 5, 0xf61e2562) == 0x8d18e0e8
    ensures Op(G(0x8d18e0e8, 0xaf506a03, 0x27e983a0), 0xffac907e, 0x8d18e0e8, 0x38373635, 9, 0xc040b340) == 0x7de0df2
    ensures Op(G(0x7de0df2, 0x8d18e0e8, 0xaf506a03), 0x27e983a0, 0x7de0df2, 0x38373635, 14, 0x265e5a51) == 0xef223167
    ensures Op(G(0xef223167, 0x7de0df2, 0x8d18e0e8), 0xaf506a03, 0xef223167, 0x34333231, 20, 0xe9b6c7aa) == 0x4280170
    ensures Op(G(0x4280170, 0xef223167, 0x7de0df2), 0x8d18e0e8, 0x4280170, 0x34333231, 5, 0xd62f105d) == 0x78929ee0
    ensures Op(G(0x78929ee0, 0x4280170, 0xef223167), 0x7de0df2, 0x78929ee0, 0x34333231, 9, 0x2441453) == 0x375c6c2c
    ensures Op(G(0x375c6c2c, 0x78929ee0, 0x4280170), 0xef223167, 0x375c6c2c, 0x34333231, 14, 0xd8a1e681) == 0xb18aca50
    ensures Op(G(0xb18aca50, 0x375c6c2c, 0x78929ee0), 0x4280170, 0xb18aca50, 0x30393837, 20, 0xe7d3fbc8) == 0xad400a91
    ensures Op(G(0xad400a91, 0xb18aca50, 0x375c6c2c), 0x78929ee0, 0xad400a91, 0x30393837, 5, 0x21e1cde6) == 0xbb45f43f
    ensures Op(G(0xbb45f43f, 0xad400a91, 0xb18aca50), 0x375c6c2c, 0xbb45f43f, 0x30393837, 9, 0xc33707d6) == 0xd61f8a0f
    ensures Op(G(0xd61f8a0f, 0xbb45f43f, 0xad400a91), 0xb18aca50, 0xd61f8a0f, 0x36353433, 14, 0xf4d50d87) == 0x98ade6b5
    ensures Op(G(0x98ade6b5, 0xd61f8a0f, 0xbb45f43f), 0xad400a91, 0x98ade6b5, 0x36353433, 20, 0x455a14ed) == 0xb70e35a9
    ensures Op(G(0xb70e35a9, 0x98ade6b5, 0xd61f8a0f), 0xbb45f43f, 0xb70e35a9, 0x36353433, 5, 0xa9e3e905) == 0xf8bcfbb0
    ensures Op(G(0xf8bcfbb0, 0xb70e35a9, 0x98ade6b5), 0xd61f8a0f, 0xf8bcfbb0, 0x32313039, 9, 0xfcefa3f8) == 0xd760ed39
    ensures Op(G(0xd760ed39, 0xf8bcfbb0, 0xb70e35a9), 0x98ade6b5, 0xd760ed39, 0x32313039, 14, 0x676f02d9) == 0x99a0f1b8
    ensures Op(G(0x99a0f1b8, 0xd760ed39, 0xf8bcfbb0), 0xb70e35a9, 0x99a0f1b8, 0x32313039, 20, 0x8d2a4c8a) == 0x1bf25662
  {
  }

  lemma FirstValues3()
    ensures Op(H(0x1bf25662, 0x99a0f1b8, 0xd760ed39), 0xf8bcfbb0, 0x1bf25662, 0x34333231, 4, 0xfffa3942) == 0x3dbd76ca
    ensures Op(H(0x3dbd76ca, 0x1bf25662, 0x99a0f1b8), 0xd760ed39, 0x3dbd76ca, 0x36353433, 11, 0x8771f681) == 0xfd056171
    ensures Op(H(0xfd056171, 0x3dbd76ca, 0x1bf25662), 0x99a0f1b8, 0xfd056171, 0x38373635, 16, 0x6d9d6122) == 0xc7ed7c30
    ensures Op(H(0xc7ed7c30, 0xfd056171, 0x3dbd76ca), 0x1bf25662, 0xc7ed7c30, 0x30393837, 23, 0xfde5380c) == 0xe0162f49
    ensures Op(H(0xe0162f49, 0xc7ed7c30, 0xfd056171), 0x3dbd76ca, 0xe0162f49, 0x38373635, 4, 0xa4beea44) == 0x3b32c408
    ensures Op(H(0x3b32c408, 0xe0162f49, 0xc7ed7c30), 0xfd056171, 0x3b32c408, 0x30393837, 11, 0x4bdecfa9) == 0x7338d8b7
    ensures Op(H(0x7338d8b7, 0x3b32c408, 0xe0162f49), 0xc7ed7c30, 0x7338d8b7, 0x32313039, 16, 0xf6bb4b60) == 0x9ef871ad
    ensures Op(H(0x9ef871ad, 0x7338d8b7, 0x3b32c408), 0xe0162f49, 0x9ef871ad, 0x34333231, 23, 0xbebfbc70) == 0x1d4d6f72
    ensures Op(H(0x1d4d6f72, 0x9ef871ad, 0x7338d8b7), 0x3b32c408, 0x1d4d6f72, 0x36353433, 4, 0x289b7ec6) == 0xc661460a
    ensures Op(H(0xc661460a, 0x1d4d6f72, 0x9ef871ad), 0x7338d8b7, 0xc661460a, 0x34333231, 11, 0xeaa127fa) == 0xd2bf04c9
    ensures Op(H(0xd2bf04c9, 0xc661460a, 0x1d4d6f72), 0x9ef871ad, 0xd2bf04c9, 0x36353433, 16, 0xd4ef3085) == 0xd6d5b879
    ensures Op(H(0xd6d5b879, 0xd2bf04c9, 0xc661460a), 0x1d4d6f72, 0xd6d5b879, 0x38373635, 23, 0x4881d05) == 0x89e3c4d7
    ensures Op(H(0x89e3c4d7, 0xd6d5b879, 0xd2bf04c9), 0xc661460a, 0x89e3c4d7, 0x30393837, 4, 0xd9d4d039) == 0x697032ec
    ensures Op(H(0x697032ec, 0x89e3c4d7, 0xd6d5b879), 0xd2bf04c9, 0x697032ec, 0x32313039, 11, 0xe6db99e5) == 0xfa597bfc
    ensures Op(H(0xfa597bfc, 0x697032ec, 0x89e3c4d7), 0xd6d5b879, 0xfa597bfc, 0x34333231, 16, 0x1fa27cf8) == 0xefc2c171
    ensures Op(H(0xefc2c171, 0xfa597bfc, 0x697032ec), 0x89e3c4d7, 0xefc2c171, 0x32313039, 23, 0xc4ac5665) == 0xdb4197da
  {
  }

  lemma FirstValues4()
    ensures Op(I(0xdb4197da, 0xefc2c171, 0xfa597bfc), 0x697032ec, 0xdb4197da, 0x34333231, 6, 0xf4292244) == 0x57b91aca
    ensures Op(I(0x57b91aca, 0xdb4197da, 0xefc2c171), 0xfa597bfc, 0x57b91aca, 0x32313039, 10, 0x432aff97) == 0x210c9ebc
    ensures Op(I(0x210c9ebc, 0x57b91aca, 0xdb4197da), 0xefc2c171, 0x210c9ebc, 0x30393837, 15, 0xab9423a7) == 0x21efbd88
    ensures Op(I(0x21efbd88, 0x210c9ebc, 0x57b91aca), 0xdb4197da, 0x21efbd88, 0x34333231, 21, 0xfc93a039) == 0xcaa25b01
    ensures Op(I(0xcaa25b01, 0x21efbd88, 0x210c9ebc), 0x57b91aca, 0xcaa25b01, 0x32313039, 6, 0x655b59c3) == 0x633d3f7c
    ensures Op(I(0x633d3f7c, 0xcaa25b01, 0x21efbd88), 0x210c9ebc, 0x633d3f7c, 0x36353433, 10, 0x8f0ccc92) == 0x1a4d3beb
    ensures Op(I(0x1a4d3beb, 0x633d3f7c, 0xcaa25b01), 0x21efbd88, 0x1a4d3beb, 0x34333231, 15, 0xffeff47d) == 0xccaa1524
    ensures Op(I(0xccaa1524, 0x1a4d3beb, 0x633d3f7c), 0xcaa25b01, 0xccaa1524, 0x38373635, 21, 0x85845dd1) == 0x7713f5df
    ensures Op(I(0x7713f5df, 0xccaa1524, 0x1a4d3beb), 0x633d3f7c, 0x7713f5df, 0x36353433, 6, 0x6fa87e4f) == 0x8448b430
    ensures Op(I(0x8448b430, 0x7713f5df, 0xccaa1524), 0x1a4d3beb, 0x8448b430, 0x34333231, 10, 0xfe2ce6e0) == 0x71c93463
    ensures Op(I(0x71c93463, 0x8448b430, 0x7713f5df), 0xccaa1524, 0x71c93463, 0x38373635, 15, 0xa3014314) == 0x7e294727
    ensures Op(I(0x7e294727, 0x71c93463, 0x8448b430), 0x7713f5df, 0x7e294727, 0x36353433, 21, 0x4e0811a1) == 0x660a801d
    ensures Op(I(0x660a801d, 0x7e294727, 0x71c93463), 0x8448b430, 0x660a801d, 0x30393837, 6, 0xf7537e82) == 0x614868eb
    ensures Op(I(0x614868eb, 0x660a801d, 0x7e294727), 0x71c93463, 0x614868eb, 0x38373635, 10, 0xbd3af235) == 0xa09f38a7
    ensures Op(I(0xa09f38a7, 0x614868eb, 0x660a801d), 0x7e294727, 0xa09f38a7, 0x32313039, 15, 0x2ad7d2bb) == 0x5133129b
    ensures Op(I(0x5133129b, 0xa09f38a7, 0x614868eb), 0x660a801d, 0x5133129b, 0x30393837, 21, 0xeb86d391) == 0xb4d33102
  {
  }

  /** The 64 steps on the first block. */
  lemma FirstSteps()
    ensures Steps(INIT, FIRST, 64) == State(0x614868eb, 0xb4d33102, 0x5133129b, 0xa09f38a7)
  {
    hide *;
    FirstWord();
    NothingDone(INIT, FIRST);
    InitIs();
    Round1Constants();
    FirstValues1();
    FourValues(INIT, FIRST, 0, State(0x67452301, 0xefcdab89, 0x98badcfe, 0x10325476), State(0xbeb8ff8e, 0x862797b0, 0xf8cdf95d, 0x7d989d89));
    FourValues(INIT, FIRST, 4, State(0xbeb8ff8e, 0x862797b0, 0xf8cdf95d, 0x7d989d89), State(0x8c17de9f, 0xc57e78c1, 0xe99fec1b, 0xc0f32d81));
    FourValues(INIT, FIRST, 8, State(0x8c17de9f, 0xc57e78c1, 0xe99fec1b, 0xc0f32d81), State(0x7c0aceb7, 0xa5f36f8d, 0x5186a8ba, 0x8869d2d8));
    FourValues(INIT, FIRST, 12, State(0x7c0aceb7, 0xa5f36f8d, 0x5186a8ba, 0x8869d2d8), State(0x5157e49e, 0xaf506a03, 0x27e983a0, 0xffac907e));
    Round2Constants();
    FirstValues2();
    FourValues(INIT, FIRST, 16, State(0x5157e49e, 0xaf506a03, 0x27e983a0, 0xffac907e), State(0x8d18e0e8, 0x4280170, 0xef223167, 0x7de0df2));
    FourValues(INIT, FIRST, 20, State(0x8d18e0e8, 0x4280170, 0xef223167, 0x7de0df2), State(0x78929ee0, 0xad400a91, 0xb18aca50, 0x375c6c2c));
    FourValues(INIT, FIRST, 24, State(0x78929ee0, 0xad400a91, 0xb18aca50, 0x375c6c2c), State(0xbb45f43f, 0xb70e35a9, 0x98ade6b5, 0xd61f8a0f));
    FourValues(INIT, FIRST, 28, State(0xbb45f43f, 0xb70e35a9, 0x98ade6b5, 0xd61f8a0f), State(0xf8bcfbb0, 0x1bf25662, 0x99a0f1b8, 0xd760ed39));
    Round3Constants();
    FirstValues3();
    FourValues(INIT, FIRST, 32, State(0xf8bcfbb0, 0x1bf25662, 0x99a0f1b8, 0xd760ed39), State(0x3dbd76ca, 0xe0162f49, 0xc7ed7c30, 0xfd056171));
    FourValues(INIT, FIRST, 36, State(0x3dbd76ca, 0xe0162f49, 0xc7ed7c30, 0xfd056171), State(0x3b32c408, 0x1d4d6f72, 0x9ef871ad, 0x7338d8b7));
    FourValues(INIT, FIRST, 40, State(0x3b32c408, 0x1d4d6f72, 0x9ef871ad, 0x7338d8b7), State(0xc661460a, 0x89e3c4d7, 0xd6d5b879, 0xd2bf04c9));
    FourValues(INIT, FIRST, 44, State(0xc661460a, 0x89e3c4d7, 0xd6d5b879, 0xd2bf04c9), State(0x697032ec, 0xdb4197da, 0xefc2c171, 0xfa597bfc));
    Round4Constants();
    FirstValues4();
    FourValues(INIT, FIRST, 48, State(0x697032ec, 0xdb4197da, 0xefc2c171, 0xfa597bfc), State(0x57b91aca, 0xcaa25b01, 0x21efbd88, 0x210c9ebc));
    FourValues(INIT, FIRST, 52, State(0x57b91aca, 0xcaa25b01, 0x21efbd88, 0x210c9ebc), State(0x633d3f7c, 0x7713f5df, 0xccaa1524, 0x1a4d3beb));
    FourValues(INIT, FIRST, 56, State(0x633d3f7c, 0x7713f5df, 0xccaa1524, 0x1a4d3beb), State(0x8448b430, 0x660a801d, 0x7e294727, 0x71c93463));
    FourValues(INIT, FIRST, 60, State(0x8448b430, 0x660a801d, 0x7e294727, 0x71c93463), State(0x614868eb, 0xb4d33102, 0x5133129b, 0xa09f38a7));
  }

  lemma FirstSums()
    ensures AddStates(State(0x67452301, 0xefcdab89, 0x98badcfe, 0x10325476), State(0x614868eb, 0xb4d33102, 0x5133129b, 0xa09f38a7)) == State(0xc88d8bec, 0xa4a0dc8b, 0xe9edef99, 0xb0d18d1d)
  {
  }

  lemma FirstWordBytes()
    ensures ToLE(0x30393837 as word as nat, 4) == [55, 56, 57, 48]
    ensures ToLE(0x32313039 as word as nat, 4) == [57, 48, 49, 50]
    ensures ToLE(0x34333231 as word as nat, 4) == [49, 50, 51, 52]
    ensures ToLE(0x36353433 as word as nat, 4) == [51, 52, 53, 54]
    ensures ToLE(0x38373635 as word as nat, 4) == [53, 54, 55, 56]
  {
  }

  const SECOND: seq<word> := [0x38373635, 0x32313039, 0x36353433, 0x30393837, 0x80, 0x0, 0x0, 0x0, 0x0, 0x0, 0x0, 0x0, 0x0, 0x0, 0x280, 0x0]

  lemma SecondWord()
    ensures |SECOND| == 16
    ensures SECOND[0] == 0x38373635 && SECOND[1] == 0x32313039 && SECOND[2] == 0x36353433 && SECOND[3] == 0x30393837
    ensures SECOND[4] == 0x80 && SECOND[5] == 0x0 && SECOND[6] == 0x0 && SECOND[7] == 0x0
    ensures SECOND[8] == 0x0 && SECOND[9] == 0x0 && SECOND[10] == 0x0 && SECOND[11] == 0x0
    ensures SECOND[12] == 0x0 && SECOND[13] == 0x0 && SECOND[14] == 0x280 && SECOND[15] == 0x0
  {
  }

  lemma SecondValues1()
    ensures Op(F(0xa4a0dc8b, 0xe9edef99, 0xb0d18d1d), 0xc88d8bec, 0xa4a0dc8b, 0x38373635, 7, 0xd76aa478) == 0x353af7cf
    ensures Op(F(0x353af7cf, 0xa4a0dc8b, 0xe9edef99), 0xb0d18d1d, 0x353af7cf, 0x32313039, 12, 0xe8c7b756) == 0x3a4f735a
    ensures Op(F(0x3a4f735a, 0x353af7cf, 0xa4a0dc8b), 0xe9edef99, 0x3a4f735a, 0x36353433, 17, 0x242070db) == 0x63356537
    ensures Op(F(0x63356537, 0x3a4f735a, 0x353af7cf), 0xa4a0dc8b, 0x63356537, 0x30393837, 22, 0xc1bdceee) == 0x45e88f2c
    ensures Op(F(0x45e88f2c, 0x63356537, 0x3a4f735a), 0x353af7cf, 0x45e88f2c, 0x80, 7, 0xf57c0faf) == 0x3527497e
    ensures Op(F(0x3527497e, 0x45e88f2c, 0x63356537), 0x3a4f735a, 0x3527497e, 0x0, 12, 0x4787c62a) == 0xab92660e
    ensures Op(F(0xab92660e, 0x3527497e, 0x45e88f2c), 0x63356537, 0xab92660e, 0x0, 17, 0xa8304613) == 0x948347ae
    ensures Op(F(0x948347ae, 0xab92660e, 0x3527497e), 0x45e88f2c, 0x948347ae, 0x0, 22, 0xfd469501) == 0x377c7d0a
    ensures Op(F(0x377c7d0a, 0x948347ae, 0xab92660e), 0x3527497e, 0x377c7d0a, 0x0, 7, 0x698098d8) == 0xcc912f27
    ensures Op(F(0xcc912f27, 0x377c7d0a, 0x948347ae), 0xab92660e, 0xcc912f27, 0x0, 12, 0x8b44f7af) == 0x6945a3d5
    ensures Op(F(0x6945a3d5, 0xcc912f27, 0x377c7d0a), 0x948347ae, 0x6945a3d5, 0x0, 17, 0xffff5bb1) == 0xae23894d
    ensures Op(F(0xae23894d, 0x6945a3d5, 0xcc912f27), 0x377c7d0a, 0xae23894d, 0x0, 22, 0x895cd7be) == 0xb9ede40c
    ensures Op(F(0xb9ede40c, 0xae23894d, 0x6945a3d5), 0xcc912f27, 0xb9ede40c, 0x0, 7, 0x6b901122) == 0xdb4ff71c
    ensures Op(F(0xdb4ff71c, 0xb9ede40c, 0xae23894d), 0x6945a3d5, 0xdb4ff71c, 0x0, 12, 0xfd987193) == 0x9b6b4960
    ensures Op(F(0x9b6b4960, 0xdb4ff71c, 0xb9ede40c), 0xae23894d, 0x9b6b4960, 0x280, 17, 0xa679438e) == 0x4396a39
    ensures Op(F(0x4396a39, 0x9b6b4960, 0xdb4ff71c), 0xb9ede40c, 0x4396a39, 0x0, 22, 0x49b40821) == 0x58b12eab
  {
  }

  lemma SecondValues2()
    ensures Op(G(0x58b12eab, 0x4396a39, 0x9b6b4960), 0xdb4ff71c, 0x58b12eab, 0x32313039, 5, 0xf61e2562) == 0x52c00cae
    ensures Op(G(0x52c00cae, 0x58b12eab, 0x4396a39), 0x9b6b4960, 0x52c00cae, 0x0, 9, 0xc040b340) == 0xaad2a216
    ensures Op(G(0xaad2a216, 0x52c00cae, 0x58b12eab), 0x4396a39, 0xaad2a216, 0x0, 14, 0x265e5a51) == 0xa476af6f
    ensures Op(G(0xa476af6f, 0xaad2a216, 0x52c00cae), 0x58b12eab, 0xa476af6f, 0x38373635, 20, 0xe9b6c7aa) == 0x50f8de8c
    ensures Op(G(0x50f8de8c, 0xa476af6f, 0xaad2a216), 0x52c00cae, 0x50f8de8c, 0x0, 5, 0xd62f105d) == 0xd6e6d91
    ensures Op(G(0xd6e6d91, 0x50f8de8c, 0xa476af6f), 0xaad2a216, 0xd6e6d91, 0x0, 9, 0x2441453) == 0x17d64195
    ensures Op(G(0x17d64195, 0xd6e6d91, 0x50f8de8c), 0xa476af6f, 0x17d64195, 0x0, 14, 0xd8a1e681) == 0xd5b7a850
    ensures Op(G(0xd5b7a850, 0x17d64195, 0xd6e6d91), 0x50f8de8c, 0xd5b7a850, 0x80, 20, 0xe7d3fbc8) == 0x43cb080
    ensures Op(G(0x43cb080, 0xd5b7a850, 0x17d64195), 0xd6e6d91, 0x43cb080, 0x0, 5, 0x21e1cde6) == 0x74f9377e
    ensures Op(G(0x74f9377e, 0x43cb080, 0xd5b7a850), 0x17d64195, 0x74f9377e, 0x280, 9, 0xc33707d6) == 0x1f2addd
    ensures Op(G(0x1f2addd, 0x74f9377e, 0x43cb080), 0xd5b7a850, 0x1f2addd, 0x30393837, 14, 0xf4d50d87) == 0xe775c8ca
    ensures Op(G(0xe775c8ca, 0x1f2addd, 0x74f9377e), 0x43cb080, 0xe775c8ca, 0x0, 20, 0x455a14ed) == 0xcb00b96e
    ensures Op(G(0xcb00b96e, 0xe775c8ca, 0x1f2addd), 0x74f9377e, 0xcb00b96e, 0x0, 5, 0xa9e3e905) == 0x8761f38e
    ensures Op(G(0x8761f38e, 0xcb00b96e, 0xe775c8ca), 0x1f2addd, 0x8761f38e, 0x36353433, 9, 0xfcefa3f8) == 0x7a516116
    ensures Op(G(0x7a516116, 0x8761f38e, 0xcb00b96e), 0xe775c8ca, 0x7a516116, 0x0, 14, 0x676f02d9) == 0x61bc867
    ensures Op(G(0x61bc867, 0x7a516116, 0x8761f38e), 0xcb00b96e, 0x61bc867, 0x0, 20, 0x8d2a4c8a) == 0x67092c33
  {
  }

  lemma SecondValues3()
    ensures Op(H(0x67092c33, 0x61bc867, 0x7a516116), 0x8761f38e, 0x67092c33, 0x0, 4, 0xfffa3942) == 0x91044d5d
    ensures Op(H(0x91044d5d, 0x67092c33, 0x61bc867), 0x7a516116, 0x91044d5d, 0x0, 11, 0x8771f681) == 0x610954eb
    ensures Op(H(0x610954eb, 0x91044d5d, 0x67092c33), 0x61bc867, 0x610954eb, 0x0, 16, 0x6d9d6122) == 0xc0175fa8
    ensures Op(H(0xc0175fa8, 0x610954eb, 0x91044d5d), 0x67092c33, 0xc0175fa8, 0x280, 23, 0xfde5380c) == 0x2ee1e3fe
    ensures Op(H(0x2ee1e3fe, 0xc0175fa8, 0x610954eb), 0x91044d5d, 0x2ee1e3fe, 0x32313039, 4, 0xa4beea44) == 0xae26ed7d
    ensures Op(H(0xae26ed7d, 0x2ee1e3fe, 0xc0175fa8), 0x610954eb, 0xae26ed7d, 0x80, 11, 0x4bdecfa9) == 0x71d8ecea
    ensures Op(H(0x71d8ecea, 0xae26ed7d, 0x2ee1e3fe), 0xc0175fa8, 0x71d8ecea, 0x0, 16, 0xf6bb4b60) == 0xff4a94dc
    ensures Op(H(0xff4a94dc, 0x71d8ecea, 0xae26ed7d), 0x2ee1e3fe, 0xff4a94dc, 0x0, 23, 0xbebfbc70) == 0xdbd1bff6
    ensures Op(H(0xdbd1bff6, 0xff4a94dc, 0x71d8ecea), 0xae26ed7d, 0xdbd1bff6, 0x0, 4, 0x289b7ec6) == 0x9c350028
    ensures Op(H(0x9c350028, 0xdbd1bff6, 0xff4a94dc), 0x71d8ecea, 0x9c350028, 0x38373635, 11, 0xeaa127fa) == 0x97e5da92
    ensures Op(H(0x97e5da92, 0x9c350028, 0xdbd1bff6), 0xff4a94dc, 0x97e5da92, 0x30393837, 16, 0xd4ef3085) == 0xfacaaf06
    ensures Op(H(0xfacaaf06, 0x97e5da92, 0x9c350028), 0xdbd1bff6, 0xfacaaf06, 0x0, 23, 0x4881d05) == 0x56b3692f
    ensures Op(H(0x56b3692f, 0xfacaaf06, 0x97e5da92), 0x9c350028, 0x56b3692f, 0x0, 4, 0xd9d4d039) == 0x71123afa
    ensures Op(H(0x71123afa, 0x56b3692f, 0xfacaaf06), 0x97e5da92, 0x71123afa, 0x0, 11, 0xe6db99e5) == 0xdc9c8ddb
    ensures Op(H(0xdc9c8ddb, 0x71123afa, 0x56b3692f), 0xfacaaf06, 0xdc9c8ddb, 0x0, 16, 0x1fa27cf8) == 0xe6a8a386
    ensures Op(H(0xe6a8a386, 0xdc9c8ddb, 0x71123afa), 0x56b3692f, 0xe6a8a386, 0x36353433, 23, 0xc4ac5665) == 0x1df7010a
  {
  }

  lemma SecondValues4()
    ensures Op(I(0x1df7010a, 0xe6a8a386, 0xdc9c8ddb), 0x71123afa, 0x1df7010a, 0x38373635, 6, 0xf4292244) == 0xd29007e7
    ensures Op(I(0xd29007e7, 0x1df7010a, 0xe6a8a386), 0xdc9c8ddb, 0xd29007e7, 0x0, 10, 0x432aff97) == 0x7241a77e
    ensures Op(I(0x7241a77e, 0xd29007e7, 0x1df7010a), 0xe6a8a386, 0x7241a77e, 0x280, 15, 0xab9423a7) == 0xd3248109
    ensures Op(I(0xd3248109, 0x7241a77e, 0xd29007e7), 0x1df7010a, 0xd3248109, 0x0, 21, 0xfc93a039) == 0xc8797828
    ensures Op(I(0xc8797828, 0xd3248109, 0x7241a77e), 0xd29007e7, 0xc8797828, 0x0, 6, 0x655b59c3) == 0x7a504abd
    ensures Op(I(0x7a504abd, 0xc8797828, 0xd3248109), 0x7241a77e, 0x7a504abd, 0x30393837, 10, 0x8f0ccc92) == 0x211cc65d
    ensures Op(I(0x211cc65d, 0x7a504abd, 0xc8797828), 0xd3248109, 0x211cc65d, 0x0, 15, 0xffeff47d) == 0xa290d6ce
    ensures Op(I(0xa290d6ce, 0x211cc65d, 0x7a504abd), 0xc8797828, 0xa290d6ce, 0x32313039, 21, 0x85845dd1) == 0x9b31b114
    ensures Op(I(0x9b31b114, 0xa290d6ce, 0x211cc65d), 0x7a504abd, 0x9b31b114, 0x0, 6, 0x6fa87e4f) == 0x723fd22d
    ensures Op(I(0x723fd22d, 0x9b31b114, 0xa290d6ce), 0x211cc65d, 0x723fd22d, 0x0, 10, 0xfe2ce6e0) == 0xd21d6a3b
    ensures Op(I(0xd21d6a3b, 0x723fd22d, 0x9b31b114), 0xa290d6ce, 0xd21d6a3b, 0x0, 15, 0xa3014314) == 0x3d79cf74
    ensures Op(I(0x3d79cf74, 0xd21d6a3b, 0x723fd22d), 0x9b31b114, 0x3d79cf74, 0x0, 21, 0x4e0811a1) == 0x4dc4f33d
    ensures Op(I(0x4dc4f33d, 0x3d79cf74, 0xd21d6a3b), 0x723fd22d, 0x4dc4f33d, 0x80, 6, 0xf7537e82) == 0xda67616b
    ensures Op(I(0xda67616b, 0x4dc4f33d, 0x3d79cf74), 0xd21d6a3b, 0xda67616b, 0x0, 10, 0xbd3af235) == 0xc9e47a04
    ensures Op(I(0xc9e47a04, 0xda67616b, 0x4dc4f33d), 0x3d79cf74, 0xc9e47a04, 0x36353433, 15, 0x2ad7d2bb) == 0x44ec5a13
    ensures Op(I(0x44ec5a13, 0xc9e47a04, 0xda67616b), 0x4dc4f33d, 0x44ec5a13, 0x0, 21, 0xeb86d391) == 0xb12906a0
  {
  }

  /** The 64 steps on the second block, from the state after the first. */
  lemma SecondSteps(s0: State)
    requires s0 == State(0xc88d8bec, 0xa4a0dc8b, 0xe9edef99, 0xb0d18d1d)
    ensures Steps(s0, SECOND, 64) == State(0xda67616b, 0xb12906a0, 0x44ec5a13, 0xc9e47a04)
  {
    hide *;
    SecondWord();
    NothingDone(s0, SECOND);
    Round1Constants();
    SecondValues1();
    FourValues(s0, SECOND, 0, State(0xc88d8bec, 0xa4a0dc8b, 0xe9edef99, 0xb0d18d1d), State(0x353af7cf, 0x45e88f2c, 0x63356537, 0x3a4f735a));
    FourValues(s0, SECOND, 4, State(0x353af7cf, 0x45e88f2c, 0x63356537, 0x3a4f735a), State(0x3527497e, 0x377c7d0a, 0x948347ae, 0xab92660e));
    FourValues(s0, SECOND, 8, State(0x3527497e, 0x377c7d0a, 0x948347ae, 0xab92660e), State(0xcc912f27, 0xb9ede40c, 0xae23894d, 0x6945a3d5));
    FourValues(s0, SECOND, 12, State(0xcc912f27, 0xb9ede40c, 0xae23894d, 0x6945a3d5), State(0xdb4ff71c, 0x58b12eab, 0x4396a39, 0x9b6b4960));
    Round2Constants();
    SecondValues2();
    FourValues(s0, SECOND, 16, State(0xdb4ff71c, 0x58b12eab, 0x4396a39, 0x9b6b4960), State(0x52c00cae, 0x50f8de8c, 0xa476af6f, 0xaad2a216));
    FourValues(s0, SECOND, 20, State(0x52c00cae, 0x50f8de8c, 0xa476af6f, 0xaad2a216), State(0xd6e6d91, 0x43cb080, 0xd5b7a850, 0x17d64195));
    FourValues(s0, SECOND, 24, State(0xd6e6d91, 0x43cb080, 0xd5b7a850, 0x17d64195), State(0x74f9377e, 0xcb00b96e, 0xe775c8ca, 0x1f2addd));
    FourValues(s0, SECOND, 28, State(0x74f9377e, 0xcb00b96e, 0xe775c8ca, 0x1f2addd), State(0x8761f38e, 0x67092c33, 0x61bc867, 0x7a516116));
    Round3Constants();
    SecondValues3();
    FourValues(s0, SECOND, 32, State(0x8761f38e, 0x67092c33, 0x61bc867, 0x7a516116), State(0x91044d5d, 0x2ee1e3fe, 0xc0175fa8, 0x610954eb));
    FourValues(s0, SECOND, 36, State(0x91044d5d, 0x2ee1e3fe, 0xc0175fa8, 0x610954eb), State(0xae26ed7d, 0xdbd1bff6, 0xff4a94dc, 0x71d8ecea));
    FourValues(s0, SECOND, 40, State(0xae26ed7d, 0xdbd1bff6, 0xff4a94dc, 0x71d8ecea), State(0x9c350028, 0x56b3692f, 0xfacaaf06, 0x97e5da92));
    FourValues(s0, SECOND, 44, State(0x9c350028, 0x56b3692f, 0xfacaaf06, 0x97e5da92), State(0x71123afa, 0x1df7010a, 0xe6a8a386, 0xdc9c8ddb));
    Round4Constants();
    SecondValues4();
    FourValues(s0, SECOND, 48, State(0x71123afa, 0x1df7010a, 0xe6a8a386, 0xdc9c8ddb), State(0xd29007e7, 0xc8797828, 0xd3248109, 0x7241a77e));
    FourValues(s0, SECOND, 52, State(0xd29007e7, 0xc8797828, 0xd3248109, 0x7241a77e), State(0x7a504abd, 0x9b31b114, 0xa290d6ce, 0x211cc65d));
    FourValues(s0, SECOND, 56, State(0x7a504abd, 0x9b31b114, 0xa290d6ce, 0x211cc65d), State(0x723fd22d, 0x4dc4f33d, 0x3d79cf74, 0xd21d6a3b));
    FourValues(s0, SECOND, 60, State(0x723fd22d, 0x4dc4f33d, 0x3d79cf74, 0xd21d6a3b), State(0xda67616b, 0xb12906a0, 0x44ec5a13, 0xc9e47a04));
  }

  lemma SecondSums()
    ensures AddStates(State(0xc88d8bec, 0xa4a0dc8b, 0xe9edef99, 0xb0d18d1d), State(0xda67616b, 0xb12906a0, 0x44ec5a13, 0xc9e47a04)) == State(0xa2f4ed57, 0x55c9e32b, 0x2eda49ac, 0x7ab60721)
  {
  }

  lemma SecondWordBytes()
    ensures ToLE(0x0 as word as nat, 4) == [0, 0, 0, 0]
    ensures ToLE(0x80 as word as nat, 4) == [128, 0, 0, 0]
    ensures ToLE(0x280 as word as nat, 4) == [128, 2, 0, 0]
    ensures ToLE(0x30393837 as word as nat, 4) == [55, 56, 57, 48]
    ensures ToLE(0x32313039 as word as nat, 4) == [57, 48, 49, 50]
    ensures ToLE(0x36353433 as word as nat, 4) == [51, 52, 53, 54]
    ensures ToLE(0x38373635 as word as nat, 4) == [53, 54, 55, 56]
  {
  }

  lemma DigitsBytes()
    ensures ToLE(0xa2f4ed57 as word as nat, 4) == [0x57, 0xed, 0xf4, 0xa2]
    ensures ToLE(0x55c9e32b as word as nat, 4) == [0x2b, 0xe3, 0xc9, 0x55]
    ensures ToLE(0x2eda49ac as word as nat, 4) == [0xac, 0x49, 0xda, 0x2e]
    ensures ToLE(0x7ab60721 as word as nat, 4) == [0x21, 0x07, 0xb6, 0x7a]
  {
  }

  lemma DigitsPadded(i: nat)
    requires i < 128
    ensures |Padded(DIGITS)| == 128
    ensures Padded(DIGITS)[i] == if i < 80 then 48 + (i + 1) % 10 else if i == 80 then 128 else if i == 120 then 128 else if i == 121 then 2 else 0
  {
    assert PadLength(80) == 40;
    DigitsCount();
    hide ToLE, Padded;
    PaddedLength(DIGITS);
    PaddedAt(DIGITS, i);
  }

  lemma DigitsCount()
    ensures ToLE(640 % TWO64, 8) == [128, 2, 0, 0, 0, 0, 0, 0]
  {
    assert 640 % TWO64 == 640;
  }

  /** The digits that a word holds repeat every five words. */
  lemma DigitCycle(j: nat)
    requires j < 20
    ensures j % 5 == 0 ==> (4 * j + 1) % 10 == 1 && (4 * j + 2) % 10 == 2 && (4 * j + 3) % 10 == 3 && (4 * j + 4) % 10 == 4
    ensures j % 5 == 1 ==> (4 * j + 1) % 10 == 5 && (4 * j + 2) % 10 == 6 && (4 * j + 3) % 10 == 7 && (4 * j + 4) % 10 == 8
    ensures j % 5 == 2 ==> (4 * j + 1) % 10 == 9 && (4 * j + 2) % 10 == 0 && (4 * j + 3) % 10 == 1 && (4 * j + 4) % 10 == 2
    ensures j % 5 == 3 ==> (4 * j + 1) % 10 == 3 && (4 * j + 2) % 10 == 4 && (4 * j + 3) % 10 == 5 && (4 * j + 4) % 10 == 6
    ensures j % 5 == 4 ==> (4 * j + 1) % 10 == 7 && (4 * j + 2) % 10 == 8 && (4 * j + 3) % 10 == 9 && (4 * j + 4) % 10 == 0
  {
  }

  lemma DigitsAt(j: nat)
    requires j < 20
    ensures |Padded(DIGITS)| == 128
    ensures var p := Padded(DIGITS);
            && p[4 * j] == 48 + (4 * j + 1) % 10 && p[4 * j + 1] == 48 + (4 * j + 2) % 10
            && p[4 * j + 2] == 48 + (4 * j + 3) % 10 && p[4 * j + 3] == 48 + (4 * j + 4) % 10
  {
    hide *;
    DigitsPadded(4 * j);
    DigitsPadded(4 * j + 1);
    DigitsPadded(4 * j + 2);
    DigitsPadded(4 * j + 3);
  }

  lemma FirstBytes(j: nat)
    requires j < 16
    ensures |Padded(DIGITS)| == 128 && |FIRST| == 16
    ensures Padded(DIGITS)[..64][4 * j..4 * j + 4] == ToLE(FIRST[j] as nat, 4)
  {
    hide *;
    FirstWord();
    FirstWordBytes();
    DigitCycle(j);
    DigitsAt(j);
    FourBytes(Padded(DIGITS)[..64], 4 * j, ToLE(FIRST[j] as nat, 4));
  }

  lemma FirstBlock()
    ensures |Padded(DIGITS)| == 128 && |FIRST| == 16 && Words(Padded(DIGITS)[..64]) == FIRST
  {
    hide *;
    FirstBytes(0);
    var p := Padded(DIGITS)[..64];
    forall j | 0 <= j < 16 ensures p[4 * j..4 * j + 4] == ToLE(FIRST[j] as nat, 4) {
      FirstBytes(j);
    }
    WordsAre(p, FIRST);
  }

  lemma SecondBytes(j: nat)
    requires j < 16
    ensures |Padded(DIGITS)| == 128 && |SECOND| == 16
    ensures Padded(DIGITS)[64..][4 * j..4 * j + 4] == ToLE(SECOND[j] as nat, 4)
  {
    hide *;
    SecondWord();
    SecondWordBytes();
    if j < 4 {
      DigitCycle(16 + j);
      DigitsAt(16 + j);
    } else {
      DigitsPadded(64 + 4 * j);
      DigitsPadded(65 + 4 * j);
      DigitsPadded(66 + 4 * j);
      DigitsPadded(67 + 4 * j);
    }
    FourBytes(Padded(DIGITS)[64..], 4 * j, ToLE(SECOND[j] as nat, 4));
  }

  lemma SecondBlock()
    ensures |Padded(DIGITS)| == 128 && |SECOND| == 16 && Words(Padded(DIGITS)[64..]) == SECOND
  {
    hide *;
    SecondBytes(0);
    var p := Padded(DIGITS)[64..];
    forall j | 0 <= j < 16 ensures p[4 * j..4 * j + 4] == ToLE(SECOND[j] as nat, 4) {
      SecondBytes(j);
    }
    WordsAre(p, SECOND);
  }

  /** MD5 ("1234567890" eight times) = 57edf4a22be3c955ac49da2e2107b67a */
  lemma DigitsDigest()
    ensures Digest(DIGITS) == [0x57, 0xed, 0xf4, 0xa2, 0x2b, 0xe3, 0xc9, 0x55, 0xac, 0x49, 0xda, 0x2e, 0x21, 0x07, 0xb6, 0x7a]
  {
    hide *;
    FirstBlock();
    FirstSteps();
    FirstSums();
    InitIs();
    TwoBlocks(Padded(DIGITS));
    CompressIs(INIT, Padded(DIGITS)[..64], FIRST, State(0x614868eb, 0xb4d33102, 0x5133129b, 0xa09f38a7), State(0xc88d8bec, 0xa4a0dc8b, 0xe9edef99, 0xb0d18d1d));
    SecondBlock();
    SecondSteps(State(0xc88d8bec, 0xa4a0dc8b, 0xe9edef99, 0xb0d18d1d));
    SecondSums();
    CompressIs(State(0xc88d8bec, 0xa4a0dc8b, 0xe9edef99, 0xb0d18d1d), Padded(DIGITS)[64..], SECOND, State(0xda67616b, 0xb12906a0, 0x44ec5a13, 0xc9e47a04), State(0xa2f4ed57, 0x55c9e32b, 0x2eda49ac, 0x7ab60721));
    DigitsBytes();
    EncodeIs(State(0xa2f4ed57, 0x55c9e32b, 0x2eda49ac, 0x7ab60721), [0x57, 0xed, 0xf4, 0xa2], [0x2b, 0xe3, 0xc9, 0x55], [0xac, 0x49, 0xda, 0x2e], [0x21, 0x07, 0xb6, 0x7a]);
    DigestIs(DIGITS);
  }
}
