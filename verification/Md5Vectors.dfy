/** The MD5 operations by their laws, and messages with known digests (section A.5 of RFC 1321). */
module Md5Vectors {
  import opened Common
  import opened Md5Rfc
  import opened Md5Message
  import opened Md5
  import opened Md5Text

  // ----- laws -----

  /** F takes y where x has ones, and z elsewhere. */
  lemma FSelects(x: Word, y: Word, z: Word)
    ensures x & F(x, y, z) == x & y && !x & F(x, y, z) == !x & z
  {
  }

  /** G takes x where z has ones, and y elsewhere. */
  lemma GSelects(x: Word, y: Word, z: Word)
    ensures z & G(x, y, z) == z & x && !z & G(x, y, z) == !z & y
  {
  }

  /** H does not depend on the order, and is undone by exclusive or. */
  lemma HSymmetric(x: Word, y: Word, z: Word)
    ensures H(x, y, z) == H(y, x, z) == H(x, z, y) && H(x, y, z) ^ y ^ z == x
  {
  }

  /** I is x against y where z has ones, and the opposite of y elsewhere. */
  lemma ISelects(x: Word, y: Word, z: Word)
    ensures z & I(x, y, z) == z & (x ^ y) && !z & I(x, y, z) == !z & !y
  {
  }

  // ----- known digests -----

  /** One step from known registers: the word read, the sine, the shift and the new word. */
  lemma Known(x: seq<Word>, i: nat, k: nat, xk: Word, sine: Word, shift: Word, r: Regs, w: Word)
    requires |x| == 16 && i < 64 && shift <= 32 && RfcSteps(START, x, 0, i) == r
    requires k == WordIndex(i) && x[k] == xk && T(i) == sine && Shift(i) == shift
    requires Operation(r.a, Mix(i, r.b, r.c, r.d), xk, sine, shift, r.b) == w
    ensures RfcSteps(START, x, 0, i + 1) == Regs(r.d, w, r.b, r.c)
  {
    assert RfcSteps(r, x, i, i + 1) == RfcStep(r, x, i);
    StepsSplit(START, x, 0, i, i + 1);
    hide Operation, Mix, T, WordIndex, RfcSteps;
  }

  /** The one block of the empty message with its padding. */
  const EMPTY: seq<Word> := [
    0x00000080, 0, 0, 0, 0, 0, 0, 0,
    0, 0, 0, 0, 0, 0, 0, 0
  ]

  /** The one block of "abc" with its padding. */
  const ABC: seq<Word> := [
    0x80636261, 0, 0, 0, 0, 0, 0, 0,
    0, 0, 0, 0, 0, 0, 24, 0
  ]

  lemma Empty4()
    ensures RfcSteps(START, EMPTY, 0, 4) == Regs(0xa5202774, 0x1b163203, 0xe7f06b23, 0xf59592dd)
  {
    hide RfcSteps;
    NoSteps(START, EMPTY);
    Known(EMPTY, 0, 0, 0x00000080, 0xd76aa478, 7, Regs(0x67452301, 0xefcdab89, 0x98badcfe, 0x10325476), 0xa5202774);
    Known(EMPTY, 1, 1, 0, 0xe8c7b756, 12, Regs(0x10325476, 0xa5202774, 0xefcdab89, 0x98badcfe), 0xf59592dd);
    Known(EMPTY, 2, 2, 0, 0x242070db, 17, Regs(0x98badcfe, 0xf59592dd, 0xa5202774, 0xefcdab89), 0xe7f06b23);
    Known(EMPTY, 3, 3, 0, 0xc1bdceee, 22, Regs(0xefcdab89, 0xe7f06b23, 0xf59592dd, 0xa5202774), 0x1b163203);
  }

  lemma Empty8()
    ensures RfcSteps(START, EMPTY, 0, 8) == Regs(0x32033344, 0x9bc13ce9, 0xf5b158db, 0x2f35d494)
  {
    hide RfcSteps;
    Empty4();
    Known(EMPTY, 4, 4, 0, 0xf57c0faf, 7, Regs(0xa5202774, 0x1b163203, 0xe7f06b23, 0xf59592dd), 0x32033344);
    Known(EMPTY, 5, 5, 0, 0x4787c62a, 12, Regs(0xf59592dd, 0x32033344, 0x1b163203, 0xe7f06b23), 0x2f35d494);
    Known(EMPTY, 6, 6, 0, 0xa8304613, 17, Regs(0xe7f06b23, 0x2f35d494, 0x32033344, 0x1b163203), 0xf5b158db);
    Known(EMPTY, 7, 7, 0, 0xfd469501, 22, Regs(0x1b163203, 0xf5b158db, 0x2f35d494, 0x32033344), 0x9bc13ce9);
  }

  lemma Empty12()
    ensures RfcSteps(START, EMPTY, 0, 12) == Regs(0x3893b991, 0x70768a29, 0xe1ef0576, 0xfce4a312)
  {
    hide RfcSteps;
    Empty8();
    Known(EMPTY, 8, 8, 0, 0x698098d8, 7, Regs(0x32033344, 0x9bc13ce9, 0xf5b158db, 0x2f35d494), 0x3893b991);
    Known(EMPTY, 9, 9, 0, 0x8b44f7af, 12, Regs(0x2f35d494, 0x3893b991, 0x9bc13ce9, 0xf5b158db), 0xfce4a312);
    Known(EMPTY, 10, 10, 0, 0xffff5bb1, 17, Regs(0xf5b158db, 0xfce4a312, 0x3893b991, 0x9bc13ce9), 0xe1ef0576);
    Known(EMPTY, 11, 11, 0, 0x895cd7be, 22, Regs(0x9bc13ce9, 0xe1ef0576, 0xfce4a312, 0x3893b991), 0x70768a29);
  }

  lemma Empty16()
    ensures RfcSteps(START, EMPTY, 0, 16) == Regs(0xf56c7cf1, 0xd6819c6a, 0x5aa53f75, 0x374943a7)
  {
    hide RfcSteps;
    Empty12();
    Known(EMPTY, 12, 12, 0, 0x6b901122, 7, Regs(0x3893b991, 0x70768a29, 0xe1ef0576, 0xfce4a312), 0xf56c7cf1);
    Known(EMPTY, 13, 13, 0, 0xfd987193, 12, Regs(0xfce4a312, 0xf56c7cf1, 0x70768a29, 0xe1ef0576), 0x374943a7);
    Known(EMPTY, 14, 14, 0, 0xa679438e, 17, Regs(0xe1ef0576, 0x374943a7, 0xf56c7cf1, 0x70768a29), 0x5aa53f75);
    Known(EMPTY, 15, 15, 0, 0x49b40821, 22, Regs(0x70768a29, 0x5aa53f75, 0x374943a7, 0xf56c7cf1), 0xd6819c6a);
  }

  lemma Empty20()
    ensures RfcSteps(START, EMPTY, 0, 20) == Regs(0x1c7d7513, 0xbd782e17, 0xc095f13a, 0x7bd57a3a)
  {
    hide RfcSteps;
    Empty16();
    Known(EMPTY, 16, 1, 0, 0xf61e2562, 5, Regs(0xf56c7cf1, 0xd6819c6a, 0x5aa53f75, 0x374943a7), 0x1c7d7513);
    Known(EMPTY, 17, 6, 0, 0xc040b340, 9, Regs(0x374943a7, 0x1c7d7513, 0xd6819c6a, 0x5aa53f75), 0x7bd57a3a);
    Known(EMPTY, 18, 11, 0, 0x265e5a51, 14, Regs(0x5aa53f75, 0x7bd57a3a, 0x1c7d7513, 0xd6819c6a), 0xc095f13a);
    Known(EMPTY, 19, 0, 0x00000080, 0xe9b6c7aa, 20, Regs(0xd6819c6a, 0xc095f13a, 0x7bd57a3a, 0x1c7d7513), 0xbd782e17);
  }

  lemma Empty24()
    ensures RfcSteps(START, EMPTY, 0, 24) == Regs(0x3d1e3e6c, 0xe422531a, 0xeb41643e, 0x68b7b3e3)
  {
    hide RfcSteps;
    Empty20();
    Known(EMPTY, 20, 5, 0, 0xd62f105d, 5, Regs(0x1c7d7513, 0xbd782e17, 0xc095f13a, 0x7bd57a3a), 0x3d1e3e6c);
    Known(EMPTY, 21, 10, 0, 0x02441453, 9, Regs(0x7bd57a3a, 0x3d1e3e6c, 0xbd782e17, 0xc095f13a), 0x68b7b3e3);
    Known(EMPTY, 22, 15, 0, 0xd8a1e681, 14, Regs(0xc095f13a, 0x68b7b3e3, 0x3d1e3e6c, 0xbd782e17), 0xeb41643e);
    Known(EMPTY, 23, 4, 0, 0xe7d3fbc8, 20, Regs(0xbd782e17, 0xeb41643e, 0x68b7b3e3, 0x3d1e3e6c), 0xe422531a);
  }

  lemma Empty28()
    ensures RfcSteps(START, EMPTY, 0, 28) == Regs(0x306ec122, 0xa0572807, 0xa3c663da, 0xd28c77c2)
  {
    hide RfcSteps;
    Empty24();
    Known(EMPTY, 24, 9, 0, 0x21e1cde6, 5, Regs(0x3d1e3e6c, 0xe422531a, 0xeb41643e, 0x68b7b3e3), 0x306ec122);
    Known(EMPTY, 25, 14, 0, 0xc33707d6, 9, Regs(0x68b7b3e3, 0x306ec122, 0xe422531a, 0xeb41643e), 0xd28c77c2);
    Known(EMPTY, 26, 3, 0, 0xf4d50d87, 14, Regs(0xeb41643e, 0xd28c77c2, 0x306ec122, 0xe422531a), 0xa3c663da);
    Known(EMPTY, 27, 8, 0, 0x455a14ed, 20, Regs(0xe422531a, 0xa3c663da, 0xd28c77c2, 0x306ec122), 0xa0572807);
  }

  lemma Empty32()
    ensures RfcSteps(START, EMPTY, 0, 32) == Regs(0x13707036, 0xa2205f1f, 0x1c31c384, 0xae7813db)
  {
    hide RfcSteps;
    Empty28();
    Known(EMPTY, 28, 13, 0, 0xa9e3e905, 5, Regs(0x306ec122, 0xa0572807, 0xa3c663da, 0xd28c77c2), 0x13707036);
    Known(EMPTY, 29, 2, 0, 0xfcefa3f8, 9, Regs(0xd28c77c2, 0x13707036, 0xa0572807, 0xa3c663da), 0xae7813db);
    Known(EMPTY, 30, 7, 0, 0x676f02d9, 14, Regs(0xa3c663da, 0xae7813db, 0x13707036, 0xa0572807), 0x1c31c384);
    Known(EMPTY, 31, 12, 0, 0x8d2a4c8a, 20, Regs(0xa0572807, 0x1c31c384, 0xae7813db, 0x13707036), 0xa2205f1f);
  }

  lemma Empty36()
    ensures RfcSteps(START, EMPTY, 0, 36) == Regs(0xdf63eaa1, 0x004b6669, 0x12f3e755, 0xc3689f5b)
  {
    hide RfcSteps;
    Empty32();
    Known(EMPTY, 32, 5, 0, 0xfffa3942, 4, Regs(0x13707036, 0xa2205f1f, 0x1c31c384, 0xae7813db), 0xdf63eaa1);
    Known(EMPTY, 33, 8, 0, 0x8771f681, 11, Regs(0xae7813db, 0xdf63eaa1, 0xa2205f1f, 0x1c31c384), 0xc3689f5b);
    Known(EMPTY, 34, 11, 0, 0x6d9d6122, 16, Regs(0x1c31c384, 0xc3689f5b, 0xdf63eaa1, 0xa2205f1f), 0x12f3e755);
    Known(EMPTY, 35, 14, 0, 0xfde5380c, 23, Regs(0xa2205f1f, 0x12f3e755, 0xc3689f5b, 0xdf63eaa1), 0x004b6669);
  }

  lemma Empty40()
    ensures RfcSteps(START, EMPTY, 0, 40) == Regs(0x5f7a9b2e, 0xc5dc8c15, 0x91ca4cb7, 0xabc34e16)
  {
    hide RfcSteps;
    Empty36();
    Known(EMPTY, 36, 1, 0, 0xa4beea44, 4, Regs(0xdf63eaa1, 0x004b6669, 0x12f3e755, 0xc3689f5b), 0x5f7a9b2e);
    Known(EMPTY, 37, 4, 0, 0x4bdecfa9, 11, Regs(0xc3689f5b, 0x5f7a9b2e, 0x004b6669, 0x12f3e755), 0xabc34e16);
    Known(EMPTY, 38, 7, 0, 0xf6bb4b60, 16, Regs(0x12f3e755, 0xabc34e16, 0x5f7a9b2e, 0x004b6669), 0x91ca4cb7);
    Known(EMPTY, 39, 10, 0, 0xbebfbc70, 23, Regs(0x004b6669, 0x91ca4cb7, 0xabc34e16, 0x5f7a9b2e), 0xc5dc8c15);
  }

  lemma Empty44()
    ensures RfcSteps(START, EMPTY, 0, 44) == Regs(0x4497169d, 0x0fe32453, 0xfd95f243, 0x76fd93d4)
  {
    hide RfcSteps;
    Empty40();
    Known(EMPTY, 40, 13, 0, 0x289b7ec6, 4, Regs(0x5f7a9b2e, 0xc5dc8c15, 0x91ca4cb7, 0xabc34e16), 0x4497169d);
    Known(EMPTY, 41, 0, 0x00000080, 0xeaa127fa, 11, Regs(0xabc34e16, 0x4497169d, 0xc5dc8c15, 0x91ca4cb7), 0x76fd93d4);
    Known(EMPTY, 42, 3, 0, 0xd4ef3085, 16, Regs(0x91ca4cb7, 0x76fd93d4, 0x4497169d, 0xc5dc8c15), 0xfd95f243);
    Known(EMPTY, 43, 6, 0, 0x04881d05, 23, Regs(0xc5dc8c15, 0xfd95f243, 0x76fd93d4, 0x4497169d), 0x0fe32453);
  }

  lemma Empty48()
    ensures RfcSteps(START, EMPTY, 0, 48) == Regs(0x3f55edfd, 0xca7d2dbd, 0x68d84ea2, 0x22a31f54)
  {
    hide RfcSteps;
    Empty44();
    Known(EMPTY, 44, 9, 0, 0xd9d4d039, 4, Regs(0x4497169d, 0x0fe32453, 0xfd95f243, 0x76fd93d4), 0x3f55edfd);
    Known(EMPTY, 45, 12, 0, 0xe6db99e5, 11, Regs(0x76fd93d4, 0x3f55edfd, 0x0fe32453, 0xfd95f243), 0x22a31f54);
    Known(EMPTY, 46, 15, 0, 0x1fa27cf8, 16, Regs(0xfd95f243, 0x22a31f54, 0x3f55edfd, 0x0fe32453), 0x68d84ea2);
    Known(EMPTY, 47, 2, 0, 0xc4ac5665, 23, Regs(0x0fe32453, 0x68d84ea2, 0x22a31f54, 0x3f55edfd), 0xca7d2dbd);
  }

  lemma Empty52()
    ensures RfcSteps(START, EMPTY, 0, 52) == Regs(0x93aa2577, 0x561e0689, 0xcd85b8cb, 0x1688dc85)
  {
    hide RfcSteps;
    Empty48();
    Known(EMPTY, 48, 0, 0x00000080, 0xf4292244, 6, Regs(0x3f55edfd, 0xca7d2dbd, 0x68d84ea2, 0x22a31f54), 0x93aa2577);
    Known(EMPTY, 49, 7, 0, 0x432aff97, 10, Regs(0x22a31f54, 0x93aa2577, 0xca7d2dbd, 0x68d84ea2), 0x1688dc85);
    Known(EMPTY, 50, 14, 0, 0xab9423a7, 15, Regs(0x68d84ea2, 0x1688dc85, 0x93aa2577, 0xca7d2dbd), 0xcd85b8cb);
    Known(EMPTY, 51, 5, 0, 0xfc93a039, 21, Regs(0xca7d2dbd, 0xcd85b8cb, 0x1688dc85, 0x93aa2577), 0x561e0689);
  }

  lemma Empty56()
    ensures RfcSteps(START, EMPTY, 0, 56) == Regs(0x5625a114, 0x1e77fa61, 0x392ad0d0, 0x3450f42b)
  {
    hide RfcSteps;
    Empty52();
    Known(EMPTY, 52, 12, 0, 0x655b59c3, 6, Regs(0x93aa2577, 0x561e0689, 0xcd85b8cb, 0x1688dc85), 0x5625a114);
    Known(EMPTY, 53, 3, 0, 0x8f0ccc92, 10, Regs(0x1688dc85, 0x5625a114, 0x561e0689, 0xcd85b8cb), 0x3450f42b);
    Known(EMPTY, 54, 10, 0, 0xffeff47d, 15, Regs(0xcd85b8cb, 0x3450f42b, 0x5625a114, 0x561e0689), 0x392ad0d0);
    Known(EMPTY, 55, 1, 0, 0x85845dd1, 21, Regs(0x561e0689, 0x392ad0d0, 0x3450f42b, 0x5625a114), 0x1e77fa61);
  }

  lemma Empty60()
    ensures RfcSteps(START, EMPTY, 0, 60) == Regs(0x474a9c8c, 0x30130182, 0x36594b14, 0xdfce00bc)
  {
    hide RfcSteps;
    Empty56();
    Known(EMPTY, 56, 8, 0, 0x6fa87e4f, 6, Regs(0x5625a114, 0x1e77fa61, 0x392ad0d0, 0x3450f42b), 0x474a9c8c);
    Known(EMPTY, 57, 15, 0, 0xfe2ce6e0, 10, Regs(0x3450f42b, 0x474a9c8c, 0x1e77fa61, 0x392ad0d0), 0xdfce00bc);
    Known(EMPTY, 58, 6, 0, 0xa3014314, 15, Regs(0x392ad0d0, 0xdfce00bc, 0x474a9c8c, 0x1e77fa61), 0x36594b14);
    Known(EMPTY, 59, 13, 0, 0x4e0811a1, 21, Regs(0x1e77fa61, 0x36594b14, 0xdfce00bc, 0x474a9c8c), 0x30130182);
  }

  lemma Empty64()
    ensures RfcSteps(START, EMPTY, 0, 64) == Regs(0x7246fad3, 0x14e45506, 0xff4ea3eb, 0x6e10a476)
  {
    hide RfcSteps;
    Empty60();
    Known(EMPTY, 60, 4, 0, 0xf7537e82, 6, Regs(0x474a9c8c, 0x30130182, 0x36594b14, 0xdfce00bc), 0x7246fad3);
    Known(EMPTY, 61, 11, 0, 0xbd3af235, 10, Regs(0xdfce00bc, 0x7246fad3, 0x30130182, 0x36594b14), 0x6e10a476);
    Known(EMPTY, 62, 2, 0, 0x2ad7d2bb, 15, Regs(0x36594b14, 0x6e10a476, 0x7246fad3, 0x30130182), 0xff4ea3eb);
    Known(EMPTY, 63, 9, 0, 0xeb86d391, 21, Regs(0x30130182, 0xff4ea3eb, 0x6e10a476, 0x7246fad3), 0x14e45506);
  }

  lemma Abc4()
    ensures RfcSteps(START, ABC, 0, 4) == Regs(0xd6d117b4, 0x7ad956f2, 0x2f6fbd72, 0x344a8432)
  {
    hide RfcSteps;
    NoSteps(START, ABC);
    Known(ABC, 0, 0, 0x80636261, 0xd76aa478, 7, Regs(0x67452301, 0xefcdab89, 0x98badcfe, 0x10325476), 0xd6d117b4);
    Known(ABC, 1, 1, 0, 0xe8c7b756, 12, Regs(0x10325476, 0xd6d117b4, 0xefcdab89, 0x98badcfe), 0x344a8432);
    Known(ABC, 2, 2, 0, 0x242070db, 17, Regs(0x98badcfe, 0x344a8432, 0xd6d117b4, 0xefcdab89), 0x2f6fbd72);
    Known(ABC, 3, 3, 0, 0xc1bdceee, 22, Regs(0xefcdab89, 0x2f6fbd72, 0x344a8432, 0xd6d117b4), 0x7ad956f2);
  }

  lemma Abc8()
    ensures RfcSteps(START, ABC, 0, 8) == Regs(0xc73741ef, 0x928d99f6, 0x207dc67b, 0x8bac3051)
  {
    hide RfcSteps;
    Abc4();
    Known(ABC, 4, 4, 0, 0xf57c0faf, 7, Regs(0xd6d117b4, 0x7ad956f2, 0x2f6fbd72, 0x344a8432), 0xc73741ef);
    Known(ABC, 5, 5, 0, 0x4787c62a, 12, Regs(0x344a8432, 0xc73741ef, 0x7ad956f2, 0x2f6fbd72), 0x8bac3051);
    Known(ABC, 6, 6, 0, 0xa8304613, 17, Regs(0x2f6fbd72, 0x8bac3051, 0xc73741ef, 0x7ad956f2), 0x207dc67b);
    Known(ABC, 7, 7, 0, 0xfd469501, 22, Regs(0x7ad956f2, 0x207dc67b, 0x8bac3051, 0xc73741ef), 0x928d99f6);
  }

  lemma Abc12()
    ensures RfcSteps(START, ABC, 0, 12) == Regs(0x854b3712, 0x5ed49596, 0x3020401c, 0x74e2f284)
  {
    hide RfcSteps;
    Abc8();
    Known(ABC, 8, 8, 0, 0x698098d8, 7, Regs(0xc73741ef, 0x928d99f6, 0x207dc67b, 0x8bac3051), 0x854b3712);
    Known(ABC, 9, 9, 0, 0x8b44f7af, 12, Regs(0x8bac3051, 0x854b3712, 0x928d99f6, 0x207dc67b), 0x74e2f284);
    Known(ABC, 10, 10, 0, 0xffff5bb1, 17, Regs(0x207dc67b, 0x74e2f284, 0x854b3712, 0x928d99f6), 0x3020401c);
    Known(ABC, 11, 11, 0, 0x895cd7be, 22, Regs(0x928d99f6, 0x3020401c, 0x74e2f284, 0x854b3712), 0x5ed49596);
  }

  lemma Abc16()
    ensures RfcSteps(START, ABC, 0, 16) == Regs(0xdda9b9a6, 0x72aff2e0, 0xe396856b, 0xa1051895)
  {
    hide RfcSteps;
    Abc12();
    Known(ABC, 12, 12, 0, 0x6b901122, 7, Regs(0x854b3712, 0x5ed49596, 0x3020401c, 0x74e2f284), 0xdda9b9a6);
    Known(ABC, 13, 13, 0, 0xfd987193, 12, Regs(0x74e2f284, 0xdda9b9a6, 0x5ed49596, 0x3020401c), 0xa1051895);
    Known(ABC, 14, 14, 24, 0xa679438e, 17, Regs(0x3020401c, 0xa1051895, 0xdda9b9a6, 0x5ed49596), 0xe396856b);
    Known(ABC, 15, 15, 0, 0x49b40821, 22, Regs(0x5ed49596, 0xe396856b, 0xa1051895, 0xdda9b9a6), 0x72aff2e0);
  }

  lemma Abc20()
    ensures RfcSteps(START, ABC, 0, 20) == Regs(0x3e9e9126, 0xb5b204e4, 0xe25e1652, 0x4a1d804e)
  {
    hide RfcSteps;
    Abc16();
    Known(ABC, 16, 1, 0, 0xf61e2562, 5, Regs(0xdda9b9a6, 0x72aff2e0, 0xe396856b, 0xa1051895), 0x3e9e9126);
    Known(ABC, 17, 6, 0, 0xc040b340, 9, Regs(0xa1051895, 0x3e9e9126, 0x72aff2e0, 0xe396856b), 0x4a1d804e);
    Known(ABC, 18, 11, 0, 0x265e5a51, 14, Regs(0xe396856b, 0x4a1d804e, 0x3e9e9126, 0x72aff2e0), 0xe25e1652);
    Known(ABC, 19, 0, 0x80636261, 0xe9b6c7aa, 20, Regs(0x72aff2e0, 0xe25e1652, 0x4a1d804e, 0x3e9e9126), 0xb5b204e4);
  }

  lemma Abc24()
    ensures RfcSteps(START, ABC, 0, 24) == Regs(0x59a8ffda, 0x47092c07, 0xabfc7920, 0x6d002f1e)
  {
    hide RfcSteps;
    Abc20();
    Known(ABC, 20, 5, 0, 0xd62f105d, 5, Regs(0x3e9e9126, 0xb5b204e4, 0xe25e1652, 0x4a1d804e), 0x59a8ffda);
    Known(ABC, 21, 10, 0, 0x02441453, 9, Regs(0x4a1d804e, 0x59a8ffda, 0xb5b204e4, 0xe25e1652), 0x6d002f1e);
    Known(ABC, 22, 15, 0, 0xd8a1e681, 14, Regs(0xe25e1652, 0x6d002f1e, 0x59a8ffda, 0xb5b204e4), 0xabfc7920);
    Known(ABC, 23, 4, 0, 0xe7d3fbc8, 20, Regs(0xb5b204e4, 0xabfc7920, 0x6d002f1e, 0x59a8ffda), 0x47092c07);
  }

  lemma Abc28()
    ensures RfcSteps(START, ABC, 0, 28) == Regs(0xb7f268cf, 0x786acb8f, 0xfe1623b1, 0x09388eff)
  {
    hide RfcSteps;
    Abc24();
    Known(ABC, 24, 9, 0, 0x21e1cde6, 5, Regs(0x59a8ffda, 0x47092c07, 0xabfc7920, 0x6d002f1e), 0xb7f268cf);
    Known(ABC, 25, 14, 24, 0xc33707d6, 9, Regs(0x6d002f1e, 0xb7f268cf, 0x47092c07, 0xabfc7920), 0x09388eff);
    Known(ABC, 26, 3, 0, 0xf4d50d87, 14, Regs(0xabfc7920, 0x09388eff, 0xb7f268cf, 0x47092c07), 0xfe1623b1);
    Known(ABC, 27, 8, 0, 0x455a14ed, 20, Regs(0x47092c07, 0xfe1623b1, 0x09388eff, 0xb7f268cf), 0x786acb8f);
  }

  lemma Abc32()
    ensures RfcSteps(START, ABC, 0, 32) == Regs(0x790a77fb, 0x726342d3, 0xa62884aa, 0x9f47e4f8)
  {
    hide RfcSteps;
    Abc28();
    Known(ABC, 28, 13, 0, 0xa9e3e905, 5, Regs(0xb7f268cf, 0x786acb8f, 0xfe1623b1, 0x09388eff), 0x790a77fb);
    Known(ABC, 29, 2, 0, 0xfcefa3f8, 9, Regs(0x09388eff, 0x790a77fb, 0x786acb8f, 0xfe1623b1), 0x9f47e4f8);
    Known(ABC, 30, 7, 0, 0x676f02d9, 14, Regs(0xfe1623b1, 0x9f47e4f8, 0x790a77fb, 0x786acb8f), 0xa62884aa);
    Known(ABC, 31, 12, 0, 0x8d2a4c8a, 20, Regs(0x786acb8f, 0xa62884aa, 0x9f47e4f8, 0x790a77fb), 0x726342d3);
  }

  lemma Abc36()
    ensures RfcSteps(START, ABC, 0, 36) == Regs(0xb3707ebf, 0x3b0875c7, 0x8d212ff5, 0x60127b2e)
  {
    hide RfcSteps;
    Abc32();
    Known(ABC, 32, 5, 0, 0xfffa3942, 4, Regs(0x790a77fb, 0x726342d3, 0xa62884aa, 0x9f47e4f8), 0xb3707ebf);
    Known(ABC, 33, 8, 0, 0x8771f681, 11, Regs(0x9f47e4f8, 0xb3707ebf, 0x726342d3, 0xa62884aa), 0x60127b2e);
    Known(ABC, 34, 11, 0, 0x6d9d6122, 16, Regs(0xa62884aa, 0x60127b2e, 0xb3707ebf, 0x726342d3), 0x8d212ff5);
    Known(ABC, 35, 14, 24, 0xfde5380c, 23, Regs(0x726342d3, 0x8d212ff5, 0x60127b2e, 0xb3707ebf), 0x3b0875c7);
  }

  lemma Abc40()
    ensures RfcSteps(START, ABC, 0, 40) == Regs(0x21b117b9, 0x5a2f5ea5, 0x3575227e, 0x6e7429d5)
  {
    hide RfcSteps;
    Abc36();
    Known(ABC, 36, 1, 0, 0xa4beea44, 4, Regs(0xb3707ebf, 0x3b0875c7, 0x8d212ff5, 0x60127b2e), 0x21b117b9);
    Known(ABC, 37, 4, 0, 0x4bdecfa9, 11, Regs(0x60127b2e, 0x21b117b9, 0x3b0875c7, 0x8d212ff5), 0x6e7429d5);
    Known(ABC, 38, 7, 0, 0xf6bb4b60, 16, Regs(0x8d212ff5, 0x6e7429d5, 0x21b117b9, 0x3b0875c7), 0x3575227e);
    Known(ABC, 39, 10, 0, 0xbebfbc70, 23, Regs(0x3b0875c7, 0x3575227e, 0x6e7429d5, 0x21b117b9), 0x5a2f5ea5);
  }

  lemma Abc44()
    ensures RfcSteps(START, ABC, 0, 44) == Regs(0x11de1779, 0x4c6124f4, 0x31c465ca, 0xfadcaa38)
  {
    hide RfcSteps;
    Abc40();
    Known(ABC, 40, 13, 0, 0x289b7ec6, 4, Regs(0x21b117b9, 0x5a2f5ea5, 0x3575227e, 0x6e7429d5), 0x11de1779);
    Known(ABC, 41, 0, 0x80636261, 0xeaa127fa, 11, Regs(0x6e7429d5, 0x11de1779, 0x5a2f5ea5, 0x3575227e), 0xfadcaa38);
    Known(ABC, 42, 3, 0, 0xd4ef3085, 16, Regs(0x3575227e, 0xfadcaa38, 0x11de1779, 0x5a2f5ea5), 0x31c465ca);
    Known(ABC, 43, 6, 0, 0x04881d05, 23, Regs(0x5a2f5ea5, 0x31c465ca, 0xfadcaa38, 0x11de1779), 0x4c6124f4);
  }

  lemma Abc48()
    ensures RfcSteps(START, ABC, 0, 48) == Regs(0x7f2e507b, 0x7beb9700, 0x8fae6399, 0x99d9679d)
  {
    hide RfcSteps;
    Abc44();
    Known(ABC, 44, 9, 0, 0xd9d4d039, 4, Regs(0x11de1779, 0x4c6124f4, 0x31c465ca, 0xfadcaa38), 0x7f2e507b);
    Known(ABC, 45, 12, 0, 0xe6db99e5, 11, Regs(0xfadcaa38, 0x7f2e507b, 0x4c6124f4, 0x31c465ca), 0x99d9679d);
    Known(ABC, 46, 15, 0, 0x1fa27cf8, 16, Regs(0x31c465ca, 0x99d9679d, 0x7f2e507b, 0x4c6124f4), 0x8fae6399);
    Known(ABC, 47, 2, 0, 0xc4ac5665, 23, Regs(0x4c6124f4, 0x8fae6399, 0x99d9679d, 0x7f2e507b), 0x7beb9700);
  }

  lemma Abc52()
    ensures RfcSteps(START, ABC, 0, 52) == Regs(0x7b201df8, 0x8bf025c4, 0xb298cefd, 0xf4e8e96e)
  {
    hide RfcSteps;
    Abc48();
    Known(ABC, 48, 0, 0x80636261, 0xf4292244, 6, Regs(0x7f2e507b, 0x7beb9700, 0x8fae6399, 0x99d9679d), 0x7b201df8);
    Known(ABC, 49, 7, 0, 0x432aff97, 10, Regs(0x99d9679d, 0x7b201df8, 0x7beb9700, 0x8fae6399), 0xf4e8e96e);
    Known(ABC, 50, 14, 24, 0xab9423a7, 15, Regs(0x8fae6399, 0xf4e8e96e, 0x7b201df8, 0x7beb9700), 0xb298cefd);
    Known(ABC, 51, 5, 0, 0xfc93a039, 21, Regs(0x7beb9700, 0xb298cefd, 0xf4e8e96e, 0x7b201df8), 0x8bf025c4);
  }

  lemma Abc56()
    ensures RfcSteps(START, ABC, 0, 56) == Regs(0x06cc5e8a, 0x3bfa2c27, 0x7d632dd0, 0x5b0d97aa)
  {
    hide RfcSteps;
    Abc52();
    Known(ABC, 52, 12, 0, 0x655b59c3, 6, Regs(0x7b201df8, 0x8bf025c4, 0xb298cefd, 0xf4e8e96e), 0x06cc5e8a);
    Known(ABC, 53, 3, 0, 0x8f0ccc92, 10, Regs(0xf4e8e96e, 0x06cc5e8a, 0x8bf025c4, 0xb298cefd), 0x5b0d97aa);
    Known(ABC, 54, 10, 0, 0xffeff47d, 15, Regs(0xb298cefd, 0x5b0d97aa, 0x06cc5e8a, 0x8bf025c4), 0x7d632dd0);
    Known(ABC, 55, 1, 0, 0x85845dd1, 21, Regs(0x8bf025c4, 0x7d632dd0, 0x5b0d97aa, 0x06cc5e8a), 0x3bfa2c27);
  }

  lemma Abc60()
    ensures RfcSteps(START, ABC, 0, 60) == Regs(0x7f81cc35, 0x7327d604, 0x4f9dbe3f, 0x094454ab)
  {
    hide RfcSteps;
    Abc56();
    Known(ABC, 56, 8, 0, 0x6fa87e4f, 6, Regs(0x06cc5e8a, 0x3bfa2c27, 0x7d632dd0, 0x5b0d97aa), 0x7f81cc35);
    Known(ABC, 57, 15, 0, 0xfe2ce6e0, 10, Regs(0x5b0d97aa, 0x7f81cc35, 0x3bfa2c27, 0x7d632dd0), 0x094454ab);
    Known(ABC, 58, 6, 0, 0xa3014314, 15, Regs(0x7d632dd0, 0x094454ab, 0x7f81cc35, 0x3bfa2c27), 0x4f9dbe3f);
    Known(ABC, 59, 13, 0, 0x4e0811a1, 21, Regs(0x3bfa2c27, 0x4f9dbe3f, 0x094454ab, 0x7f81cc35), 0x7327d604);
  }

  lemma Abc64()
    ensures RfcSteps(START, ABC, 0, 64) == Regs(0x310ade8f, 0xc08226b3, 0xe484b9d8, 0x624d8cb2)
  {
    hide RfcSteps;
    Abc60();
    Known(ABC, 60, 4, 0, 0xf7537e82, 6, Regs(0x7f81cc35, 0x7327d604, 0x4f9dbe3f, 0x094454ab), 0x310ade8f);
    Known(ABC, 61, 11, 0, 0xbd3af235, 10, Regs(0x094454ab, 0x310ade8f, 0x7327d604, 0x4f9dbe3f), 0x624d8cb2);
    Known(ABC, 62, 2, 0, 0x2ad7d2bb, 15, Regs(0x4f9dbe3f, 0x624d8cb2, 0x310ade8f, 0x7327d604), 0xe484b9d8);
    Known(ABC, 63, 9, 0, 0xeb86d391, 21, Regs(0x7327d604, 0xe484b9d8, 0x624d8cb2, 0x310ade8f), 0xc08226b3);
  }

  // ----- from words to texts -----

  lemma AbsorbOne(block: seq<Byte>)
    requires |block| == BLOCK_SIZE
    ensures Absorb(START, block) == Block(START, block)
  {
    assert block[..BLOCK_SIZE] == block && block[BLOCK_SIZE..] == [];
  }

  lemma {:induction false} HexOfAppend(xs: seq<Byte>, ys: seq<Byte>)
    ensures HexOf(xs + ys) == HexOf(xs) + HexOf(ys)
  {
    if ys == [] {
      assert xs + ys == xs;
    } else {
      var n := |ys| - 1;
      HexOfAppend(xs, ys[..n]);
      assert (xs + ys)[..|xs| + n] == xs + ys[..n];
    }
  }

  lemma HexOfFour(a: Byte, b: Byte, c: Byte, d: Byte, text: string)
    requires text == Pair(a) + Pair(b) + Pair(c) + Pair(d)
    ensures HexOf([a, b, c, d]) == text
  {
    hide Pair;
    HexOfOne(a);
    HexOfOne(b);
    HexOfOne(c);
    HexOfOne(d);
    HexOfAppend([a], [b]);
    HexOfAppend([a] + [b], [c]);
    HexOfAppend([a] + [b] + [c], [d]);
    assert [a, b, c, d] == [a] + [b] + [c] + [d];
  }

  function Pair(b: Byte): string { [HexChar(b / 16), HexChar(b % 16)] }

  lemma HexOfOne(b: Byte)
    ensures HexOf([b]) == Pair(b)
  {
    assert [b] == [] + [b];
    HexOfNext([], b);
  }

  lemma HexOfParts(a: seq<Byte>, b: seq<Byte>, c: seq<Byte>, d: seq<Byte>, s: string, t: string, u: string, v: string)
    requires HexOf(a) == s && HexOf(b) == t && HexOf(c) == u && HexOf(d) == v
    ensures HexOf(a + b + c + d) == s + t + u + v
  {
    HexOfAppend(a, b);
    HexOfAppend(a + b, c);
    HexOfAppend(a + b + c, d);
  }

  /** Bytes are put together with the low one first. */
  lemma FourBytes()
    ensures WordOf(0x61, 0x62, 0x63, 0x80) == 0x80636261
  {
    assert 0x61 + 0x100 * 0x62 + 0x1_0000 * 0x63 + 0x100_0000 * 0x80 == 0x80636261;
  }

  lemma LowByte()
    ensures WordOf(0x80, 0, 0, 0) == 0x80 && WordOf(24, 0, 0, 0) == 24
  {
  }

  lemma NoBits()
    ensures WordOf(0, 0, 0, 0) == 0
  {
  }

  lemma EmptyWords()
    ensures |Pad([])| == BLOCK_SIZE && Words(Pad([])) == EMPTY
  {
    hide WordOf, Words, Pad;
    EmptyPad();
    FewBytes(Pad([]), 0x80, 0, 0, 0, 0);
    LowByte();
    NoBits();
    assert forall k | 0 <= k < 16 :: Words(Pad([]))[k] == EMPTY[k];
  }

  lemma EmptyPad()
    ensures var m := Pad([]); |m| == BLOCK_SIZE && m == [0x80, 0, 0, 0] + Zeros(52) + [0] + Zeros(7)
  {
  }

  lemma AbcWords()
    ensures |Pad([0x61, 0x62, 0x63])| == BLOCK_SIZE && Words(Pad([0x61, 0x62, 0x63])) == ABC
  {
    hide WordOf, Words, Pad;
    var m := Pad([0x61, 0x62, 0x63]);
    AbcPad();
    FewBytes(m, 0x61, 0x62, 0x63, 0x80, 24);
    FourBytes();
    LowByte();
    NoBits();
    assert forall k | 0 <= k < 16 :: Words(m)[k] == ABC[k];
  }

  lemma AbcPad()
    ensures var m := Pad([0x61, 0x62, 0x63]); |m| == BLOCK_SIZE && m == [0x61, 0x62, 0x63, 0x80] + Zeros(52) + [24] + Zeros(7)
  {
  }

  /** A block with zeros but in its first word and in the low byte of the length. */
  lemma FewBytes(m: seq<Byte>, b0: Byte, b1: Byte, b2: Byte, b3: Byte, n: Byte)
    requires m == [b0, b1, b2, b3] + Zeros(52) + [n] + Zeros(7)
    ensures |m| == BLOCK_SIZE && Words(m)[0] == WordOf(b0, b1, b2, b3) && Words(m)[14] == WordOf(n, 0, 0, 0)
    ensures forall k | 0 < k < 16 && k != 14 :: Words(m)[k] == WordOf(0, 0, 0, 0)
  {
    hide WordOf;
    assert m[0] == b0 && m[1] == b1 && m[2] == b2 && m[3] == b3;
    assert forall k | 4 <= k < 56 :: m[k] == Zeros(52)[k - 4] == 0;
    assert m[56] == n && forall k | 57 <= k < 64 :: m[k] == Zeros(7)[k - 57] == 0;
    forall k | 0 < k < 16 && k != 14 ensures Words(m)[k] == WordOf(0, 0, 0, 0) {
      assert Words(m)[k] == WordOf(m[4 * k], m[4 * k + 1], m[4 * k + 2], m[4 * k + 3]);
    }
  }

  lemma EmptyBlock()
    ensures Block(START, Pad([])) == Regs(0xd98c1dd4, 0x04b2008f, 0x980980e9, 0x7e42f8ec)
  {
    EmptyWords();
    Empty64();
    hide RfcSteps, Words;
  }

  lemma EmptyBytes()
    ensures RegisterBytes(Regs(0xd98c1dd4, 0x04b2008f, 0x980980e9, 0x7e42f8ec))
            == [0xd4, 0x1d, 0x8c, 0xd9, 0x8f, 0x00, 0xb2, 0x04, 0xe9, 0x80, 0x09, 0x98, 0xec, 0xf8, 0x42, 0x7e]
  {
  }

  lemma EmptyText()
    ensures HexOf(RegisterBytes(Regs(0xd98c1dd4, 0x04b2008f, 0x980980e9, 0x7e42f8ec))) == "d41d8cd98f00b204e9800998ecf8427e"
  {
    EmptyBytes();
    hide RegisterBytes, HexOf, WordBytes;
    var a := [0xd4, 0x1d, 0x8c, 0xd9];
    assert HexOf(a) == "d41d8cd9" by { HexOfFour(0xd4, 0x1d, 0x8c, 0xd9, "d41d8cd9"); }
    var b := [0x8f, 0x00, 0xb2, 0x04];
    assert HexOf(b) == "8f00b204" by { HexOfFour(0x8f, 0x00, 0xb2, 0x04, "8f00b204"); }
    var c := [0xe9, 0x80, 0x09, 0x98];
    assert HexOf(c) == "e9800998" by { HexOfFour(0xe9, 0x80, 0x09, 0x98, "e9800998"); }
    var d := [0xec, 0xf8, 0x42, 0x7e];
    assert HexOf(d) == "ecf8427e" by { HexOfFour(0xec, 0xf8, 0x42, 0x7e, "ecf8427e"); }
    HexOfParts(a, b, c, d, "d41d8cd9", "8f00b204", "e9800998", "ecf8427e");
    assert RegisterBytes(Regs(0xd98c1dd4, 0x04b2008f, 0x980980e9, 0x7e42f8ec)) == a + b + c + d;
    EmptyLetters();
  }

  lemma EmptyLetters()
    ensures "d41d8cd9" + "8f00b204" + "e9800998" + "ecf8427e" == "d41d8cd98f00b204e9800998ecf8427e"
  {
  }

  /** MD5 ("") of the test suite. */
  lemma EmptyDigest()
    ensures HexOf(Digest([])) == "d41d8cd98f00b204e9800998ecf8427e"
  {
    hide RfcBlock, Words, HexOf, Pad, RegisterBytes;
    EmptyWords();
    EmptyBlock();
    AbsorbOne(Pad([]));
    EmptyText();
  }

  lemma AbcBlock()
    ensures Block(START, Pad([0x61, 0x62, 0x63])) == Regs(0x98500190, 0xb04fd23c, 0x7d3f96d6, 0x727fe128)
  {
    AbcWords();
    Abc64();
    hide RfcSteps, Words;
  }

  lemma AbcBytes()
    ensures RegisterBytes(Regs(0x98500190, 0xb04fd23c, 0x7d3f96d6, 0x727fe128))
            == [0x90, 0x01, 0x50, 0x98, 0x3c, 0xd2, 0x4f, 0xb0, 0xd6, 0x96, 0x3f, 0x7d, 0x28, 0xe1, 0x7f, 0x72]
  {
  }

  lemma AbcText()
    ensures HexOf(RegisterBytes(Regs(0x98500190, 0xb04fd23c, 0x7d3f96d6, 0x727fe128))) == "900150983cd24fb0d6963f7d28e17f72"
  {
    AbcBytes();
    hide RegisterBytes, HexOf, WordBytes;
    var a := [0x90, 0x01, 0x50, 0x98];
    assert HexOf(a) == "90015098" by { HexOfFour(0x90, 0x01, 0x50, 0x98, "90015098"); }
    var b := [0x3c, 0xd2, 0x4f, 0xb0];
    assert HexOf(b) == "3cd24fb0" by { HexOfFour(0x3c, 0xd2, 0x4f, 0xb0, "3cd24fb0"); }
    var c := [0xd6, 0x96, 0x3f, 0x7d];
    assert HexOf(c) == "d6963f7d" by { HexOfFour(0xd6, 0x96, 0x3f, 0x7d, "d6963f7d"); }
    var d := [0x28, 0xe1, 0x7f, 0x72];
    assert HexOf(d) == "28e17f72" by { HexOfFour(0x28, 0xe1, 0x7f, 0x72, "28e17f72"); }
    HexOfParts(a, b, c, d, "90015098", "3cd24fb0", "d6963f7d", "28e17f72");
    assert RegisterBytes(Regs(0x98500190, 0xb04fd23c, 0x7d3f96d6, 0x727fe128)) == a + b + c + d;
    AbcLetters();
  }

  lemma AbcLetters()
    ensures "90015098" + "3cd24fb0" + "d6963f7d" + "28e17f72" == "900150983cd24fb0d6963f7d28e17f72"
  {
  }

  /** MD5 ("abc") of the test suite. */
  lemma AbcDigest()
    ensures HexOf(Digest([0x61, 0x62, 0x63])) == "900150983cd24fb0d6963f7d28e17f72"
  {
    hide RfcBlock, Words, HexOf, Pad, RegisterBytes;
    AbcWords();
    AbcBlock();
    AbsorbOne(Pad([0x61, 0x62, 0x63]));
    AbcText();
  }
}
