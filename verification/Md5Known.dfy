/** What MD5 computes, apart from its own definition: two of the digests that section A.5 of RFC 1321 lists. */
module Md5Known {

  import opened Md5
  import opened Octets

  /** The length in bits modulo 2^64, low word first. */
  lemma LengthWordsMean(n: nat, lo: bv32, hi: bv32, k: nat)
    requires 8 * n == lo as int + 0x1_0000_0000 * (hi as int) + 0x1_0000_0000_0000_0000 * k
    ensures LengthWords(n) == [lo, hi]
  {
    hide LengthWord;
    WordsOf(lo as int, hi as int, k);
    LengthWordOf(lo);
    LengthWordOf(hi);
  }

  lemma LengthWordOf(x: bv32)
    ensures LengthWord(x as int) == x
  {
    Small(x as int);
  }

  lemma Small(n: nat)
    requires n < TWO32
    ensures n % TWO32 == n
  {
  }

  lemma WordsOf(lo: nat, hi: nat, k: nat)
    requires lo < TWO32 && hi < TWO32
    ensures var bits := (lo + TWO32 * hi + TWO64 * k) % TWO64; bits % TWO32 == lo && bits / TWO32 == hi
  {
    Remainder(lo + TWO32 * hi, k);
  }

  // ----- blocks and digests

  /** The words of a last block of which only the first four octets are not all zero. */
  lemma ShortBlock(last: octets, first: bv32)
    requires |last| == 56 && LittleEndian(last[0], last[1], last[2], last[3]) == first
    requires forall i :: 4 <= i < 56 ==> last[i] == 0
    ensures Words14(last) == [first, 0, 0, 0, 0, 0, 0, 0, 0, 0, 0, 0, 0, 0]
  {
    hide LittleEndian;
    NoOctets();
    assert WordAt(last, 0) == first;
    forall i | 1 <= i < 14 ensures WordAt(last, i) == 0 {
    }
  }

  lemma NoOctets()
    ensures LittleEndian(0, 0, 0, 0) == 0
  {
  }

  /** The octets of the output. */
  lemma OutputIs(s: State)
    ensures Output(s) == [
      Octet(s.a, 0), Octet(s.a, 8), Octet(s.a, 16), Octet(s.a, 24),
      Octet(s.b, 0), Octet(s.b, 8), Octet(s.b, 16), Octet(s.b, 24),
      Octet(s.c, 0), Octet(s.c, 8), Octet(s.c, 16), Octet(s.c, 24),
      Octet(s.d, 0), Octet(s.d, 8), Octet(s.d, 16), Octet(s.d, 24)]
  {
    hide Octet, Word;
    assert Word(s, 0) == s.a && Word(s, 1) == s.b && Word(s, 2) == s.c && Word(s, 3) == s.d by { WordsInOrder(s); }
  }

  lemma WordsInOrder(s: State)
    ensures Word(s, 0) == s.a && Word(s, 1) == s.b && Word(s, 2) == s.c && Word(s, 3) == s.d
  {
  }

  // ----- the digest of the empty message

  const EMPTY_WORDS: seq<bv32> := [0x00000080, 0, 0, 0, 0, 0, 0, 0, 0, 0, 0, 0, 0, 0, 0, 0]

  lemma EmptyValues1()
    ensures NewA(0x67452301, 0xefcdab89, F(0xefcdab89, 0x98badcfe, 0x10325476), 0x80, 7, 0xd76aa478) == 0xa5202774
    ensures NewA(0x10325476, 0xa5202774, F(0xa5202774, 0xefcdab89, 0x98badcfe), 0, 12, 0xe8c7b756) == 0xf59592dd
    ensures NewA(0x98badcfe, 0xf59592dd, F(0xf59592dd, 0xa5202774, 0xefcdab89), 0, 17, 0x242070db) == 0xe7f06b23
    ensures NewA(0xefcdab89, 0xe7f06b23, F(0xe7f06b23, 0xf59592dd, 0xa5202774), 0, 22, 0xc1bdceee) == 0x1b163203
    ensures NewA(0xa5202774, 0x1b163203, F(0x1b163203, 0xe7f06b23, 0xf59592dd), 0, 7, 0xf57c0faf) == 0x32033344
    ensures NewA(0xf59592dd, 0x32033344, F(0x32033344, 0x1b163203, 0xe7f06b23), 0, 12, 0x4787c62a) == 0x2f35d494
    ensures NewA(0xe7f06b23, 0x2f35d494, F(0x2f35d494, 0x32033344, 0x1b163203), 0, 17, 0xa8304613) == 0xf5b158db
    ensures NewA(0x1b163203, 0xf5b158db, F(0xf5b158db, 0x2f35d494, 0x32033344), 0, 22, 0xfd469501) == 0x9bc13ce9
    ensures NewA(0x32033344, 0x9bc13ce9, F(0x9bc13ce9, 0xf5b158db, 0x2f35d494), 0, 7, 0x698098d8) == 0x3893b991
    ensures NewA(0x2f35d494, 0x3893b991, F(0x3893b991, 0x9bc13ce9, 0xf5b158db), 0, 12, 0x8b44f7af) == 0xfce4a312
    ensures NewA(0xf5b158db, 0xfce4a312, F(0xfce4a312, 0x3893b991, 0x9bc13ce9), 0, 17, 0xffff5bb1) == 0xe1ef0576
    ensures NewA(0x9bc13ce9, 0xe1ef0576, F(0xe1ef0576, 0xfce4a312, 0x3893b991), 0, 22, 0x895cd7be) == 0x70768a29
    ensures NewA(0x3893b991, 0x70768a29, F(0x70768a29, 0xe1ef0576, 0xfce4a312), 0, 7, 0x6b901122) == 0xf56c7cf1
    ensures NewA(0xfce4a312, 0xf56c7cf1, F(0xf56c7cf1, 0x70768a29, 0xe1ef0576), 0, 12, 0xfd987193) == 0x374943a7
    ensures NewA(0xe1ef0576, 0x374943a7, F(0x374943a7, 0xf56c7cf1, 0x70768a29), 0, 17, 0xa679438e) == 0x5aa53f75
    ensures NewA(0x70768a29, 0x5aa53f75, F(0x5aa53f75, 0x374943a7, 0xf56c7cf1), 0, 22, 0x49b40821) == 0xd6819c6a
  {
  }

  lemma EmptySteps8()
    ensures Steps(INITIAL, EMPTY_WORDS, 8) ==
      State(0x32033344, 0x9bc13ce9, 0xf5b158db, 0x2f35d494)
  {
    hide NewA, F, G, H, I, T, WordOf, ShiftOf, Steps;
    NoSteps(INITIAL, EMPTY_WORDS);
    Table1();
    Sines1();
    EmptyValues1();
    assert Steps(INITIAL, EMPTY_WORDS, 4) == State(0xa5202774, 0x1b163203, 0xe7f06b23, 0xf59592dd) by {
      FourSteps(INITIAL, EMPTY_WORDS, 0);
    }
    FourSteps(INITIAL, EMPTY_WORDS, 4);
  }

  lemma EmptySteps16()
    ensures Steps(INITIAL, EMPTY_WORDS, 16) ==
      State(0xf56c7cf1, 0xd6819c6a, 0x5aa53f75, 0x374943a7)
  {
    hide NewA, F, G, H, I, T, WordOf, ShiftOf, Steps;
    EmptySteps8();
    Table1();
    Sines1();
    EmptyValues1();
    assert Steps(INITIAL, EMPTY_WORDS, 12) == State(0x3893b991, 0x70768a29, 0xe1ef0576, 0xfce4a312) by {
      FourSteps(INITIAL, EMPTY_WORDS, 8);
    }
    FourSteps(INITIAL, EMPTY_WORDS, 12);
  }

  lemma EmptyValues2()
    ensures NewA(0xf56c7cf1, 0xd6819c6a, G(0xd6819c6a, 0x5aa53f75, 0x374943a7), 0, 5, 0xf61e2562) == 0x1c7d7513
    ensures NewA(0x374943a7, 0x1c7d7513, G(0x1c7d7513, 0xd6819c6a, 0x5aa53f75), 0, 9, 0xc040b340) == 0x7bd57a3a
    ensures NewA(0x5aa53f75, 0x7bd57a3a, G(0x7bd57a3a, 0x1c7d7513, 0xd6819c6a), 0, 14, 0x265e5a51) == 0xc095f13a
    ensures NewA(0xd6819c6a, 0xc095f13a, G(0xc095f13a, 0x7bd57a3a, 0x1c7d7513), 0x80, 20, 0xe9b6c7aa) == 0xbd782e17
    ensures NewA(0x1c7d7513, 0xbd782e17, G(0xbd782e17, 0xc095f13a, 0x7bd57a3a), 0, 5, 0xd62f105d) == 0x3d1e3e6c
    ensures NewA(0x7bd57a3a, 0x3d1e3e6c, G(0x3d1e3e6c, 0xbd782e17, 0xc095f13a), 0, 9, 0x02441453) == 0x68b7b3e3
    ensures NewA(0xc095f13a, 0x68b7b3e3, G(0x68b7b3e3, 0x3d1e3e6c, 0xbd782e17), 0, 14, 0xd8a1e681) == 0xeb41643e
    ensures NewA(0xbd782e17, 0xeb41643e, G(0xeb41643e, 0x68b7b3e3, 0x3d1e3e6c), 0, 20, 0xe7d3fbc8) == 0xe422531a
    ensures NewA(0x3d1e3e6c, 0xe422531a, G(0xe422531a, 0xeb41643e, 0x68b7b3e3), 0, 5, 0x21e1cde6) == 0x306ec122
    ensures NewA(0x68b7b3e3, 0x306ec122, G(0x306ec122, 0xe422531a, 0xeb41643e), 0, 9, 0xc33707d6) == 0xd28c77c2
    ensures NewA(0xeb41643e, 0xd28c77c2, G(0xd28c77c2, 0x306ec122, 0xe422531a), 0, 14, 0xf4d50d87) == 0xa3c663da
    ensures NewA(0xe422531a, 0xa3c663da, G(0xa3c663da, 0xd28c77c2, 0x306ec122), 0, 20, 0x455a14ed) == 0xa0572807
    ensures NewA(0x306ec122, 0xa0572807, G(0xa0572807, 0xa3c663da, 0xd28c77c2), 0, 5, 0xa9e3e905) == 0x13707036
    ensures NewA(0xd28c77c2, 0x13707036, G(0x13707036, 0xa0572807, 0xa3c663da), 0, 9, 0xfcefa3f8) == 0xae7813db
    ensures NewA(0xa3c663da, 0xae7813db, G(0xae7813db, 0x13707036, 0xa0572807), 0, 14, 0x676f02d9) == 0x1c31c384
    ensures NewA(0xa0572807, 0x1c31c384, G(0x1c31c384, 0xae7813db, 0x13707036), 0, 20, 0x8d2a4c8a) == 0xa2205f1f
  {
  }

  lemma EmptySteps24()
    ensures Steps(INITIAL, EMPTY_WORDS, 24) ==
      State(0x3d1e3e6c, 0xe422531a, 0xeb41643e, 0x68b7b3e3)
  {
    hide NewA, F, G, H, I, T, WordOf, ShiftOf, Steps;
    EmptySteps16();
    Table2();
    Sines2();
    EmptyValues2();
    assert Steps(INITIAL, EMPTY_WORDS, 20) == State(0x1c7d7513, 0xbd782e17, 0xc095f13a, 0x7bd57a3a) by {
      FourSteps(INITIAL, EMPTY_WORDS, 16);
    }
    FourSteps(INITIAL, EMPTY_WORDS, 20);
  }

  lemma EmptySteps32()
    ensures Steps(INITIAL, EMPTY_WORDS, 32) ==
      State(0x13707036, 0xa2205f1f, 0x1c31c384, 0xae7813db)
  {
    hide NewA, F, G, H, I, T, WordOf, ShiftOf, Steps;
    EmptySteps24();
    Table2();
    Sines2();
    EmptyValues2();
    assert Steps(INITIAL, EMPTY_WORDS, 28) == State(0x306ec122, 0xa0572807, 0xa3c663da, 0xd28c77c2) by {
      FourSteps(INITIAL, EMPTY_WORDS, 24);
    }
    FourSteps(INITIAL, EMPTY_WORDS, 28);
  }

  lemma EmptyValues3()
    ensures NewA(0x13707036, 0xa2205f1f, H(0xa2205f1f, 0x1c31c384, 0xae7813db), 0, 4, 0xfffa3942) == 0xdf63eaa1
    ensures NewA(0xae7813db, 0xdf63eaa1, H(0xdf63eaa1, 0xa2205f1f, 0x1c31c384), 0, 11, 0x8771f681) == 0xc3689f5b
    ensures NewA(0x1c31c384, 0xc3689f5b, H(0xc3689f5b, 0xdf63eaa1, 0xa2205f1f), 0, 16, 0x6d9d6122) == 0x12f3e755
    ensures NewA(0xa2205f1f, 0x12f3e755, H(0x12f3e755, 0xc3689f5b, 0xdf63eaa1), 0, 23, 0xfde5380c) == 0x004b6669
    ensures NewA(0xdf63eaa1, 0x004b6669, H(0x004b6669, 0x12f3e755, 0xc3689f5b), 0, 4, 0xa4beea44) == 0x5f7a9b2e
    ensures NewA(0xc3689f5b, 0x5f7a9b2e, H(0x5f7a9b2e, 0x004b6669, 0x12f3e755), 0, 11, 0x4bdecfa9) == 0xabc34e16
    ensures NewA(0x12f3e755, 0xabc34e16, H(0xabc34e16, 0x5f7a9b2e, 0x004b6669), 0, 16, 0xf6bb4b60) == 0x91ca4cb7
    ensures NewA(0x004b6669, 0x91ca4cb7, H(0x91ca4cb7, 0xabc34e16, 0x5f7a9b2e), 0, 23, 0xbebfbc70) == 0xc5dc8c15
    ensures NewA(0x5f7a9b2e, 0xc5dc8c15, H(0xc5dc8c15, 0x91ca4cb7, 0xabc34e16), 0, 4, 0x289b7ec6) == 0x4497169d
    ensures NewA(0xabc34e16, 0x4497169d, H(0x4497169d, 0xc5dc8c15, 0x91ca4cb7), 0x80, 11, 0xeaa127fa) == 0x76fd93d4
    ensures NewA(0x91ca4cb7, 0x76fd93d4, H(0x76fd93d4, 0x4497169d, 0xc5dc8c15), 0, 16, 0xd4ef3085) == 0xfd95f243
    ensures NewA(0xc5dc8c15, 0xfd95f243, H(0xfd95f243, 0x76fd93d4, 0x4497169d), 0, 23, 0x04881d05) == 0x0fe32453
    ensures NewA(0x4497169d, 0x0fe32453, H(0x0fe32453, 0xfd95f243, 0x76fd93d4), 0, 4, 0xd9d4d039) == 0x3f55edfd
    ensures NewA(0x76fd93d4, 0x3f55edfd, H(0x3f55edfd, 0x0fe32453, 0xfd95f243), 0, 11, 0xe6db99e5) == 0x22a31f54
    ensures NewA(0xfd95f243, 0x22a31f54, H(0x22a31f54, 0x3f55edfd, 0x0fe32453), 0, 16, 0x1fa27cf8) == 0x68d84ea2
    ensures NewA(0x0fe32453, 0x68d84ea2, H(0x68d84ea2, 0x22a31f54, 0x3f55edfd), 0, 23, 0xc4ac5665) == 0xca7d2dbd
  {
  }

  lemma EmptySteps40()
    ensures Steps(INITIAL, EMPTY_WORDS, 40) ==
      State(0x5f7a9b2e, 0xc5dc8c15, 0x91ca4cb7, 0xabc34e16)
  {
    hide NewA, F, G, H, I, T, WordOf, ShiftOf, Steps;
    EmptySteps32();
    Table3();
    Sines3();
    EmptyValues3();
    assert Steps(INITIAL, EMPTY_WORDS, 36) == State(0xdf63eaa1, 0x004b6669, 0x12f3e755, 0xc3689f5b) by {
      FourSteps(INITIAL, EMPTY_WORDS, 32);
    }
    FourSteps(INITIAL, EMPTY_WORDS, 36);
  }

  lemma EmptySteps48()
    ensures Steps(INITIAL, EMPTY_WORDS, 48) ==
      State(0x3f55edfd, 0xca7d2dbd, 0x68d84ea2, 0x22a31f54)
  {
    hide NewA, F, G, H, I, T, WordOf, ShiftOf, Steps;
    EmptySteps40();
    Table3();
    Sines3();
    EmptyValues3();
    assert Steps(INITIAL, EMPTY_WORDS, 44) == State(0x4497169d, 0x0fe32453, 0xfd95f243, 0x76fd93d4) by {
      FourSteps(INITIAL, EMPTY_WORDS, 40);
    }
    FourSteps(INITIAL, EMPTY_WORDS, 44);
  }

  lemma EmptyValues4()
    ensures NewA(0x3f55edfd, 0xca7d2dbd, I(0xca7d2dbd, 0x68d84ea2, 0x22a31f54), 0x80, 6, 0xf4292244) == 0x93aa2577
    ensures NewA(0x22a31f54, 0x93aa2577, I(0x93aa2577, 0xca7d2dbd, 0x68d84ea2), 0, 10, 0x432aff97) == 0x1688dc85
    ensures NewA(0x68d84ea2, 0x1688dc85, I(0x1688dc85, 0x93aa2577, 0xca7d2dbd), 0, 15, 0xab9423a7) == 0xcd85b8cb
    ensures NewA(0xca7d2dbd, 0xcd85b8cb, I(0xcd85b8cb, 0x1688dc85, 0x93aa2577), 0, 21, 0xfc93a039) == 0x561e0689
    ensures NewA(0x93aa2577, 0x561e0689, I(0x561e0689, 0xcd85b8cb, 0x1688dc85), 0, 6, 0x655b59c3) == 0x5625a114
    ensures NewA(0x1688dc85, 0x5625a114, I(0x5625a114, 0x561e0689, 0xcd85b8cb), 0, 10, 0x8f0ccc92) == 0x3450f42b
    ensures NewA(0xcd85b8cb, 0x3450f42b, I(0x3450f42b, 0x5625a114, 0x561e0689), 0, 15, 0xffeff47d) == 0x392ad0d0
    ensures NewA(0x561e0689, 0x392ad0d0, I(0x392ad0d0, 0x3450f42b, 0x5625a114), 0, 21, 0x85845dd1) == 0x1e77fa61
    ensures NewA(0x5625a114, 0x1e77fa61, I(0x1e77fa61, 0x392ad0d0, 0x3450f42b), 0, 6, 0x6fa87e4f) == 0x474a9c8c
    ensures NewA(0x3450f42b, 0x474a9c8c, I(0x474a9c8c, 0x1e77fa61, 0x392ad0d0), 0, 10, 0xfe2ce6e0) == 0xdfce00bc
    ensures NewA(0x392ad0d0, 0xdfce00bc, I(0xdfce00bc, 0x474a9c8c, 0x1e77fa61), 0, 15, 0xa3014314) == 0x36594b14
    ensures NewA(0x1e77fa61, 0x36594b14, I(0x36594b14, 0xdfce00bc, 0x474a9c8c), 0, 21, 0x4e0811a1) == 0x30130182
    ensures NewA(0x474a9c8c, 0x30130182, I(0x30130182, 0x36594b14, 0xdfce00bc), 0, 6, 0xf7537e82) == 0x7246fad3
    ensures NewA(0xdfce00bc, 0x7246fad3, I(0x7246fad3, 0x30130182, 0x36594b14), 0, 10, 0xbd3af235) == 0x6e10a476
    ensures NewA(0x36594b14, 0x6e10a476, I(0x6e10a476, 0x7246fad3, 0x30130182), 0, 15, 0x2ad7d2bb) == 0xff4ea3eb
    ensures NewA(0x30130182, 0xff4ea3eb, I(0xff4ea3eb, 0x6e10a476, 0x7246fad3), 0, 21, 0xeb86d391) == 0x14e45506
  {
  }

  lemma EmptySteps56()
    ensures Steps(INITIAL, EMPTY_WORDS, 56) ==
      State(0x5625a114, 0x1e77fa61, 0x392ad0d0, 0x3450f42b)
  {
    hide NewA, F, G, H, I, T, WordOf, ShiftOf, Steps;
    EmptySteps48();
    Table4();
    Sines4();
    EmptyValues4();
    assert Steps(INITIAL, EMPTY_WORDS, 52) == State(0x93aa2577, 0x561e0689, 0xcd85b8cb, 0x1688dc85) by {
      FourSteps(INITIAL, EMPTY_WORDS, 48);
    }
    FourSteps(INITIAL, EMPTY_WORDS, 52);
  }

  lemma EmptySteps64()
    ensures Steps(INITIAL, EMPTY_WORDS, 64) ==
      State(0x7246fad3, 0x14e45506, 0xff4ea3eb, 0x6e10a476)
  {
    hide NewA, F, G, H, I, T, WordOf, ShiftOf, Steps;
    EmptySteps56();
    Table4();
    Sines4();
    EmptyValues4();
    assert Steps(INITIAL, EMPTY_WORDS, 60) == State(0x474a9c8c, 0x30130182, 0x36594b14, 0xdfce00bc) by {
      FourSteps(INITIAL, EMPTY_WORDS, 56);
    }
    FourSteps(INITIAL, EMPTY_WORDS, 60);
  }

  lemma EmptyCompressed()
    ensures Compress(INITIAL, EMPTY_WORDS) == State(0xd98c1dd4, 0x04b2008f, 0x980980e9, 0x7e42f8ec)
  {
    hide Steps;
    EmptySteps64();
  }

  lemma EmptyOctets()
    ensures Octet(0xd98c1dd4, 0) == 0xd4
    ensures Octet(0xd98c1dd4, 8) == 0x1d
    ensures Octet(0xd98c1dd4, 16) == 0x8c
    ensures Octet(0xd98c1dd4, 24) == 0xd9
    ensures Octet(0x04b2008f, 0) == 0x8f
    ensures Octet(0x04b2008f, 8) == 0x00
    ensures Octet(0x04b2008f, 16) == 0xb2
    ensures Octet(0x04b2008f, 24) == 0x04
    ensures Octet(0x980980e9, 0) == 0xe9
    ensures Octet(0x980980e9, 8) == 0x80
    ensures Octet(0x980980e9, 16) == 0x09
    ensures Octet(0x980980e9, 24) == 0x98
    ensures Octet(0x7e42f8ec, 0) == 0xec
    ensures Octet(0x7e42f8ec, 8) == 0xf8
    ensures Octet(0x7e42f8ec, 16) == 0x42
    ensures Octet(0x7e42f8ec, 24) == 0x7e
  {
  }

  lemma EmptyBlock(m: octets)
    requires m == []
    ensures |m + Padding(|m|)| == 56
    ensures Words14(m + Padding(|m|)) + LengthWords(|m|) == EMPTY_WORDS
  {
    hide LengthWords;
    var last := m + Padding(|m|);
    EmptyFirst();
    ShortBlock(last, 0x00000080);
    LengthWordsMean(|m|, 0, 0, 0);
  }

  lemma EmptyFirst()
    ensures LittleEndian(0x80, 0, 0, 0) == 0x00000080
  {
  }

  /** The digest of the empty message. */
  lemma EmptyDigest()
    ensures Digest([]) == [
      0xd4, 0x1d, 0x8c, 0xd9, 0x8f, 0x00, 0xb2, 0x04,
      0xe9, 0x80, 0x09, 0x98, 0xec, 0xf8, 0x42, 0x7e]
  {
    hide Compress, Output, Digest, Octet, Words14, LengthWords, Padding;
    var m: octets := [];
    EmptyBlock(m);
    var last := m + Padding(|m|);
    assert [] + last == last;
    DigestIs(m, [], last);
    NothingHashed();
    EmptyCompressed();
    OutputIs(State(0xd98c1dd4, 0x04b2008f, 0x980980e9, 0x7e42f8ec));
    EmptyOctets();
  }

  lemma NothingHashed()
    ensures Hashed([]) == INITIAL
  {
  }

  // ----- the digest of "abc"

  const ABC_WORDS: seq<bv32> := [0x80636261, 0, 0, 0, 0, 0, 0, 0, 0, 0, 0, 0, 0, 0, 24, 0]

  lemma AbcValues1()
    ensures NewA(0x67452301, 0xefcdab89, F(0xefcdab89, 0x98badcfe, 0x10325476), 0x80636261, 7, 0xd76aa478) == 0xd6d117b4
    ensures NewA(0x10325476, 0xd6d117b4, F(0xd6d117b4, 0xefcdab89, 0x98badcfe), 0, 12, 0xe8c7b756) == 0x344a8432
    ensures NewA(0x98badcfe, 0x344a8432, F(0x344a8432, 0xd6d117b4, 0xefcdab89), 0, 17, 0x242070db) == 0x2f6fbd72
    ensures NewA(0xefcdab89, 0x2f6fbd72, F(0x2f6fbd72, 0x344a8432, 0xd6d117b4), 0, 22, 0xc1bdceee) == 0x7ad956f2
    ensures NewA(0xd6d117b4, 0x7ad956f2, F(0x7ad956f2, 0x2f6fbd72, 0x344a8432), 0, 7, 0xf57c0faf) == 0xc73741ef
    ensures NewA(0x344a8432, 0xc73741ef, F(0xc73741ef, 0x7ad956f2, 0x2f6fbd72), 0, 12, 0x4787c62a) == 0x8bac3051
    ensures NewA(0x2f6fbd72, 0x8bac3051, F(0x8bac3051, 0xc73741ef, 0x7ad956f2), 0, 17, 0xa8304613) == 0x207dc67b
    ensures NewA(0x7ad956f2, 0x207dc67b, F(0x207dc67b, 0x8bac3051, 0xc73741ef), 0, 22, 0xfd469501) == 0x928d99f6
    ensures NewA(0xc73741ef, 0x928d99f6, F(0x928d99f6, 0x207dc67b, 0x8bac3051), 0, 7, 0x698098d8) == 0x854b3712
    ensures NewA(0x8bac3051, 0x854b3712, F(0x854b3712, 0x928d99f6, 0x207dc67b), 0, 12, 0x8b44f7af) == 0x74e2f284
    ensures NewA(0x207dc67b, 0x74e2f284, F(0x74e2f284, 0x854b3712, 0x928d99f6), 0, 17, 0xffff5bb1) == 0x3020401c
    ensures NewA(0x928d99f6, 0x3020401c, F(0x3020401c, 0x74e2f284, 0x854b3712), 0, 22, 0x895cd7be) == 0x5ed49596
    ensures NewA(0x854b3712, 0x5ed49596, F(0x5ed49596, 0x3020401c, 0x74e2f284), 0, 7, 0x6b901122) == 0xdda9b9a6
    ensures NewA(0x74e2f284, 0xdda9b9a6, F(0xdda9b9a6, 0x5ed49596, 0x3020401c), 0, 12, 0xfd987193) == 0xa1051895
    ensures NewA(0x3020401c, 0xa1051895, F(0xa1051895, 0xdda9b9a6, 0x5ed49596), 24, 17, 0xa679438e) == 0xe396856b
    ensures NewA(0x5ed49596, 0xe396856b, F(0xe396856b, 0xa1051895, 0xdda9b9a6), 0, 22, 0x49b40821) == 0x72aff2e0
  {
  }

  lemma AbcSteps8()
    ensures Steps(INITIAL, ABC_WORDS, 8) ==
      State(0xc73741ef, 0x928d99f6, 0x207dc67b, 0x8bac3051)
  {
    hide NewA, F, G, H, I, T, WordOf, ShiftOf, Steps;
    NoSteps(INITIAL, ABC_WORDS);
    Table1();
    Sines1();
    AbcValues1();
    assert Steps(INITIAL, ABC_WORDS, 4) == State(0xd6d117b4, 0x7ad956f2, 0x2f6fbd72, 0x344a8432) by {
      FourSteps(INITIAL, ABC_WORDS, 0);
    }
    FourSteps(INITIAL, ABC_WORDS, 4);
  }

  lemma AbcSteps16()
    ensures Steps(INITIAL, ABC_WORDS, 16) ==
      State(0xdda9b9a6, 0x72aff2e0, 0xe396856b, 0xa1051895)
  {
    hide NewA, F, G, H, I, T, WordOf, ShiftOf, Steps;
    AbcSteps8();
    Table1();
    Sines1();
    AbcValues1();
    assert Steps(INITIAL, ABC_WORDS, 12) == State(0x854b3712, 0x5ed49596, 0x3020401c, 0x74e2f284) by {
      FourSteps(INITIAL, ABC_WORDS, 8);
    }
    FourSteps(INITIAL, ABC_WORDS, 12);
  }

  lemma AbcValues2()
    ensures NewA(0xdda9b9a6, 0x72aff2e0, G(0x72aff2e0, 0xe396856b, 0xa1051895), 0, 5, 0xf61e2562) == 0x3e9e9126
    ensures NewA(0xa1051895, 0x3e9e9126, G(0x3e9e9126, 0x72aff2e0, 0xe396856b), 0, 9, 0xc040b340) == 0x4a1d804e
    ensures NewA(0xe396856b, 0x4a1d804e, G(0x4a1d804e, 0x3e9e9126, 0x72aff2e0), 0, 14, 0x265e5a51) == 0xe25e1652
    ensures NewA(0x72aff2e0, 0xe25e1652, G(0xe25e1652, 0x4a1d804e, 0x3e9e9126), 0x80636261, 20, 0xe9b6c7aa) ==
      0xb5b204e4
    ensures NewA(0x3e9e9126, 0xb5b204e4, G(0xb5b204e4, 0xe25e1652, 0x4a1d804e), 0, 5, 0xd62f105d) == 0x59a8ffda
    ensures NewA(0x4a1d804e, 0x59a8ffda, G(0x59a8ffda, 0xb5b204e4, 0xe25e1652), 0, 9, 0x02441453) == 0x6d002f1e
    ensures NewA(0xe25e1652, 0x6d002f1e, G(0x6d002f1e, 0x59a8ffda, 0xb5b204e4), 0, 14, 0xd8a1e681) == 0xabfc7920
    ensures NewA(0xb5b204e4, 0xabfc7920, G(0xabfc7920, 0x6d002f1e, 0x59a8ffda), 0, 20, 0xe7d3fbc8) == 0x47092c07
    ensures NewA(0x59a8ffda, 0x47092c07, G(0x47092c07, 0xabfc7920, 0x6d002f1e), 0, 5, 0x21e1cde6) == 0xb7f268cf
    ensures NewA(0x6d002f1e, 0xb7f268cf, G(0xb7f268cf, 0x47092c07, 0xabfc7920), 24, 9, 0xc33707d6) == 0x09388eff
    ensures NewA(0xabfc7920, 0x09388eff, G(0x09388eff, 0xb7f268cf, 0x47092c07), 0, 14, 0xf4d50d87) == 0xfe1623b1
    ensures NewA(0x47092c07, 0xfe1623b1, G(0xfe1623b1, 0x09388eff, 0xb7f268cf), 0, 20, 0x455a14ed) == 0x786acb8f
    ensures NewA(0xb7f268cf, 0x786acb8f, G(0x786acb8f, 0xfe1623b1, 0x09388eff), 0, 5, 0xa9e3e905) == 0x790a77fb
    ensures NewA(0x09388eff, 0x790a77fb, G(0x790a77fb, 0x786acb8f, 0xfe1623b1), 0, 9, 0xfcefa3f8) == 0x9f47e4f8
    ensures NewA(0xfe1623b1, 0x9f47e4f8, G(0x9f47e4f8, 0x790a77fb, 0x786acb8f), 0, 14, 0x676f02d9) == 0xa62884aa
    ensures NewA(0x786acb8f, 0xa62884aa, G(0xa62884aa, 0x9f47e4f8, 0x790a77fb), 0, 20, 0x8d2a4c8a) == 0x726342d3
  {
  }

  lemma AbcSteps24()
    ensures Steps(INITIAL, ABC_WORDS, 24) ==
      State(0x59a8ffda, 0x47092c07, 0xabfc7920, 0x6d002f1e)
  {
    hide NewA, F, G, H, I, T, WordOf, ShiftOf, Steps;
    AbcSteps16();
    Table2();
    Sines2();
    AbcValues2();
    assert Steps(INITIAL, ABC_WORDS, 20) == State(0x3e9e9126, 0xb5b204e4, 0xe25e1652, 0x4a1d804e) by {
      FourSteps(INITIAL, ABC_WORDS, 16);
    }
    FourSteps(INITIAL, ABC_WORDS, 20);
  }

  lemma AbcSteps32()
    ensures Steps(INITIAL, ABC_WORDS, 32) ==
      State(0x790a77fb, 0x726342d3, 0xa62884aa, 0x9f47e4f8)
  {
    hide NewA, F, G, H, I, T, WordOf, ShiftOf, Steps;
    AbcSteps24();
    Table2();
    Sines2();
    AbcValues2();
    assert Steps(INITIAL, ABC_WORDS, 28) == State(0xb7f268cf, 0x786acb8f, 0xfe1623b1, 0x09388eff) by {
      FourSteps(INITIAL, ABC_WORDS, 24);
    }
    FourSteps(INITIAL, ABC_WORDS, 28);
  }

  lemma AbcValues3()
    ensures NewA(0x790a77fb, 0x726342d3, H(0x726342d3, 0xa62884aa, 0x9f47e4f8), 0, 4, 0xfffa3942) == 0xb3707ebf
    ensures NewA(0x9f47e4f8, 0xb3707ebf, H(0xb3707ebf, 0x726342d3, 0xa62884aa), 0, 11, 0x8771f681) == 0x60127b2e
    ensures NewA(0xa62884aa, 0x60127b2e, H(0x60127b2e, 0xb3707ebf, 0x726342d3), 0, 16, 0x6d9d6122) == 0x8d212ff5
    ensures NewA(0x726342d3, 0x8d212ff5, H(0x8d212ff5, 0x60127b2e, 0xb3707ebf), 24, 23, 0xfde5380c) == 0x3b0875c7
    ensures NewA(0xb3707ebf, 0x3b0875c7, H(0x3b0875c7, 0x8d212ff5, 0x60127b2e), 0, 4, 0xa4beea44) == 0x21b117b9
    ensures NewA(0x60127b2e, 0x21b117b9, H(0x21b117b9, 0x3b0875c7, 0x8d212ff5), 0, 11, 0x4bdecfa9) == 0x6e7429d5
    ensures NewA(0x8d212ff5, 0x6e7429d5, H(0x6e7429d5, 0x21b117b9, 0x3b0875c7), 0, 16, 0xf6bb4b60) == 0x3575227e
    ensures NewA(0x3b0875c7, 0x3575227e, H(0x3575227e, 0x6e7429d5, 0x21b117b9), 0, 23, 0xbebfbc70) == 0x5a2f5ea5
    ensures NewA(0x21b117b9, 0x5a2f5ea5, H(0x5a2f5ea5, 0x3575227e, 0x6e7429d5), 0, 4, 0x289b7ec6) == 0x11de1779
    ensures NewA(0x6e7429d5, 0x11de1779, H(0x11de1779, 0x5a2f5ea5, 0x3575227e), 0x80636261, 11, 0xeaa127fa) ==
      0xfadcaa38
    ensures NewA(0x3575227e, 0xfadcaa38, H(0xfadcaa38, 0x11de1779, 0x5a2f5ea5), 0, 16, 0xd4ef3085) == 0x31c465ca
    ensures NewA(0x5a2f5ea5, 0x31c465ca, H(0x31c465ca, 0xfadcaa38, 0x11de1779), 0, 23, 0x04881d05) == 0x4c6124f4
    ensures NewA(0x11de1779, 0x4c6124f4, H(0x4c6124f4, 0x31c465ca, 0xfadcaa38), 0, 4, 0xd9d4d039) == 0x7f2e507b
    ensures NewA(0xfadcaa38, 0x7f2e507b, H(0x7f2e507b, 0x4c6124f4, 0x31c465ca), 0, 11, 0xe6db99e5) == 0x99d9679d
    ensures NewA(0x31c465ca, 0x99d9679d, H(0x99d9679d, 0x7f2e507b, 0x4c6124f4), 0, 16, 0x1fa27cf8) == 0x8fae6399
    ensures NewA(0x4c6124f4, 0x8fae6399, H(0x8fae6399, 0x99d9679d, 0x7f2e507b), 0, 23, 0xc4ac5665) == 0x7beb9700
  {
  }

  lemma AbcSteps40()
    ensures Steps(INITIAL, ABC_WORDS, 40) ==
      State(0x21b117b9, 0x5a2f5ea5, 0x3575227e, 0x6e7429d5)
  {
    hide NewA, F, G, H, I, T, WordOf, ShiftOf, Steps;
    AbcSteps32();
    Table3();
    Sines3();
    AbcValues3();
    assert Steps(INITIAL, ABC_WORDS, 36) == State(0xb3707ebf, 0x3b0875c7, 0x8d212ff5, 0x60127b2e) by {
      FourSteps(INITIAL, ABC_WORDS, 32);
    }
    FourSteps(INITIAL, ABC_WORDS, 36);
  }

  lemma AbcSteps48()
    ensures Steps(INITIAL, ABC_WORDS, 48) ==
      State(0x7f2e507b, 0x7beb9700, 0x8fae6399, 0x99d9679d)
  {
    hide NewA, F, G, H, I, T, WordOf, ShiftOf, Steps;
    AbcSteps40();
    Table3();
    Sines3();
    AbcValues3();
    assert Steps(INITIAL, ABC_WORDS, 44) == State(0x11de1779, 0x4c6124f4, 0x31c465ca, 0xfadcaa38) by {
      FourSteps(INITIAL, ABC_WORDS, 40);
    }
    FourSteps(INITIAL, ABC_WORDS, 44);
  }

  lemma AbcValues4()
    ensures NewA(0x7f2e507b, 0x7beb9700, I(0x7beb9700, 0x8fae6399, 0x99d9679d), 0x80636261, 6, 0xf4292244) == 0x7b201df8
    ensures NewA(0x99d9679d, 0x7b201df8, I(0x7b201df8, 0x7beb9700, 0x8fae6399), 0, 10, 0x432aff97) == 0xf4e8e96e
    ensures NewA(0x8fae6399, 0xf4e8e96e, I(0xf4e8e96e, 0x7b201df8, 0x7beb9700), 24, 15, 0xab9423a7) == 0xb298cefd
    ensures NewA(0x7beb9700, 0xb298cefd, I(0xb298cefd, 0xf4e8e96e, 0x7b201df8), 0, 21, 0xfc93a039) == 0x8bf025c4
    ensures NewA(0x7b201df8, 0x8bf025c4, I(0x8bf025c4, 0xb298cefd, 0xf4e8e96e), 0, 6, 0x655b59c3) == 0x06cc5e8a
    ensures NewA(0xf4e8e96e, 0x06cc5e8a, I(0x06cc5e8a, 0x8bf025c4, 0xb298cefd), 0, 10, 0x8f0ccc92) == 0x5b0d97aa
    ensures NewA(0xb298cefd, 0x5b0d97aa, I(0x5b0d97aa, 0x06cc5e8a, 0x8bf025c4), 0, 15, 0xffeff47d) == 0x7d632dd0
    ensures NewA(0x8bf025c4, 0x7d632dd0, I(0x7d632dd0, 0x5b0d97aa, 0x06cc5e8a), 0, 21, 0x85845dd1) == 0x3bfa2c27
    ensures NewA(0x06cc5e8a, 0x3bfa2c27, I(0x3bfa2c27, 0x7d632dd0, 0x5b0d97aa), 0, 6, 0x6fa87e4f) == 0x7f81cc35
    ensures NewA(0x5b0d97aa, 0x7f81cc35, I(0x7f81cc35, 0x3bfa2c27, 0x7d632dd0), 0, 10, 0xfe2ce6e0) == 0x094454ab
    ensures NewA(0x7d632dd0, 0x094454ab, I(0x094454ab, 0x7f81cc35, 0x3bfa2c27), 0, 15, 0xa3014314) == 0x4f9dbe3f
    ensures NewA(0x3bfa2c27, 0x4f9dbe3f, I(0x4f9dbe3f, 0x094454ab, 0x7f81cc35), 0, 21, 0x4e0811a1) == 0x7327d604
    ensures NewA(0x7f81cc35, 0x7327d604, I(0x7327d604, 0x4f9dbe3f, 0x094454ab), 0, 6, 0xf7537e82) == 0x310ade8f
    ensures NewA(0x094454ab, 0x310ade8f, I(0x310ade8f, 0x7327d604, 0x4f9dbe3f), 0, 10, 0xbd3af235) == 0x624d8cb2
    ensures NewA(0x4f9dbe3f, 0x624d8cb2, I(0x624d8cb2, 0x310ade8f, 0x7327d604), 0, 15, 0x2ad7d2bb) == 0xe484b9d8
    ensures NewA(0x7327d604, 0xe484b9d8, I(0xe484b9d8, 0x624d8cb2, 0x310ade8f), 0, 21, 0xeb86d391) == 0xc08226b3
  {
  }

  lemma AbcSteps56()
    ensures Steps(INITIAL, ABC_WORDS, 56) ==
      State(0x06cc5e8a, 0x3bfa2c27, 0x7d632dd0, 0x5b0d97aa)
  {
    hide NewA, F, G, H, I, T, WordOf, ShiftOf, Steps;
    AbcSteps48();
    Table4();
    Sines4();
    AbcValues4();
    assert Steps(INITIAL, ABC_WORDS, 52) == State(0x7b201df8, 0x8bf025c4, 0xb298cefd, 0xf4e8e96e) by {
      FourSteps(INITIAL, ABC_WORDS, 48);
    }
    FourSteps(INITIAL, ABC_WORDS, 52);
  }

  lemma AbcSteps64()
    ensures Steps(INITIAL, ABC_WORDS, 64) ==
      State(0x310ade8f, 0xc08226b3, 0xe484b9d8, 0x624d8cb2)
  {
    hide NewA, F, G, H, I, T, WordOf, ShiftOf, Steps;
    AbcSteps56();
    Table4();
    Sines4();
    AbcValues4();
    assert Steps(INITIAL, ABC_WORDS, 60) == State(0x7f81cc35, 0x7327d604, 0x4f9dbe3f, 0x094454ab) by {
      FourSteps(INITIAL, ABC_WORDS, 56);
    }
    FourSteps(INITIAL, ABC_WORDS, 60);
  }

  lemma AbcCompressed()
    ensures Compress(INITIAL, ABC_WORDS) == State(0x98500190, 0xb04fd23c, 0x7d3f96d6, 0x727fe128)
  {
    hide Steps;
    AbcSteps64();
  }

  lemma AbcOctets()
    ensures Octet(0x98500190, 0) == 0x90
    ensures Octet(0x98500190, 8) == 0x01
    ensures Octet(0x98500190, 16) == 0x50
    ensures Octet(0x98500190, 24) == 0x98
    ensures Octet(0xb04fd23c, 0) == 0x3c
    ensures Octet(0xb04fd23c, 8) == 0xd2
    ensures Octet(0xb04fd23c, 16) == 0x4f
    ensures Octet(0xb04fd23c, 24) == 0xb0
    ensures Octet(0x7d3f96d6, 0) == 0xd6
    ensures Octet(0x7d3f96d6, 8) == 0x96
    ensures Octet(0x7d3f96d6, 16) == 0x3f
    ensures Octet(0x7d3f96d6, 24) == 0x7d
    ensures Octet(0x727fe128, 0) == 0x28
    ensures Octet(0x727fe128, 8) == 0xe1
    ensures Octet(0x727fe128, 16) == 0x7f
    ensures Octet(0x727fe128, 24) == 0x72
  {
  }

  lemma AbcBlock(m: octets)
    requires m == [0x61, 0x62, 0x63]
    ensures |m + Padding(|m|)| == 56
    ensures Words14(m + Padding(|m|)) + LengthWords(|m|) == ABC_WORDS
  {
    hide LengthWords;
    var last := m + Padding(|m|);
    AbcFirst();
    ShortBlock(last, 0x80636261);
    LengthWordsMean(|m|, 24, 0, 0);
  }

  lemma AbcFirst()
    ensures LittleEndian(0x61, 0x62, 0x63, 0x80) == 0x80636261
  {
  }

  /** The digest of "abc". */
  lemma AbcDigest()
    ensures Digest([0x61, 0x62, 0x63]) == [
      0x90, 0x01, 0x50, 0x98, 0x3c, 0xd2, 0x4f, 0xb0,
      0xd6, 0x96, 0x3f, 0x7d, 0x28, 0xe1, 0x7f, 0x72]
  {
    hide Compress, Output, Digest, Octet, Words14, LengthWords, Padding;
    var m: octets := [0x61, 0x62, 0x63];
    AbcBlock(m);
    var last := m + Padding(|m|);
    assert [] + last == last;
    DigestIs(m, [], last);
    NothingHashed();
    AbcCompressed();
    OutputIs(State(0x98500190, 0xb04fd23c, 0x7d3f96d6, 0x727fe128));
    AbcOctets();
  }
}
