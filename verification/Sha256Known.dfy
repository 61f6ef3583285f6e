/** What SHA-256 computes, apart from its own definition: the length in the padding, and the digest of "abc", the
    first example of FIPS 180-2 (appendix B.1). */
module Sha256Known {

  import opened Octets
  import opened Sha256

  // ----- the length

  /** The number that octets stand for, highest first. */
  function Number(s: octets): (n: nat) {
    if s == [] then 0 else 256 * Number(s[..|s| - 1]) + s[|s| - 1] as int
  }

  /** The eight octets of the length are those that stand for it, highest first. */
  lemma LengthOctetsMean(s: octets)
    requires |s| == 8
    ensures LengthOctets(Number(s)) == s
  {
    hide Number, LengthOctet, LengthOctets;
    var bits := Number(s);
    LengthOctetsAre(bits);
    assert s[..8] == s && bits / 1 == bits;
    OctetFound(s, 7, bits, 1, 0x100);
    OctetFound(s, 6, bits, 0x100, 0x1_0000);
    OctetFound(s, 5, bits, 0x1_0000, 0x100_0000);
    OctetFound(s, 4, bits, 0x100_0000, 0x1_0000_0000);
    OctetFound(s, 3, bits, 0x1_0000_0000, 0x100_0000_0000);
    OctetFound(s, 2, bits, 0x100_0000_0000, 0x1_0000_0000_0000);
    OctetFound(s, 1, bits, 0x1_0000_0000_0000, 0x100_0000_0000_0000);
    OctetFound(s, 0, bits, 0x100_0000_0000_0000, TWO64);
  }

  /** One octet of the length, and what is left for those before it. */
  lemma OctetFound(s: octets, i: nat, bits: nat, unit: nat, wider: nat)
    requires i < |s| && unit > 0 && wider == 256 * unit && bits / unit == Number(s[..i + 1])
    ensures LengthOctet(bits, unit) == s[i] && bits / wider == Number(s[..i])
  {
    hide Number;
    Appended(s, i);
    LowestOctet(Number(s[..i]), s[i]);
    NextQuotient(bits, unit, wider, Number(s[..i]), s[i] as int);
  }

  lemma NextQuotient(bits: nat, unit: nat, wider: nat, h: nat, l: nat)
    requires unit > 0 && wider == 256 * unit && l < 256 && bits / unit == 256 * h + l
    ensures bits / wider == h
  {
    var r := bits % unit;
    assert bits == unit * (256 * h + l) + r;
    assert unit * (256 * h + l) == wider * h + unit * l;
    assert unit * l <= unit * 255;
    QuotientIs(bits, wider, h, unit * l + r);
  }

  lemma Appended(s: octets, i: nat)
    requires i < |s|
    ensures Number(s[..i + 1]) == 256 * Number(s[..i]) + s[i] as int
  {
    assert s[..i + 1][..i] == s[..i];
  }

  lemma LowestOctet(h: nat, x: bv8)
    ensures ((256 * h + x as int) % 256) as bv8 == x
  {
    Lowest(h, x as int);
  }

  lemma Lowest(h: nat, l: nat)
    requires l < 256
    ensures (256 * h + l) % 256 == l
  {
  }

  lemma QuotientIs(n: nat, d: nat, q: nat, r: nat)
    requires d > 0 && n == d * q + r && r < d
    ensures n / d == q
  {
    var q', r' := n / d, n % d;
    assert n == d * q' + r';
    if q < q' {
      OneMore(d, q, q');
    } else if q' < q {
      OneMore(d, q', q);
    }
  }

  lemma OneMore(d: nat, x: nat, y: nat)
    requires x < y
    ensures d * x + d <= d * y
  {
    assert d * y == d * (x + 1) + d * (y - x - 1);
  }

  // ----- blocks and digests

  lemma ScheduleStep(block: octets, t: nat)
    requires |block| == 64 && t >= 16
    ensures Schedule(block, t) ==
      Expanded(Schedule(block, t - 2), Schedule(block, t - 7), Schedule(block, t - 15), Schedule(block, t - 16))
  {
  }

  lemma NoRounds(s: State, block: octets)
    requires |block| == 64
    ensures Rounds(s, block, 0) == s
  {
  }

  lemma RoundsStep(s: State, block: octets, n: nat)
    requires |block| == 64 && n < 64
    ensures Rounds(s, block, n + 1) == Round(Rounds(s, block, n), K(n), Schedule(block, n))
  {
  }

  /** One round, given the two sums. */
  lemma RoundIs(s: State, k: bv32, w: bv32, t1: bv32, t2: bv32)
    requires Temp1(s.e, s.f, s.g, s.h, k, w) == t1 && Temp2(s.a, s.b, s.c) == t2
    ensures Round(s, k, w) == State(Plus(t1, t2), s.a, s.b, s.c, Plus(s.d, t1), s.e, s.f, s.g)
  {
    hide Temp1, Temp2, Plus;
  }

  lemma Constants1Are()
    ensures K(0) == 0x428a2f98
    ensures K(1) == 0x71374491
    ensures K(2) == 0xb5c0fbcf
    ensures K(3) == 0xe9b5dba5
    ensures K(4) == 0x3956c25b
    ensures K(5) == 0x59f111f1
    ensures K(6) == 0x923f82a4
    ensures K(7) == 0xab1c5ed5
    ensures K(8) == 0xd807aa98
    ensures K(9) == 0x12835b01
    ensures K(10) == 0x243185be
    ensures K(11) == 0x550c7dc3
    ensures K(12) == 0x72be5d74
    ensures K(13) == 0x80deb1fe
    ensures K(14) == 0x9bdc06a7
    ensures K(15) == 0xc19bf174
  {
  }

  lemma Constants2Are()
    ensures K(16) == 0xe49b69c1
    ensures K(17) == 0xefbe4786
    ensures K(18) == 0x0fc19dc6
    ensures K(19) == 0x240ca1cc
    ensures K(20) == 0x2de92c6f
    ensures K(21) == 0x4a7484aa
    ensures K(22) == 0x5cb0a9dc
    ensures K(23) == 0x76f988da
    ensures K(24) == 0x983e5152
    ensures K(25) == 0xa831c66d
    ensures K(26) == 0xb00327c8
    ensures K(27) == 0xbf597fc7
    ensures K(28) == 0xc6e00bf3
    ensures K(29) == 0xd5a79147
    ensures K(30) == 0x06ca6351
    ensures K(31) == 0x14292967
  {
  }

  lemma Constants3Are()
    ensures K(32) == 0x27b70a85
    ensures K(33) == 0x2e1b2138
    ensures K(34) == 0x4d2c6dfc
    ensures K(35) == 0x53380d13
    ensures K(36) == 0x650a7354
    ensures K(37) == 0x766a0abb
    ensures K(38) == 0x81c2c92e
    ensures K(39) == 0x92722c85
    ensures K(40) == 0xa2bfe8a1
    ensures K(41) == 0xa81a664b
    ensures K(42) == 0xc24b8b70
    ensures K(43) == 0xc76c51a3
    ensures K(44) == 0xd192e819
    ensures K(45) == 0xd6990624
    ensures K(46) == 0xf40e3585
    ensures K(47) == 0x106aa070
  {
  }

  lemma Constants4Are()
    ensures K(48) == 0x19a4c116
    ensures K(49) == 0x1e376c08
    ensures K(50) == 0x2748774c
    ensures K(51) == 0x34b0bcb5
    ensures K(52) == 0x391c0cb3
    ensures K(53) == 0x4ed8aa4a
    ensures K(54) == 0x5b9cca4f
    ensures K(55) == 0x682e6ff3
    ensures K(56) == 0x748f82ee
    ensures K(57) == 0x78a5636f
    ensures K(58) == 0x84c87814
    ensures K(59) == 0x8cc70208
    ensures K(60) == 0x90befffa
    ensures K(61) == 0xa4506ceb
    ensures K(62) == 0xbef9a3f7
    ensures K(63) == 0xc67178f2
  {
  }

  lemma NothingHashed()
    ensures Hashed([]) == INITIAL
  {
  }

  /** The octets of the output, two words at a time. */
  lemma OutputIs(s: State)
    ensures Output(s)[..8] == HighestFirst(s.a) + HighestFirst(s.b)
    ensures Output(s)[8..16] == HighestFirst(s.c) + HighestFirst(s.d)
    ensures Output(s)[16..24] == HighestFirst(s.e) + HighestFirst(s.f)
    ensures Output(s)[24..] == HighestFirst(s.g) + HighestFirst(s.h)
  {
    hide HighestFirst, Word, Output;
    WordsInOrder(s);
    TwoWords(s, 0);
    TwoWords(s, 1);
    TwoWords(s, 2);
    TwoWords(s, 3);
  }

  function HighestFirst(x: bv32): octets { [Octet(x, 24), Octet(x, 16), Octet(x, 8), Octet(x, 0)] }

  lemma TwoWords(s: State, k: nat)
    requires k < 4
    ensures Output(s)[8 * k..8 * k + 8] == HighestFirst(Word(s, 2 * k)) + HighestFirst(Word(s, 2 * k + 1))
  {
    hide Octet, Word;
  }

  lemma WordsInOrder(s: State)
    ensures Word(s, 0) == s.a && Word(s, 1) == s.b && Word(s, 2) == s.c && Word(s, 3) == s.d
    ensures Word(s, 4) == s.e && Word(s, 5) == s.f && Word(s, 6) == s.g && Word(s, 7) == s.h
  {
  }

  // ----- the digest of "abc"

  /** The words of its one block: the message and the one bit, zeros, the length in bits. */
  ghost predicate IsAbcBlock(block: octets) {
    |block| == 64 &&
    Schedule(block, 0) == 0x61626380 && Schedule(block, 1) == 0 && Schedule(block, 2) == 0 && Schedule(block, 3) == 0 &&
    Schedule(block, 4) == 0 && Schedule(block, 5) == 0 && Schedule(block, 6) == 0 && Schedule(block, 7) == 0 &&
    Schedule(block, 8) == 0 && Schedule(block, 9) == 0 && Schedule(block, 10) == 0 && Schedule(block, 11) == 0 &&
    Schedule(block, 12) == 0 && Schedule(block, 13) == 0 && Schedule(block, 14) == 0 && Schedule(block, 15) == 0x18
  }

  lemma AbcExpanded1()
    ensures Expanded(0, 0, 0, 0x61626380) == 0x61626380
    ensures Expanded(0x18, 0, 0, 0) == 0x000f0000
    ensures Expanded(0x61626380, 0, 0, 0) == 0x7da86405
    ensures Expanded(0x000f0000, 0, 0, 0) == 0x600003c6
    ensures Expanded(0x7da86405, 0, 0, 0) == 0x3e9d7b78
    ensures Expanded(0x600003c6, 0, 0, 0) == 0x0183fc00
    ensures Expanded(0x3e9d7b78, 0x18, 0, 0) == 0x12dcbfdb
    ensures Expanded(0x0183fc00, 0x61626380, 0, 0) == 0xe2e2c38e
    ensures Expanded(0x12dcbfdb, 0x000f0000, 0, 0) == 0xc8215c1a
    ensures Expanded(0xe2e2c38e, 0x7da86405, 0, 0) == 0xb73679a2
    ensures Expanded(0xc8215c1a, 0x600003c6, 0, 0) == 0xe5bc3909
    ensures Expanded(0xb73679a2, 0x3e9d7b78, 0, 0) == 0x32663c5b
    ensures Expanded(0xe5bc3909, 0x0183fc00, 0, 0) == 0x9d209d67
    ensures Expanded(0x32663c5b, 0x12dcbfdb, 0, 0) == 0xec8726cb
    ensures Expanded(0x9d209d67, 0xe2e2c38e, 0x18, 0) == 0x702138a4
    ensures Expanded(0xec8726cb, 0xc8215c1a, 0x61626380, 0x18) == 0xd3b7973b
  {
  }

  lemma AbcSchedule1(block: octets)
    requires IsAbcBlock(block)
    ensures Schedule(block, 16) == 0x61626380
    ensures Schedule(block, 17) == 0x000f0000
    ensures Schedule(block, 18) == 0x7da86405
    ensures Schedule(block, 19) == 0x600003c6
    ensures Schedule(block, 20) == 0x3e9d7b78
    ensures Schedule(block, 21) == 0x0183fc00
    ensures Schedule(block, 22) == 0x12dcbfdb
    ensures Schedule(block, 23) == 0xe2e2c38e
    ensures Schedule(block, 24) == 0xc8215c1a
    ensures Schedule(block, 25) == 0xb73679a2
    ensures Schedule(block, 26) == 0xe5bc3909
    ensures Schedule(block, 27) == 0x32663c5b
    ensures Schedule(block, 28) == 0x9d209d67
    ensures Schedule(block, 29) == 0xec8726cb
    ensures Schedule(block, 30) == 0x702138a4
    ensures Schedule(block, 31) == 0xd3b7973b
  {
    hide Schedule, Expanded;
    AbcExpanded1();
    ScheduleStep(block, 16);
    ScheduleStep(block, 17);
    ScheduleStep(block, 18);
    ScheduleStep(block, 19);
    ScheduleStep(block, 20);
    ScheduleStep(block, 21);
    ScheduleStep(block, 22);
    ScheduleStep(block, 23);
    ScheduleStep(block, 24);
    ScheduleStep(block, 25);
    ScheduleStep(block, 26);
    ScheduleStep(block, 27);
    ScheduleStep(block, 28);
    ScheduleStep(block, 29);
    ScheduleStep(block, 30);
    ScheduleStep(block, 31);
  }

  lemma AbcExpanded2()
    ensures Expanded(0x702138a4, 0xb73679a2, 0x000f0000, 0x61626380) == 0x93f5997f
    ensures Expanded(0xd3b7973b, 0xe5bc3909, 0x7da86405, 0x000f0000) == 0x3b68ba73
    ensures Expanded(0x93f5997f, 0x32663c5b, 0x600003c6, 0x7da86405) == 0xaff4ffc1
    ensures Expanded(0x3b68ba73, 0x9d209d67, 0x3e9d7b78, 0x600003c6) == 0xf10a5c62
    ensures Expanded(0xaff4ffc1, 0xec8726cb, 0x0183fc00, 0x3e9d7b78) == 0x0a8b3996
    ensures Expanded(0xf10a5c62, 0x702138a4, 0x12dcbfdb, 0x0183fc00) == 0x72af830a
    ensures Expanded(0x0a8b3996, 0xd3b7973b, 0xe2e2c38e, 0x12dcbfdb) == 0x9409e33e
    ensures Expanded(0x72af830a, 0x93f5997f, 0xc8215c1a, 0xe2e2c38e) == 0x24641522
    ensures Expanded(0x9409e33e, 0x3b68ba73, 0xb73679a2, 0xc8215c1a) == 0x9f47bf94
    ensures Expanded(0x24641522, 0xaff4ffc1, 0xe5bc3909, 0xb73679a2) == 0xf0a64f5a
    ensures Expanded(0x9f47bf94, 0xf10a5c62, 0x32663c5b, 0xe5bc3909) == 0x3e246a79
    ensures Expanded(0xf0a64f5a, 0x0a8b3996, 0x9d209d67, 0x32663c5b) == 0x27333ba3
    ensures Expanded(0x3e246a79, 0x72af830a, 0xec8726cb, 0x9d209d67) == 0x0c4763f2
    ensures Expanded(0x27333ba3, 0x9409e33e, 0x702138a4, 0xec8726cb) == 0x840abf27
    ensures Expanded(0x0c4763f2, 0x24641522, 0xd3b7973b, 0x702138a4) == 0x7a290d5d
    ensures Expanded(0x840abf27, 0x9f47bf94, 0x93f5997f, 0xd3b7973b) == 0x065c43da
  {
  }

  lemma AbcSchedule2(block: octets)
    requires IsAbcBlock(block)
    ensures Schedule(block, 32) == 0x93f5997f
    ensures Schedule(block, 33) == 0x3b68ba73
    ensures Schedule(block, 34) == 0xaff4ffc1
    ensures Schedule(block, 35) == 0xf10a5c62
    ensures Schedule(block, 36) == 0x0a8b3996
    ensures Schedule(block, 37) == 0x72af830a
    ensures Schedule(block, 38) == 0x9409e33e
    ensures Schedule(block, 39) == 0x24641522
    ensures Schedule(block, 40) == 0x9f47bf94
    ensures Schedule(block, 41) == 0xf0a64f5a
    ensures Schedule(block, 42) == 0x3e246a79
    ensures Schedule(block, 43) == 0x27333ba3
    ensures Schedule(block, 44) == 0x0c4763f2
    ensures Schedule(block, 45) == 0x840abf27
    ensures Schedule(block, 46) == 0x7a290d5d
    ensures Schedule(block, 47) == 0x065c43da
  {
    hide Schedule, Expanded;
    AbcSchedule1(block);
    AbcExpanded2();
    ScheduleStep(block, 32);
    ScheduleStep(block, 33);
    ScheduleStep(block, 34);
    ScheduleStep(block, 35);
    ScheduleStep(block, 36);
    ScheduleStep(block, 37);
    ScheduleStep(block, 38);
    ScheduleStep(block, 39);
    ScheduleStep(block, 40);
    ScheduleStep(block, 41);
    ScheduleStep(block, 42);
    ScheduleStep(block, 43);
    ScheduleStep(block, 44);
    ScheduleStep(block, 45);
    ScheduleStep(block, 46);
    ScheduleStep(block, 47);
  }

  lemma AbcExpanded3()
    ensures Expanded(0x7a290d5d, 0xf0a64f5a, 0x3b68ba73, 0x93f5997f) == 0xfb3e89cb
    ensures Expanded(0x065c43da, 0x3e246a79, 0xaff4ffc1, 0x3b68ba73) == 0xcc7617db
    ensures Expanded(0xfb3e89cb, 0x27333ba3, 0xf10a5c62, 0xaff4ffc1) == 0xb9e66c34
    ensures Expanded(0xcc7617db, 0x0c4763f2, 0x0a8b3996, 0xf10a5c62) == 0xa9993667
    ensures Expanded(0xb9e66c34, 0x840abf27, 0x72af830a, 0x0a8b3996) == 0x84badedd
    ensures Expanded(0xa9993667, 0x7a290d5d, 0x9409e33e, 0x72af830a) == 0xc21462bc
    ensures Expanded(0x84badedd, 0x065c43da, 0x24641522, 0x9409e33e) == 0x1487472c
    ensures Expanded(0xc21462bc, 0xfb3e89cb, 0x9f47bf94, 0x24641522) == 0xb20f7a99
    ensures Expanded(0x1487472c, 0xcc7617db, 0xf0a64f5a, 0x9f47bf94) == 0xef57b9cd
    ensures Expanded(0xb20f7a99, 0xb9e66c34, 0x3e246a79, 0xf0a64f5a) == 0xebe6b238
    ensures Expanded(0xef57b9cd, 0xa9993667, 0x27333ba3, 0x3e246a79) == 0x9fe3095e
    ensures Expanded(0xebe6b238, 0x84badedd, 0x0c4763f2, 0x27333ba3) == 0x78bc8d4b
    ensures Expanded(0x9fe3095e, 0xc21462bc, 0x840abf27, 0x0c4763f2) == 0xa43fcf15
    ensures Expanded(0x78bc8d4b, 0x1487472c, 0x7a290d5d, 0x840abf27) == 0x668b2ff8
    ensures Expanded(0xa43fcf15, 0xb20f7a99, 0x065c43da, 0x7a290d5d) == 0xeeaba2cc
    ensures Expanded(0x668b2ff8, 0xef57b9cd, 0xfb3e89cb, 0x065c43da) == 0x12b1edeb
  {
  }

  lemma AbcSchedule3(block: octets)
    requires IsAbcBlock(block)
    ensures Schedule(block, 48) == 0xfb3e89cb
    ensures Schedule(block, 49) == 0xcc7617db
    ensures Schedule(block, 50) == 0xb9e66c34
    ensures Schedule(block, 51) == 0xa9993667
    ensures Schedule(block, 52) == 0x84badedd
    ensures Schedule(block, 53) == 0xc21462bc
    ensures Schedule(block, 54) == 0x1487472c
    ensures Schedule(block, 55) == 0xb20f7a99
    ensures Schedule(block, 56) == 0xef57b9cd
    ensures Schedule(block, 57) == 0xebe6b238
    ensures Schedule(block, 58) == 0x9fe3095e
    ensures Schedule(block, 59) == 0x78bc8d4b
    ensures Schedule(block, 60) == 0xa43fcf15
    ensures Schedule(block, 61) == 0x668b2ff8
    ensures Schedule(block, 62) == 0xeeaba2cc
    ensures Schedule(block, 63) == 0x12b1edeb
  {
    hide Schedule, Expanded;
    AbcSchedule2(block);
    AbcExpanded3();
    ScheduleStep(block, 48);
    ScheduleStep(block, 49);
    ScheduleStep(block, 50);
    ScheduleStep(block, 51);
    ScheduleStep(block, 52);
    ScheduleStep(block, 53);
    ScheduleStep(block, 54);
    ScheduleStep(block, 55);
    ScheduleStep(block, 56);
    ScheduleStep(block, 57);
    ScheduleStep(block, 58);
    ScheduleStep(block, 59);
    ScheduleStep(block, 60);
    ScheduleStep(block, 61);
    ScheduleStep(block, 62);
    ScheduleStep(block, 63);
  }

  lemma AbcFirstSums16()
    ensures Temp1(0x510e527f, 0x9b05688c, 0x1f83d9ab, 0x5be0cd19, 0x428a2f98, 0x61626380) == 0x54da50e8
    ensures Temp1(0xfa2a4622, 0x510e527f, 0x9b05688c, 0x1f83d9ab, 0x71374491, 0) == 0x3c5f8617
    ensures Temp1(0x78ce7989, 0xfa2a4622, 0x510e527f, 0x9b05688c, 0xb5c0fbcf, 0) == 0x3dc18b66
    ensures Temp1(0xf92939eb, 0x78ce7989, 0xfa2a4622, 0x510e527f, 0xe9b5dba5, 0) == 0xbad621e9
    ensures Temp1(0x24e00850, 0xf92939eb, 0x78ce7989, 0xfa2a4622, 0x3956c25b, 0) == 0xe642b678
    ensures Temp1(0x43ada245, 0x24e00850, 0xf92939eb, 0x78ce7989, 0x59f111f1, 0) == 0x16d78700
    ensures Temp1(0x714260ad, 0x43ada245, 0x24e00850, 0xf92939eb, 0x923f82a4, 0) == 0xd2645c5a
    ensures Temp1(0x9b27a401, 0x714260ad, 0x43ada245, 0x24e00850, 0xab1c5ed5, 0) == 0x37148413
    ensures Temp1(0x0c657a79, 0x9b27a401, 0x714260ad, 0x43ada245, 0xd807aa98, 0) == 0x2e899322
    ensures Temp1(0x32ca2d8c, 0x0c657a79, 0x9b27a401, 0x714260ad, 0x12835b01, 0) == 0xf1871ba1
    ensures Temp1(0x1cc92596, 0x32ca2d8c, 0x0c657a79, 0x9b27a401, 0x243185be, 0) == 0x5e682068
    ensures Temp1(0x436b23e8, 0x1cc92596, 0x32ca2d8c, 0x0c657a79, 0x550c7dc3, 0) == 0xfbcf5b8a
    ensures Temp1(0x816fd6e9, 0x436b23e8, 0x1cc92596, 0x32ca2d8c, 0x72be5d74, 0) == 0x9052955f
    ensures Temp1(0x1e578218, 0x816fd6e9, 0x436b23e8, 0x1cc92596, 0x80deb1fe, 0) == 0xe7d31473
    ensures Temp1(0x745a48de, 0x1e578218, 0x816fd6e9, 0x436b23e8, 0x9bdc06a7, 0) == 0xc3fa4e18
    ensures Temp1(0x0b92f20c, 0x745a48de, 0x1e578218, 0x816fd6e9, 0xc19bf174, 0x18) == 0x10394824
  {
  }

  lemma AbcSecondSums16()
    ensures Temp2(0x6a09e667, 0xbb67ae85, 0x3c6ef372) == 0x08909ae5
    ensures Temp2(0x5d6aebcd, 0x6a09e667, 0xbb67ae85) == 0x1e0b5396
    ensures Temp2(0x5a6ad9ad, 0x5d6aebcd, 0x6a09e667) == 0x8b01bc41
    ensures Temp2(0xc8c347a7, 0x5a6ad9ad, 0x5d6aebcd) == 0x1a7ad47d
    ensures Temp2(0xd550f666, 0xc8c347a7, 0x5a6ad9ad) == 0x1dfde3f2
    ensures Temp2(0x04409a6a, 0xd550f666, 0xc8c347a7) == 0x146a82f5
    ensures Temp2(0x2b4209f5, 0x04409a6a, 0xd550f666) == 0x129ea726
    ensures Temp2(0xe5030380, 0x2b4209f5, 0x04409a6a) == 0x4e8bf74c
    ensures Temp2(0x85a07b5f, 0xe5030380, 0x2b4209f5) == 0x5f7b5997
    ensures Temp2(0x8e04ecb9, 0x85a07b5f, 0xe5030380) == 0x9b0018ca
    ensures Temp2(0x8c87346b, 0x8e04ecb9, 0x85a07b5f) == 0xe930838c
    ensures Temp2(0x4798a3f4, 0x8c87346b, 0x8e04ecb9) == 0xfb506a1f
    ensures Temp2(0xf71fc5a9, 0x4798a3f4, 0x8c87346b) == 0xf73e9431
    ensures Temp2(0x87912990, 0xf71fc5a9, 0x4798a3f4) == 0xf15fd6a3
    ensures Temp2(0xd932eb16, 0x87912990, 0xf71fc5a9) == 0xfc6a11c6
    ensures Temp2(0xc0645fde, 0xd932eb16, 0x87912990) == 0xa0c0db6a
  {
  }

  lemma AbcNext16()
    ensures Plus(0x54da50e8, 0x08909ae5) == 0x5d6aebcd && Plus(0xa54ff53a, 0x54da50e8) == 0xfa2a4622
    ensures Plus(0x3c5f8617, 0x1e0b5396) == 0x5a6ad9ad && Plus(0x3c6ef372, 0x3c5f8617) == 0x78ce7989
    ensures Plus(0x3dc18b66, 0x8b01bc41) == 0xc8c347a7 && Plus(0xbb67ae85, 0x3dc18b66) == 0xf92939eb
    ensures Plus(0xbad621e9, 0x1a7ad47d) == 0xd550f666 && Plus(0x6a09e667, 0xbad621e9) == 0x24e00850
    ensures Plus(0xe642b678, 0x1dfde3f2) == 0x04409a6a && Plus(0x5d6aebcd, 0xe642b678) == 0x43ada245
    ensures Plus(0x16d78700, 0x146a82f5) == 0x2b4209f5 && Plus(0x5a6ad9ad, 0x16d78700) == 0x714260ad
    ensures Plus(0xd2645c5a, 0x129ea726) == 0xe5030380 && Plus(0xc8c347a7, 0xd2645c5a) == 0x9b27a401
    ensures Plus(0x37148413, 0x4e8bf74c) == 0x85a07b5f && Plus(0xd550f666, 0x37148413) == 0x0c657a79
    ensures Plus(0x2e899322, 0x5f7b5997) == 0x8e04ecb9 && Plus(0x04409a6a, 0x2e899322) == 0x32ca2d8c
    ensures Plus(0xf1871ba1, 0x9b0018ca) == 0x8c87346b && Plus(0x2b4209f5, 0xf1871ba1) == 0x1cc92596
    ensures Plus(0x5e682068, 0xe930838c) == 0x4798a3f4 && Plus(0xe5030380, 0x5e682068) == 0x436b23e8
    ensures Plus(0xfbcf5b8a, 0xfb506a1f) == 0xf71fc5a9 && Plus(0x85a07b5f, 0xfbcf5b8a) == 0x816fd6e9
    ensures Plus(0x9052955f, 0xf73e9431) == 0x87912990 && Plus(0x8e04ecb9, 0x9052955f) == 0x1e578218
    ensures Plus(0xe7d31473, 0xf15fd6a3) == 0xd932eb16 && Plus(0x8c87346b, 0xe7d31473) == 0x745a48de
    ensures Plus(0xc3fa4e18, 0xfc6a11c6) == 0xc0645fde && Plus(0x4798a3f4, 0xc3fa4e18) == 0x0b92f20c
    ensures Plus(0x10394824, 0xa0c0db6a) == 0xb0fa238e && Plus(0xf71fc5a9, 0x10394824) == 0x07590dcd
  {
  }

  lemma AbcRounds16(block: octets)
    requires IsAbcBlock(block)
    ensures Rounds(INITIAL, block, 16) ==
      State(0xb0fa238e, 0xc0645fde, 0xd932eb16, 0x87912990, 0x07590dcd, 0x0b92f20c, 0x745a48de, 0x1e578218)
  {
    hide Rounds, Round, K, Schedule, Temp1, Temp2, Plus;
    NoRounds(INITIAL, block);
    Constants1Are();
    AbcFirstSums16();
    AbcSecondSums16();
    AbcNext16();
    RoundsStep(INITIAL, block, 0);
    RoundIs(Rounds(INITIAL, block, 0), 0x428a2f98, 0x61626380, 0x54da50e8, 0x08909ae5);
    RoundsStep(INITIAL, block, 1);
    RoundIs(Rounds(INITIAL, block, 1), 0x71374491, 0, 0x3c5f8617, 0x1e0b5396);
    RoundsStep(INITIAL, block, 2);
    RoundIs(Rounds(INITIAL, block, 2), 0xb5c0fbcf, 0, 0x3dc18b66, 0x8b01bc41);
    RoundsStep(INITIAL, block, 3);
    RoundIs(Rounds(INITIAL, block, 3), 0xe9b5dba5, 0, 0xbad621e9, 0x1a7ad47d);
    RoundsStep(INITIAL, block, 4);
    RoundIs(Rounds(INITIAL, block, 4), 0x3956c25b, 0, 0xe642b678, 0x1dfde3f2);
    RoundsStep(INITIAL, block, 5);
    RoundIs(Rounds(INITIAL, block, 5), 0x59f111f1, 0, 0x16d78700, 0x146a82f5);
    RoundsStep(INITIAL, block, 6);
    RoundIs(Rounds(INITIAL, block, 6), 0x923f82a4, 0, 0xd2645c5a, 0x129ea726);
    RoundsStep(INITIAL, block, 7);
    RoundIs(Rounds(INITIAL, block, 7), 0xab1c5ed5, 0, 0x37148413, 0x4e8bf74c);
    RoundsStep(INITIAL, block, 8);
    RoundIs(Rounds(INITIAL, block, 8), 0xd807aa98, 0, 0x2e899322, 0x5f7b5997);
    RoundsStep(INITIAL, block, 9);
    RoundIs(Rounds(INITIAL, block, 9), 0x12835b01, 0, 0xf1871ba1, 0x9b0018ca);
    RoundsStep(INITIAL, block, 10);
    RoundIs(Rounds(INITIAL, block, 10), 0x243185be, 0, 0x5e682068, 0xe930838c);
    RoundsStep(INITIAL, block, 11);
    RoundIs(Rounds(INITIAL, block, 11), 0x550c7dc3, 0, 0xfbcf5b8a, 0xfb506a1f);
    RoundsStep(INITIAL, block, 12);
    RoundIs(Rounds(INITIAL, block, 12), 0x72be5d74, 0, 0x9052955f, 0xf73e9431);
    RoundsStep(INITIAL, block, 13);
    RoundIs(Rounds(INITIAL, block, 13), 0x80deb1fe, 0, 0xe7d31473, 0xf15fd6a3);
    RoundsStep(INITIAL, block, 14);
    RoundIs(Rounds(INITIAL, block, 14), 0x9bdc06a7, 0, 0xc3fa4e18, 0xfc6a11c6);
    RoundsStep(INITIAL, block, 15);
    RoundIs(Rounds(INITIAL, block, 15), 0xc19bf174, 0x18, 0x10394824, 0xa0c0db6a);
  }

  lemma AbcFirstSums32()
    ensures Temp1(0x07590dcd, 0x0b92f20c, 0x745a48de, 0x1e578218, 0xe49b69c1, 0x61626380) == 0xf8a2f90c
    ensures Temp1(0x8034229c, 0x07590dcd, 0x0b92f20c, 0x745a48de, 0xefbe4786, 0x000f0000) == 0xab3bf93e
    ensures Temp1(0x846ee454, 0x8034229c, 0x07590dcd, 0x0b92f20c, 0x0fc19dc6, 0x7da86405) == 0x0c253983
    ensures Temp1(0xcc899961, 0x846ee454, 0x8034229c, 0x07590dcd, 0x240ca1cc, 0x600003c6) == 0xff695deb
    ensures Temp1(0xb0638179, 0xcc899961, 0x846ee454, 0x8034229c, 0x2de92c6f, 0x3e9d7b78) == 0x68ffee95
    ensures Temp1(0x8ada8930, 0xb0638179, 0xcc899961, 0x846ee454, 0x4a7484aa, 0x0183fc00) == 0x1e299f9f
    ensures Temp1(0xe1257970, 0x8ada8930, 0xb0638179, 0xcc899961, 0x5cb0a9dc, 0x12dcbfdb) == 0x4b7d958b
    ensures Temp1(0x49f5114a, 0xe1257970, 0x8ada8930, 0xb0638179, 0x76f988da, 0xe2e2c38e) == 0xc855b714
    ensures Temp1(0xaa47c347, 0x49f5114a, 0xe1257970, 0x8ada8930, 0x983e5152, 0xc8215c1a) == 0x8a5d642e
    ensures Temp1(0x2823ef91, 0xaa47c347, 0x49f5114a, 0xe1257970, 0xa831c66d, 0xb73679a2) == 0x51d7d021
    ensures Temp1(0x14383d8e, 0x2823ef91, 0xaa47c347, 0x49f5114a, 0xb00327c8, 0xe5bc3909) == 0x1fa902d7
    ensures Temp1(0xc74c6516, 0x14383d8e, 0x2823ef91, 0xaa47c347, 0xbf597fc7, 0x32663c5b) == 0x282a826b
    ensures Temp1(0xedffbff8, 0xc74c6516, 0x14383d8e, 0x2823ef91, 0xc6e00bf3, 0x9d209d67) == 0x44e67b7f
    ensures Temp1(0x6112a3b7, 0xedffbff8, 0xc74c6516, 0x14383d8e, 0xd5a79147, 0xec8726cb) == 0xdfff90ba
    ensures Temp1(0xade79437, 0x6112a3b7, 0xedffbff8, 0xc74c6516, 0x06ca6351, 0x702138a4) == 0x4adae67e
    ensures Temp1(0x0109ab3a, 0xade79437, 0x6112a3b7, 0xedffbff8, 0x14292967, 0xd3b7973b) == 0x42859bea
  {
  }

  lemma AbcSecondSums32()
    ensures Temp2(0xb0fa238e, 0xc0645fde, 0xd932eb16) == 0x2937a18f
    ensures Temp2(0x21da9a9b, 0xb0fa238e, 0xc0645fde) == 0x17bfe093
    ensures Temp2(0xc2fbd9d1, 0x21da9a9b, 0xb0fa238e) == 0xf252423c
    ensures Temp2(0xfe777bbf, 0xc2fbd9d1, 0x21da9a9b) == 0xe288ae48
    ensures Temp2(0xe1f20c33, 0xfe777bbf, 0xc2fbd9d1) == 0x34c69cce
    ensures Temp2(0x9dc68b63, 0xe1f20c33, 0xfe777bbf) == 0xa436cdce
    ensures Temp2(0xc2606d6d, 0x9dc68b63, 0xe1f20c33) == 0x5c25ccb4
    ensures Temp2(0xa7a3623f, 0xc2606d6d, 0x9dc68b63) == 0xfd7f8679
    ensures Temp2(0xc5d53d8d, 0xa7a3623f, 0xc2606d6d) == 0x91cec40a
    ensures Temp2(0x1c2c2838, 0xc5d53d8d, 0xa7a3623f) == 0x7c10335c
    ensures Temp2(0xcde8037d, 0x1c2c2838, 0xc5d53d8d) == 0x9685c1e5
    ensures Temp2(0xb62ec4bc, 0xcde8037d, 0x1c2c2838) == 0x4fa8f2bd
    ensures Temp2(0x77d37528, 0xb62ec4bc, 0xcde8037d) == 0xf14e074a
    ensures Temp2(0x363482c9, 0x77d37528, 0xb62ec4bc) == 0xc0067a76
    ensures Temp2(0xa0060b30, 0x363482c9, 0x77d37528) == 0x9fbe43a4
    ensures Temp2(0xea992a22, 0xa0060b30, 0x363482c9) == 0x312da00b
  {
  }

  lemma AbcNext32()
    ensures Plus(0xf8a2f90c, 0x2937a18f) == 0x21da9a9b && Plus(0x87912990, 0xf8a2f90c) == 0x8034229c
    ensures Plus(0xab3bf93e, 0x17bfe093) == 0xc2fbd9d1 && Plus(0xd932eb16, 0xab3bf93e) == 0x846ee454
    ensures Plus(0x0c253983, 0xf252423c) == 0xfe777bbf && Plus(0xc0645fde, 0x0c253983) == 0xcc899961
    ensures Plus(0xff695deb, 0xe288ae48) == 0xe1f20c33 && Plus(0xb0fa238e, 0xff695deb) == 0xb0638179
    ensures Plus(0x68ffee95, 0x34c69cce) == 0x9dc68b63 && Plus(0x21da9a9b, 0x68ffee95) == 0x8ada8930
    ensures Plus(0x1e299f9f, 0xa436cdce) == 0xc2606d6d && Plus(0xc2fbd9d1, 0x1e299f9f) == 0xe1257970
    ensures Plus(0x4b7d958b, 0x5c25ccb4) == 0xa7a3623f && Plus(0xfe777bbf, 0x4b7d958b) == 0x49f5114a
    ensures Plus(0xc855b714, 0xfd7f8679) == 0xc5d53d8d && Plus(0xe1f20c33, 0xc855b714) == 0xaa47c347
    ensures Plus(0x8a5d642e, 0x91cec40a) == 0x1c2c2838 && Plus(0x9dc68b63, 0x8a5d642e) == 0x2823ef91
    ensures Plus(0x51d7d021, 0x7c10335c) == 0xcde8037d && Plus(0xc2606d6d, 0x51d7d021) == 0x14383d8e
    ensures Plus(0x1fa902d7, 0x9685c1e5) == 0xb62ec4bc && Plus(0xa7a3623f, 0x1fa902d7) == 0xc74c6516
    ensures Plus(0x282a826b, 0x4fa8f2bd) == 0x77d37528 && Plus(0xc5d53d8d, 0x282a826b) == 0xedffbff8
    ensures Plus(0x44e67b7f, 0xf14e074a) == 0x363482c9 && Plus(0x1c2c2838, 0x44e67b7f) == 0x6112a3b7
    ensures Plus(0xdfff90ba, 0xc0067a76) == 0xa0060b30 && Plus(0xcde8037d, 0xdfff90ba) == 0xade79437
    ensures Plus(0x4adae67e, 0x9fbe43a4) == 0xea992a22 && Plus(0xb62ec4bc, 0x4adae67e) == 0x0109ab3a
    ensures Plus(0x42859bea, 0x312da00b) == 0x73b33bf5 && Plus(0x77d37528, 0x42859bea) == 0xba591112
  {
  }

  lemma AbcRounds32(block: octets)
    requires IsAbcBlock(block)
    ensures Rounds(INITIAL, block, 32) ==
      State(0x73b33bf5, 0xea992a22, 0xa0060b30, 0x363482c9, 0xba591112, 0x0109ab3a, 0xade79437, 0x6112a3b7)
  {
    hide Rounds, Round, K, Schedule, Temp1, Temp2, Plus;
    AbcRounds16(block);
    Constants2Are();
    AbcSchedule1(block);
    AbcFirstSums32();
    AbcSecondSums32();
    AbcNext32();
    RoundsStep(INITIAL, block, 16);
    RoundIs(Rounds(INITIAL, block, 16), 0xe49b69c1, 0x61626380, 0xf8a2f90c, 0x2937a18f);
    RoundsStep(INITIAL, block, 17);
    RoundIs(Rounds(INITIAL, block, 17), 0xefbe4786, 0x000f0000, 0xab3bf93e, 0x17bfe093);
    RoundsStep(INITIAL, block, 18);
    RoundIs(Rounds(INITIAL, block, 18), 0x0fc19dc6, 0x7da86405, 0x0c253983, 0xf252423c);
    RoundsStep(INITIAL, block, 19);
    RoundIs(Rounds(INITIAL, block, 19), 0x240ca1cc, 0x600003c6, 0xff695deb, 0xe288ae48);
    RoundsStep(INITIAL, block, 20);
    RoundIs(Rounds(INITIAL, block, 20), 0x2de92c6f, 0x3e9d7b78, 0x68ffee95, 0x34c69cce);
    RoundsStep(INITIAL, block, 21);
    RoundIs(Rounds(INITIAL, block, 21), 0x4a7484aa, 0x0183fc00, 0x1e299f9f, 0xa436cdce);
    RoundsStep(INITIAL, block, 22);
    RoundIs(Rounds(INITIAL, block, 22), 0x5cb0a9dc, 0x12dcbfdb, 0x4b7d958b, 0x5c25ccb4);
    RoundsStep(INITIAL, block, 23);
    RoundIs(Rounds(INITIAL, block, 23), 0x76f988da, 0xe2e2c38e, 0xc855b714, 0xfd7f8679);
    RoundsStep(INITIAL, block, 24);
    RoundIs(Rounds(INITIAL, block, 24), 0x983e5152, 0xc8215c1a, 0x8a5d642e, 0x91cec40a);
    RoundsStep(INITIAL, block, 25);
    RoundIs(Rounds(INITIAL, block, 25), 0xa831c66d, 0xb73679a2, 0x51d7d021, 0x7c10335c);
    RoundsStep(INITIAL, block, 26);
    RoundIs(Rounds(INITIAL, block, 26), 0xb00327c8, 0xe5bc3909, 0x1fa902d7, 0x9685c1e5);
    RoundsStep(INITIAL, block, 27);
    RoundIs(Rounds(INITIAL, block, 27), 0xbf597fc7, 0x32663c5b, 0x282a826b, 0x4fa8f2bd);
    RoundsStep(INITIAL, block, 28);
    RoundIs(Rounds(INITIAL, block, 28), 0xc6e00bf3, 0x9d209d67, 0x44e67b7f, 0xf14e074a);
    RoundsStep(INITIAL, block, 29);
    RoundIs(Rounds(INITIAL, block, 29), 0xd5a79147, 0xec8726cb, 0xdfff90ba, 0xc0067a76);
    RoundsStep(INITIAL, block, 30);
    RoundIs(Rounds(INITIAL, block, 30), 0x06ca6351, 0x702138a4, 0x4adae67e, 0x9fbe43a4);
    RoundsStep(INITIAL, block, 31);
    RoundIs(Rounds(INITIAL, block, 31), 0x14292967, 0xd3b7973b, 0x42859bea, 0x312da00b);
  }

  lemma AbcFirstSums48()
    ensures Temp1(0xba591112, 0x0109ab3a, 0xade79437, 0x6112a3b7, 0x27b70a85, 0x93f5997f) == 0x66a5732d
    ensures Temp1(0x9cd9f5f6, 0xba591112, 0x0109ab3a, 0xade79437, 0x2e1b2138, 0x3b68ba73) == 0xb91e92a3
    ensures Temp1(0x59249dd3, 0x9cd9f5f6, 0xba591112, 0x0109ab3a, 0x4d2c6dfc, 0xaff4ffc1) == 0x1dc60e11
    ensures Temp1(0x085f3833, 0x59249dd3, 0x9cd9f5f6, 0xba591112, 0x53380d13, 0xf10a5c62) == 0x80fcc6e1
    ensures Temp1(0xf4b002d6, 0x085f3833, 0x59249dd3, 0x9cd9f5f6, 0x650a7354, 0x0a8b3996) == 0x6e917d64
    ensures Temp1(0x0772a26b, 0xf4b002d6, 0x085f3833, 0x59249dd3, 0x766a0abb, 0x72af830a) == 0xa6a75748
    ensures Temp1(0xa507a53d, 0x0772a26b, 0xf4b002d6, 0x085f3833, 0x81c2c92e, 0x9409e33e) == 0x46d0a83c
    ensures Temp1(0xf0781bc8, 0xa507a53d, 0x0772a26b, 0xf4b002d6, 0x92722c85, 0x24641522) == 0xb95af0bc
    ensures Temp1(0x1efbc0a0, 0xf0781bc8, 0xa507a53d, 0x0772a26b, 0xa2bfe8a1, 0x9f47bf94) == 0xe48ed0b2
    ensures Temp1(0x26352d63, 0x1efbc0a0, 0xf0781bc8, 0xa507a53d, 0xa81a664b, 0xf0a64f5a) == 0x4eac110d
    ensures Temp1(0x838b2711, 0x26352d63, 0x1efbc0a0, 0xf0781bc8, 0xc24b8b70, 0x3e246a79) == 0x7107cc8b
    ensures Temp1(0xdecd4715, 0x838b2711, 0x26352d63, 0x1efbc0a0, 0xc76c51a3, 0x27333ba3) == 0x83b7e3b4
    ensures Temp1(0xfda24c2e, 0xdecd4715, 0x838b2711, 0x26352d63, 0xd192e819, 0x0c4763f2) == 0xd1a80a8a
    ensures Temp1(0xa80f11f0, 0xfda24c2e, 0xdecd4715, 0x838b2711, 0xd6990624, 0x840abf27) == 0xd82ef872
    ensures Temp1(0xb7755da1, 0xa80f11f0, 0xfda24c2e, 0xdecd4715, 0xf40e3585, 0x7a290d5d) == 0xbdd186ab
    ensures Temp1(0xd57b94a9, 0xb7755da1, 0xa80f11f0, 0xfda24c2e, 0x106aa070, 0x065c43da) == 0x61835c33
  {
  }

  lemma AbcSecondSums48()
    ensures Temp2(0x73b33bf5, 0xea992a22, 0xa0060b30) == 0x323bb1da
    ensures Temp2(0x98e12507, 0x73b33bf5, 0xea992a22) == 0x4541bb52
    ensures Temp2(0xfe604df5, 0x98e12507, 0x73b33bf5) == 0x8be1657b
    ensures Temp2(0xa9a7738c, 0xfe604df5, 0x98e12507) == 0xe4a40903
    ensures Temp2(0x65a0cfe4, 0xa9a7738c, 0xfe604df5) == 0xd314df4d
    ensures Temp2(0x41a65cb1, 0x65a0cfe4, 0xa9a7738c) == 0x8e37bebc
    ensures Temp2(0x34df1604, 0x41a65cb1, 0x65a0cfe4) == 0x26f4d24e
    ensures Temp2(0x6dc57a8a, 0x34df1604, 0x41a65cb1) == 0xc08f77be
    ensures Temp2(0x79ea687a, 0x6dc57a8a, 0x34df1604) == 0xf1d836b4
    ensures Temp2(0xd6670766, 0x79ea687a, 0x6dc57a8a) == 0x909a5422
    ensures Temp2(0xdf46652f, 0xd6670766, 0x79ea687a) == 0xa6a24173
    ensures Temp2(0x17aa0dfe, 0xdf46652f, 0xd6670766) == 0x1993cbdf
    ensures Temp2(0x9d4baf93, 0x17aa0dfe, 0xdf46652f) == 0x54ba7d8b
    ensures Temp2(0x26628815, 0x9d4baf93, 0x17aa0dfe) == 0x9a7c531f
    ensures Temp2(0x72ab4b91, 0x26628815, 0x9d4baf93) == 0xe37a8e05
    ensures Temp2(0xa14c14b0, 0x72ab4b91, 0x26628815) == 0xdfeed65a
  {
  }

  lemma AbcNext48()
    ensures Plus(0x66a5732d, 0x323bb1da) == 0x98e12507 && Plus(0x363482c9, 0x66a5732d) == 0x9cd9f5f6
    ensures Plus(0xb91e92a3, 0x4541bb52) == 0xfe604df5 && Plus(0xa0060b30, 0xb91e92a3) == 0x59249dd3
    ensures Plus(0x1dc60e11, 0x8be1657b) == 0xa9a7738c && Plus(0xea992a22, 0x1dc60e11) == 0x085f3833
    ensures Plus(0x80fcc6e1, 0xe4a40903) == 0x65a0cfe4 && Plus(0x73b33bf5, 0x80fcc6e1) == 0xf4b002d6
    ensures Plus(0x6e917d64, 0xd314df4d) == 0x41a65cb1 && Plus(0x98e12507, 0x6e917d64) == 0x0772a26b
    ensures Plus(0xa6a75748, 0x8e37bebc) == 0x34df1604 && Plus(0xfe604df5, 0xa6a75748) == 0xa507a53d
    ensures Plus(0x46d0a83c, 0x26f4d24e) == 0x6dc57a8a && Plus(0xa9a7738c, 0x46d0a83c) == 0xf0781bc8
    ensures Plus(0xb95af0bc, 0xc08f77be) == 0x79ea687a && Plus(0x65a0cfe4, 0xb95af0bc) == 0x1efbc0a0
    ensures Plus(0xe48ed0b2, 0xf1d836b4) == 0xd6670766 && Plus(0x41a65cb1, 0xe48ed0b2) == 0x26352d63
    ensures Plus(0x4eac110d, 0x909a5422) == 0xdf46652f && Plus(0x34df1604, 0x4eac110d) == 0x838b2711
    ensures Plus(0x7107cc8b, 0xa6a24173) == 0x17aa0dfe && Plus(0x6dc57a8a, 0x7107cc8b) == 0xdecd4715
    ensures Plus(0x83b7e3b4, 0x1993cbdf) == 0x9d4baf93 && Plus(0x79ea687a, 0x83b7e3b4) == 0xfda24c2e
    ensures Plus(0xd1a80a8a, 0x54ba7d8b) == 0x26628815 && Plus(0xd6670766, 0xd1a80a8a) == 0xa80f11f0
    ensures Plus(0xd82ef872, 0x9a7c531f) == 0x72ab4b91 && Plus(0xdf46652f, 0xd82ef872) == 0xb7755da1
    ensures Plus(0xbdd186ab, 0xe37a8e05) == 0xa14c14b0 && Plus(0x17aa0dfe, 0xbdd186ab) == 0xd57b94a9
    ensures Plus(0x61835c33, 0xdfeed65a) == 0x4172328d && Plus(0x9d4baf93, 0x61835c33) == 0xfecf0bc6
  {
  }

  lemma AbcRounds48(block: octets)
    requires IsAbcBlock(block)
    ensures Rounds(INITIAL, block, 48) ==
      State(0x4172328d, 0xa14c14b0, 0x72ab4b91, 0x26628815, 0xfecf0bc6, 0xd57b94a9, 0xb7755da1, 0xa80f11f0)
  {
    hide Rounds, Round, K, Schedule, Temp1, Temp2, Plus;
    AbcRounds32(block);
    Constants3Are();
    AbcSchedule2(block);
    AbcFirstSums48();
    AbcSecondSums48();
    AbcNext48();
    RoundsStep(INITIAL, block, 32);
    RoundIs(Rounds(INITIAL, block, 32), 0x27b70a85, 0x93f5997f, 0x66a5732d, 0x323bb1da);
    RoundsStep(INITIAL, block, 33);
    RoundIs(Rounds(INITIAL, block, 33), 0x2e1b2138, 0x3b68ba73, 0xb91e92a3, 0x4541bb52);
    RoundsStep(INITIAL, block, 34);
    RoundIs(Rounds(INITIAL, block, 34), 0x4d2c6dfc, 0xaff4ffc1, 0x1dc60e11, 0x8be1657b);
    RoundsStep(INITIAL, block, 35);
    RoundIs(Rounds(INITIAL, block, 35), 0x53380d13, 0xf10a5c62, 0x80fcc6e1, 0xe4a40903);
    RoundsStep(INITIAL, block, 36);
    RoundIs(Rounds(INITIAL, block, 36), 0x650a7354, 0x0a8b3996, 0x6e917d64, 0xd314df4d);
    RoundsStep(INITIAL, block, 37);
    RoundIs(Rounds(INITIAL, block, 37), 0x766a0abb, 0x72af830a, 0xa6a75748, 0x8e37bebc);
    RoundsStep(INITIAL, block, 38);
    RoundIs(Rounds(INITIAL, block, 38), 0x81c2c92e, 0x9409e33e, 0x46d0a83c, 0x26f4d24e);
    RoundsStep(INITIAL, block, 39);
    RoundIs(Rounds(INITIAL, block, 39), 0x92722c85, 0x24641522, 0xb95af0bc, 0xc08f77be);
    RoundsStep(INITIAL, block, 40);
    RoundIs(Rounds(INITIAL, block, 40), 0xa2bfe8a1, 0x9f47bf94, 0xe48ed0b2, 0xf1d836b4);
    RoundsStep(INITIAL, block, 41);
    RoundIs(Rounds(INITIAL, block, 41), 0xa81a664b, 0xf0a64f5a, 0x4eac110d, 0x909a5422);
    RoundsStep(INITIAL, block, 42);
    RoundIs(Rounds(INITIAL, block, 42), 0xc24b8b70, 0x3e246a79, 0x7107cc8b, 0xa6a24173);
    RoundsStep(INITIAL, block, 43);
    RoundIs(Rounds(INITIAL, block, 43), 0xc76c51a3, 0x27333ba3, 0x83b7e3b4, 0x1993cbdf);
    RoundsStep(INITIAL, block, 44);
    RoundIs(Rounds(INITIAL, block, 44), 0xd192e819, 0x0c4763f2, 0xd1a80a8a, 0x54ba7d8b);
    RoundsStep(INITIAL, block, 45);
    RoundIs(Rounds(INITIAL, block, 45), 0xd6990624, 0x840abf27, 0xd82ef872, 0x9a7c531f);
    RoundsStep(INITIAL, block, 46);
    RoundIs(Rounds(INITIAL, block, 46), 0xf40e3585, 0x7a290d5d, 0xbdd186ab, 0xe37a8e05);
    RoundsStep(INITIAL, block, 47);
    RoundIs(Rounds(INITIAL, block, 47), 0x106aa070, 0x065c43da, 0x61835c33, 0xdfeed65a);
  }

  lemma AbcFirstSums64()
    ensures Temp1(0xfecf0bc6, 0xd57b94a9, 0xb7755da1, 0xa80f11f0, 0x19a4c116, 0xfb3e89cb) == 0x970eb823
    ensures Temp1(0xbd714038, 0xfecf0bc6, 0xd57b94a9, 0xb7755da1, 0x1e376c08, 0xcc7617db) == 0xfbb0ed7b
    ensures Temp1(0x6e5c390c, 0xbd714038, 0xfecf0bc6, 0xd57b94a9, 0x2748774c, 0xb9e66c34) == 0xb1a5b847
    ensures Temp1(0x52f1ccf7, 0x6e5c390c, 0xbd714038, 0xfecf0bc6, 0x34b0bcb5, 0xa9993667) == 0x07b0e991
    ensures Temp1(0x49231c1e, 0x52f1ccf7, 0x6e5c390c, 0xbd714038, 0x391c0cb3, 0x84badedd) == 0x4d290015
    ensures Temp1(0x529e7d00, 0x49231c1e, 0x52f1ccf7, 0x6e5c390c, 0x4ed8aa4a, 0xc21462bc) == 0xae2b8d1b
    ensures Temp1(0x9f4787c3, 0x529e7d00, 0x49231c1e, 0x52f1ccf7, 0x5b9cca4f, 0x1487472c) == 0x6b0912ae
    ensures Temp1(0xe50e1b4f, 0x9f4787c3, 0x529e7d00, 0x49231c1e, 0x682e6ff3, 0xb20f7a99) == 0xcc5cac49
    ensures Temp1(0x54cb266b, 0xe50e1b4f, 0x9f4787c3, 0x529e7d00, 0x748f82ee, 0xef57b9cd) == 0x8b3ebddd
    ensures Temp1(0x9b5e906c, 0x54cb266b, 0xe50e1b4f, 0x9f4787c3, 0x78a5636f, 0xebe6b238) == 0x88d3d0b3
    ensures Temp1(0x7e44008e, 0x9b5e906c, 0x54cb266b, 0xe50e1b4f, 0x84c87814, 0x9fe3095e) == 0x2ebf62eb
    ensures Temp1(0x6d83bfc6, 0x7e44008e, 0x9b5e906c, 0x54cb266b, 0x8cc70208, 0x78bc8d4b) == 0x794f142a
    ensures Temp1(0xb21bad3d, 0x6d83bfc6, 0x7e44008e, 0x9b5e906c, 0x90befffa, 0xa43fcf15) == 0x994dc019
    ensures Temp1(0x961f4894, 0xb21bad3d, 0x6d83bfc6, 0x7e44008e, 0xa4506ceb, 0x668b2ff8) == 0xd42a5147
    ensures Temp1(0x948d25b6, 0x961f4894, 0xb21bad3d, 0x6d83bfc6, 0xbef9a3f7, 0xeeaba2cc) == 0xfb5b0d9e
    ensures Temp1(0xfb121210, 0x948d25b6, 0x961f4894, 0xb21bad3d, 0xc67178f2, 0x12b1edeb) == 0xa8467f25
  {
  }

  lemma AbcSecondSums64()
    ensures Temp2(0x4172328d, 0xa14c14b0, 0x72ab4b91) == 0x6e66c4c8
    ensures Temp2(0x05757ceb, 0x4172328d, 0xa14c14b0) == 0xf56b0d2d
    ensures Temp2(0xf11bfaa8, 0x05757ceb, 0x4172328d) == 0xc85f505a
    ensures Temp2(0x7a0508a1, 0xf11bfaa8, 0x05757ceb) == 0x80bd9091
    ensures Temp2(0x886e7a22, 0x7a0508a1, 0xf11bfaa8) == 0xc2f6d27a
    ensures Temp2(0x101fd28f, 0x886e7a22, 0x7a0508a1) == 0x4744a2c0
    ensures Temp2(0xf5702fdb, 0x101fd28f, 0x886e7a22) == 0xd3bb4a2d
    ensures Temp2(0x3ec45cdb, 0xf5702fdb, 0x101fd28f) == 0x6c6fecca
    ensures Temp2(0x38cc9913, 0x3ec45cdb, 0xf5702fdb) == 0x7192ca9e
    ensures Temp2(0xfcd1887b, 0x38cc9913, 0x3ec45cdb) == 0x378f03bc
    ensures Temp2(0xc062d46f, 0xfcd1887b, 0x38cc9913) == 0xd0f7a187
    ensures Temp2(0xffb70472, 0xc062d46f, 0xfcd1887b) == 0x3d5f7bd5
    ensures Temp2(0xb6ae8fff, 0xffb70472, 0xc062d46f) == 0x1f106cd0
    ensures Temp2(0xb85e2ce9, 0xb6ae8fff, 0xffb70472) == 0x30a7fc25
    ensures Temp2(0x04d24d6c, 0xb85e2ce9, 0xb6ae8fff) == 0xd83f13c7
    ensures Temp2(0xd39a2165, 0x04d24d6c, 0xb85e2ce9) == 0xa827b133
  {
  }

  lemma AbcNext64()
    ensures Plus(0x970eb823, 0x6e66c4c8) == 0x05757ceb && Plus(0x26628815, 0x970eb823) == 0xbd714038
    ensures Plus(0xfbb0ed7b, 0xf56b0d2d) == 0xf11bfaa8 && Plus(0x72ab4b91, 0xfbb0ed7b) == 0x6e5c390c
    ensures Plus(0xb1a5b847, 0xc85f505a) == 0x7a0508a1 && Plus(0xa14c14b0, 0xb1a5b847) == 0x52f1ccf7
    ensures Plus(0x07b0e991, 0x80bd9091) == 0x886e7a22 && Plus(0x4172328d, 0x07b0e991) == 0x49231c1e
    ensures Plus(0x4d290015, 0xc2f6d27a) == 0x101fd28f && Plus(0x05757ceb, 0x4d290015) == 0x529e7d00
    ensures Plus(0xae2b8d1b, 0x4744a2c0) == 0xf5702fdb && Plus(0xf11bfaa8, 0xae2b8d1b) == 0x9f4787c3
    ensures Plus(0x6b0912ae, 0xd3bb4a2d) == 0x3ec45cdb && Plus(0x7a0508a1, 0x6b0912ae) == 0xe50e1b4f
    ensures Plus(0xcc5cac49, 0x6c6fecca) == 0x38cc9913 && Plus(0x886e7a22, 0xcc5cac49) == 0x54cb266b
    ensures Plus(0x8b3ebddd, 0x7192ca9e) == 0xfcd1887b && Plus(0x101fd28f, 0x8b3ebddd) == 0x9b5e906c
    ensures Plus(0x88d3d0b3, 0x378f03bc) == 0xc062d46f && Plus(0xf5702fdb, 0x88d3d0b3) == 0x7e44008e
    ensures Plus(0x2ebf62eb, 0xd0f7a187) == 0xffb70472 && Plus(0x3ec45cdb, 0x2ebf62eb) == 0x6d83bfc6
    ensures Plus(0x794f142a, 0x3d5f7bd5) == 0xb6ae8fff && Plus(0x38cc9913, 0x794f142a) == 0xb21bad3d
    ensures Plus(0x994dc019, 0x1f106cd0) == 0xb85e2ce9 && Plus(0xfcd1887b, 0x994dc019) == 0x961f4894
    ensures Plus(0xd42a5147, 0x30a7fc25) == 0x04d24d6c && Plus(0xc062d46f, 0xd42a5147) == 0x948d25b6
    ensures Plus(0xfb5b0d9e, 0xd83f13c7) == 0xd39a2165 && Plus(0xffb70472, 0xfb5b0d9e) == 0xfb121210
    ensures Plus(0xa8467f25, 0xa827b133) == 0x506e3058 && Plus(0xb6ae8fff, 0xa8467f25) == 0x5ef50f24
  {
  }

  lemma AbcRounds64(block: octets)
    requires IsAbcBlock(block)
    ensures Rounds(INITIAL, block, 64) ==
      State(0x506e3058, 0xd39a2165, 0x04d24d6c, 0xb85e2ce9, 0x5ef50f24, 0xfb121210, 0x948d25b6, 0x961f4894)
  {
    hide Rounds, Round, K, Schedule, Temp1, Temp2, Plus;
    AbcRounds48(block);
    Constants4Are();
    AbcSchedule3(block);
    AbcFirstSums64();
    AbcSecondSums64();
    AbcNext64();
    RoundsStep(INITIAL, block, 48);
    RoundIs(Rounds(INITIAL, block, 48), 0x19a4c116, 0xfb3e89cb, 0x970eb823, 0x6e66c4c8);
    RoundsStep(INITIAL, block, 49);
    RoundIs(Rounds(INITIAL, block, 49), 0x1e376c08, 0xcc7617db, 0xfbb0ed7b, 0xf56b0d2d);
    RoundsStep(INITIAL, block, 50);
    RoundIs(Rounds(INITIAL, block, 50), 0x2748774c, 0xb9e66c34, 0xb1a5b847, 0xc85f505a);
    RoundsStep(INITIAL, block, 51);
    RoundIs(Rounds(INITIAL, block, 51), 0x34b0bcb5, 0xa9993667, 0x07b0e991, 0x80bd9091);
    RoundsStep(INITIAL, block, 52);
    RoundIs(Rounds(INITIAL, block, 52), 0x391c0cb3, 0x84badedd, 0x4d290015, 0xc2f6d27a);
    RoundsStep(INITIAL, block, 53);
    RoundIs(Rounds(INITIAL, block, 53), 0x4ed8aa4a, 0xc21462bc, 0xae2b8d1b, 0x4744a2c0);
    RoundsStep(INITIAL, block, 54);
    RoundIs(Rounds(INITIAL, block, 54), 0x5b9cca4f, 0x1487472c, 0x6b0912ae, 0xd3bb4a2d);
    RoundsStep(INITIAL, block, 55);
    RoundIs(Rounds(INITIAL, block, 55), 0x682e6ff3, 0xb20f7a99, 0xcc5cac49, 0x6c6fecca);
    RoundsStep(INITIAL, block, 56);
    RoundIs(Rounds(INITIAL, block, 56), 0x748f82ee, 0xef57b9cd, 0x8b3ebddd, 0x7192ca9e);
    RoundsStep(INITIAL, block, 57);
    RoundIs(Rounds(INITIAL, block, 57), 0x78a5636f, 0xebe6b238, 0x88d3d0b3, 0x378f03bc);
    RoundsStep(INITIAL, block, 58);
    RoundIs(Rounds(INITIAL, block, 58), 0x84c87814, 0x9fe3095e, 0x2ebf62eb, 0xd0f7a187);
    RoundsStep(INITIAL, block, 59);
    RoundIs(Rounds(INITIAL, block, 59), 0x8cc70208, 0x78bc8d4b, 0x794f142a, 0x3d5f7bd5);
    RoundsStep(INITIAL, block, 60);
    RoundIs(Rounds(INITIAL, block, 60), 0x90befffa, 0xa43fcf15, 0x994dc019, 0x1f106cd0);
    RoundsStep(INITIAL, block, 61);
    RoundIs(Rounds(INITIAL, block, 61), 0xa4506ceb, 0x668b2ff8, 0xd42a5147, 0x30a7fc25);
    RoundsStep(INITIAL, block, 62);
    RoundIs(Rounds(INITIAL, block, 62), 0xbef9a3f7, 0xeeaba2cc, 0xfb5b0d9e, 0xd83f13c7);
    RoundsStep(INITIAL, block, 63);
    RoundIs(Rounds(INITIAL, block, 63), 0xc67178f2, 0x12b1edeb, 0xa8467f25, 0xa827b133);
  }

  lemma AbcCompressed(block: octets)
    requires IsAbcBlock(block)
    ensures Compress(INITIAL, block) ==
      State(0xba7816bf, 0x8f01cfea, 0x414140de, 0x5dae2223, 0xb00361a3, 0x96177a9c, 0xb410ff61, 0xf20015ad)
  {
    hide Rounds, Schedule;
    AbcRounds64(block);
  }

  lemma AbcOctets()
    ensures HighestFirst(0xba7816bf) == [0xba, 0x78, 0x16, 0xbf]
    ensures HighestFirst(0x8f01cfea) == [0x8f, 0x01, 0xcf, 0xea]
    ensures HighestFirst(0x414140de) == [0x41, 0x41, 0x40, 0xde]
    ensures HighestFirst(0x5dae2223) == [0x5d, 0xae, 0x22, 0x23]
    ensures HighestFirst(0xb00361a3) == [0xb0, 0x03, 0x61, 0xa3]
    ensures HighestFirst(0x96177a9c) == [0x96, 0x17, 0x7a, 0x9c]
    ensures HighestFirst(0xb410ff61) == [0xb4, 0x10, 0xff, 0x61]
    ensures HighestFirst(0xf20015ad) == [0xf2, 0x00, 0x15, 0xad]
  {
  }

  lemma AbcBlock(m: octets)
    requires m == [0x61, 0x62, 0x63]
    ensures IsAbcBlock(m + Padding(|m|))
  {
    hide BigEndian, LengthOctet;
    var block := m + Padding(|m|);
    assert 8 * |m| % TWO64 == 24;
    AbcEnds();
    AbcLength();
    forall i | 1 <= i < 15 ensures Schedule(block, i) == 0 {
    }
  }

  lemma AbcEnds()
    ensures BigEndian(0x61, 0x62, 0x63, 0x80) == 0x61626380
    ensures BigEndian(0, 0, 0, 0) == 0 && BigEndian(0, 0, 0, 24) == 24
  {
  }

  lemma AbcLength()
    ensures LengthOctet(24, 1) == 24
    ensures forall unit :: unit >= 0x100 ==> LengthOctet(24, unit) == 0
  {
  }

  /** The digest of "abc". */
  lemma AbcDigest()
    ensures var digest := Digest([0x61, 0x62, 0x63]);
      |digest| == 32 &&
      digest[..8] == [0xba, 0x78, 0x16, 0xbf, 0x8f, 0x01, 0xcf, 0xea] &&
      digest[8..16] == [0x41, 0x41, 0x40, 0xde, 0x5d, 0xae, 0x22, 0x23] &&
      digest[16..24] == [0xb0, 0x03, 0x61, 0xa3, 0x96, 0x17, 0x7a, 0x9c] &&
      digest[24..] == [0xb4, 0x10, 0xff, 0x61, 0xf2, 0x00, 0x15, 0xad]
  {
    hide Compress, Output, HighestFirst, Schedule, Padding, Hashed;
    var m: octets := [0x61, 0x62, 0x63];
    AbcBlock(m);
    var block := m + Padding(|m|);
    assert [] + block == block;
    HashedMore([], block);
    NothingHashed();
    AbcCompressed(block);
    OutputIs(State(0xba7816bf, 0x8f01cfea, 0x414140de, 0x5dae2223, 0xb00361a3, 0x96177a9c, 0xb410ff61, 0xf20015ad));
    AbcOctets();
  }
}
