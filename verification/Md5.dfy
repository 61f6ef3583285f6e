/** MD5: the chunked implementation, and the algorithm it refines (RFC 1321, sections 3.1 to 3.5). */
module Md5 {

  import opened Octets

  // ----- the algorithm

  function F(x: bv32, y: bv32, z: bv32): bv32 { (x & y) | (!x & z) }
  function G(x: bv32, y: bv32, z: bv32): bv32 { (x & z) | (y & !z) }
  function H(x: bv32, y: bv32, z: bv32): bv32 { x ^ y ^ z }
  function I(x: bv32, y: bv32, z: bv32): bv32 { y ^ (x | !z) }

  function RotateLeft(x: bv32, n: nat): bv32
    requires 0 < n < 32
  {
    (x << n) | (x >> (32 - n))
  }

  /** Addition modulo 2^32. */
  function Plus(x: bv32, y: bv32): bv32 { x + y }

  /** The registers A, B, C, D. */
  datatype State = State(a: bv32, b: bv32, c: bv32, d: bv32)

  const INITIAL: State := State(0x67452301, 0xefcdab89, 0x98badcfe, 0x10325476)

  // the sine table, sixteen elements a round
  const SINES1: seq<bv32> := [
    0xd76aa478, 0xe8c7b756, 0x242070db, 0xc1bdceee,
    0xf57c0faf, 0x4787c62a, 0xa8304613, 0xfd469501,
    0x698098d8, 0x8b44f7af, 0xffff5bb1, 0x895cd7be,
    0x6b901122, 0xfd987193, 0xa679438e, 0x49b40821]
  const SINES2: seq<bv32> := [
    0xf61e2562, 0xc040b340, 0x265e5a51, 0xe9b6c7aa,
    0xd62f105d, 0x02441453, 0xd8a1e681, 0xe7d3fbc8,
    0x21e1cde6, 0xc33707d6, 0xf4d50d87, 0x455a14ed,
    0xa9e3e905, 0xfcefa3f8, 0x676f02d9, 0x8d2a4c8a]
  const SINES3: seq<bv32> := [
    0xfffa3942, 0x8771f681, 0x6d9d6122, 0xfde5380c,
    0xa4beea44, 0x4bdecfa9, 0xf6bb4b60, 0xbebfbc70,
    0x289b7ec6, 0xeaa127fa, 0xd4ef3085, 0x04881d05,
    0xd9d4d039, 0xe6db99e5, 0x1fa27cf8, 0xc4ac5665]
  const SINES4: seq<bv32> := [
    0xf4292244, 0x432aff97, 0xab9423a7, 0xfc93a039,
    0x655b59c3, 0x8f0ccc92, 0xffeff47d, 0x85845dd1,
    0x6fa87e4f, 0xfe2ce6e0, 0xa3014314, 0x4e0811a1,
    0xf7537e82, 0xbd3af235, 0x2ad7d2bb, 0xeb86d391]

  /** The element of the sine table for step `i`, counted from 0. */
  function T(i: nat): bv32
    requires i < 64
  {
    if i < 16 then SINES1[i] else if i < 32 then SINES2[i - 16] else if i < 48 then SINES3[i - 32] else SINES4[i - 48]
  }

  /** Which word of the block a step uses, and by how much it rotates. */
  function WordOf(i: nat): (k: nat)
    ensures k < 16
  {
    if i < 16 then i else if i < 32 then (5 * i + 1) % 16 else if i < 48 then (3 * i + 5) % 16 else 7 * i % 16
  }

  function ShiftOf(i: nat): (s: nat)
    ensures 0 < s < 32
  {
    var j := i % 4;
    if i < 16 then (if j == 0 then 7 else if j == 1 then 12 else if j == 2 then 17 else 22)
    else if i < 32 then (if j == 0 then 5 else if j == 1 then 9 else if j == 2 then 14 else 20)
    else if i < 48 then (if j == 0 then 4 else if j == 1 then 11 else if j == 2 then 16 else 23)
    else if j == 0 then 6 else if j == 1 then 10 else if j == 2 then 15 else 21
  }

  function Mix(i: nat, x: bv32, y: bv32, z: bv32): bv32 {
    if i < 16 then F(x, y, z) else if i < 32 then G(x, y, z) else if i < 48 then H(x, y, z) else I(x, y, z)
  }

  /** a = b + ((a + f(b, c, d) + X[k] + T[i]) <<< s), the sums grouped as the macros group them */
  function NewA(a: bv32, b: bv32, mix: bv32, x: bv32, s: nat, t: bv32): bv32
    requires 0 < s < 32
  {
    Plus(RotateLeft(Plus(a, Plus(Plus(mix, x), t)), s), b)
  }

  /** One step; then the registers change names. */
  function Step(q: State, x: seq<bv32>, i: nat): State
    requires |x| == 16 && i < 64
  {
    State(q.d, NewA(q.a, q.b, Mix(i, q.b, q.c, q.d), x[WordOf(i)], ShiftOf(i), T(i)), q.b, q.c)
  }

  function Steps(q: State, x: seq<bv32>, n: nat): State
    requires |x| == 16 && n <= 64
  {
    if n == 0 then q else Step(Steps(q, x, n - 1), x, n - 1)
  }

  function AddStates(s: State, t: State): State { State(Plus(s.a, t.a), Plus(s.b, t.b), Plus(s.c, t.c), Plus(s.d, t.d)) }

  function Compress(q: State, x: seq<bv32>): State
    requires |x| == 16
  {
    AddStates(q, Steps(q, x, 64))
  }

  /** Four octets as a word, lowest first. */
  function LittleEndian(w: bv8, x: bv8, y: bv8, z: bv8): bv32 {
    ((z as bv32) << 24) | ((y as bv32) << 16) | ((x as bv32) << 8) | (w as bv32)
  }

  function WordAt(block: octets, i: nat): bv32
    requires 4 * i + 4 <= |block|
  {
    LittleEndian(block[4 * i], block[4 * i + 1], block[4 * i + 2], block[4 * i + 3])
  }

  function Words(block: octets): (x: seq<bv32>)
    requires |block| == 64
    ensures |x| == 16
  {
    seq(16, i requires 0 <= i < 16 => WordAt(block, i))
  }

  // ----- the unrolled steps

  /** The macro `FF`. */
  function FF(a: bv32, b: bv32, c: bv32, d: bv32, x: bv32, s: nat, ac: bv32): (r: bv32)
    requires 0 < s < 32
    ensures r == NewA(a, b, F(b, c, d), x, s, ac)
  {
    Plus(RotateLeft(Plus(a, Plus(Plus(F(b, c, d), x), ac)), s), b)
  }

  /** The macro `GG`. */
  function GG(a: bv32, b: bv32, c: bv32, d: bv32, x: bv32, s: nat, ac: bv32): (r: bv32)
    requires 0 < s < 32
    ensures r == NewA(a, b, G(b, c, d), x, s, ac)
  {
    Plus(RotateLeft(Plus(a, Plus(Plus(G(b, c, d), x), ac)), s), b)
  }

  /** The macro `HH`. */
  function HH(a: bv32, b: bv32, c: bv32, d: bv32, x: bv32, s: nat, ac: bv32): (r: bv32)
    requires 0 < s < 32
    ensures r == NewA(a, b, H(b, c, d), x, s, ac)
  {
    Plus(RotateLeft(Plus(a, Plus(Plus(H(b, c, d), x), ac)), s), b)
  }

  /** The macro `II`. */
  function II(a: bv32, b: bv32, c: bv32, d: bv32, x: bv32, s: nat, ac: bv32): (r: bv32)
    requires 0 < s < 32
    ensures r == NewA(a, b, I(b, c, d), x, s, ac)
  {
    Plus(RotateLeft(Plus(a, Plus(Plus(I(b, c, d), x), ac)), s), b)
  }

  /** After four steps the registers have their names back. */
  lemma FourSteps(q: State, x: seq<bv32>, n: nat)
    requires |x| == 16 && n + 4 <= 64
    ensures var s := Steps(q, x, n);
      var a := NewA(s.a, s.b, Mix(n, s.b, s.c, s.d), x[WordOf(n)], ShiftOf(n), T(n));
      var d := NewA(s.d, a, Mix(n + 1, a, s.b, s.c), x[WordOf(n + 1)], ShiftOf(n + 1), T(n + 1));
      var c := NewA(s.c, d, Mix(n + 2, d, a, s.b), x[WordOf(n + 2)], ShiftOf(n + 2), T(n + 2));
      var b := NewA(s.b, c, Mix(n + 3, c, d, a), x[WordOf(n + 3)], ShiftOf(n + 3), T(n + 3));
      Steps(q, x, n + 4) == State(a, b, c, d)
  {
    hide NewA, Mix, WordOf, ShiftOf, T;
    assert Steps(q, x, n + 1) == Step(Steps(q, x, n), x, n);
    assert Steps(q, x, n + 2) == Step(Steps(q, x, n + 1), x, n + 1);
    assert Steps(q, x, n + 3) == Step(Steps(q, x, n + 2), x, n + 2);
  }

  /** The indexed form's choices for round 1. */
  lemma Table1()
    ensures WordOf(0) == 0 && ShiftOf(0) == 7
    ensures WordOf(1) == 1 && ShiftOf(1) == 12
    ensures WordOf(2) == 2 && ShiftOf(2) == 17
    ensures WordOf(3) == 3 && ShiftOf(3) == 22
    ensures WordOf(4) == 4 && ShiftOf(4) == 7
    ensures WordOf(5) == 5 && ShiftOf(5) == 12
    ensures WordOf(6) == 6 && ShiftOf(6) == 17
    ensures WordOf(7) == 7 && ShiftOf(7) == 22
    ensures WordOf(8) == 8 && ShiftOf(8) == 7
    ensures WordOf(9) == 9 && ShiftOf(9) == 12
    ensures WordOf(10) == 10 && ShiftOf(10) == 17
    ensures WordOf(11) == 11 && ShiftOf(11) == 22
    ensures WordOf(12) == 12 && ShiftOf(12) == 7
    ensures WordOf(13) == 13 && ShiftOf(13) == 12
    ensures WordOf(14) == 14 && ShiftOf(14) == 17
    ensures WordOf(15) == 15 && ShiftOf(15) == 22
  {
  }

  lemma Sines1()
    ensures T(0) == 3614090360
    ensures T(1) == 3905402710
    ensures T(2) == 606105819
    ensures T(3) == 3250441966
    ensures T(4) == 4118548399
    ensures T(5) == 1200080426
    ensures T(6) == 2821735955
    ensures T(7) == 4249261313
    ensures T(8) == 1770035416
    ensures T(9) == 2336552879
    ensures T(10) == 4294925233
    ensures T(11) == 2304563134
    ensures T(12) == 1804603682
    ensures T(13) == 4254626195
    ensures T(14) == 2792965006
    ensures T(15) == 1236535329
  {
  }

  /** Round 1: steps 1 to 16. */
  method Round1(x: seq<bv32>, a0: bv32, b0: bv32, c0: bv32, d0: bv32, ghost q: State)
    returns (a: bv32, b: bv32, c: bv32, d: bv32)
    requires |x| == 16 && State(a0, b0, c0, d0) == Steps(q, x, 0)
    ensures State(a, b, c, d) == Steps(q, x, 16)
  {
    hide F, FF, NewA, Steps, Plus, RotateLeft, T, WordOf, ShiftOf;
    Table1();
    Sines1();
    a, b, c, d := a0, b0, c0, d0;
    FourSteps(q, x, 0);
    a := FF(a, b, c, d, x[0], 7, 3614090360);
    d := FF(d, a, b, c, x[1], 12, 3905402710);
    c := FF(c, d, a, b, x[2], 17, 606105819);
    b := FF(b, c, d, a, x[3], 22, 3250441966);
    assert State(a, b, c, d) == Steps(q, x, 4);
    FourSteps(q, x, 4);
    a := FF(a, b, c, d, x[4], 7, 4118548399);
    d := FF(d, a, b, c, x[5], 12, 1200080426);
    c := FF(c, d, a, b, x[6], 17, 2821735955);
    b := FF(b, c, d, a, x[7], 22, 4249261313);
    assert State(a, b, c, d) == Steps(q, x, 8);
    FourSteps(q, x, 8);
    a := FF(a, b, c, d, x[8], 7, 1770035416);
    d := FF(d, a, b, c, x[9], 12, 2336552879);
    c := FF(c, d, a, b, x[10], 17, 4294925233);
    b := FF(b, c, d, a, x[11], 22, 2304563134);
    assert State(a, b, c, d) == Steps(q, x, 12);
    FourSteps(q, x, 12);
    a := FF(a, b, c, d, x[12], 7, 1804603682);
    d := FF(d, a, b, c, x[13], 12, 4254626195);
    c := FF(c, d, a, b, x[14], 17, 2792965006);
    b := FF(b, c, d, a, x[15], 22, 1236535329);
    assert State(a, b, c, d) == Steps(q, x, 16);
  }

  /** The indexed form's choices for round 2. */
  lemma Table2()
    ensures WordOf(16) == 1 && ShiftOf(16) == 5
    ensures WordOf(17) == 6 && ShiftOf(17) == 9
    ensures WordOf(18) == 11 && ShiftOf(18) == 14
    ensures WordOf(19) == 0 && ShiftOf(19) == 20
    ensures WordOf(20) == 5 && ShiftOf(20) == 5
    ensures WordOf(21) == 10 && ShiftOf(21) == 9
    ensures WordOf(22) == 15 && ShiftOf(22) == 14
    ensures WordOf(23) == 4 && ShiftOf(23) == 20
    ensures WordOf(24) == 9 && ShiftOf(24) == 5
    ensures WordOf(25) == 14 && ShiftOf(25) == 9
    ensures WordOf(26) == 3 && ShiftOf(26) == 14
    ensures WordOf(27) == 8 && ShiftOf(27) == 20
    ensures WordOf(28) == 13 && ShiftOf(28) == 5
    ensures WordOf(29) == 2 && ShiftOf(29) == 9
    ensures WordOf(30) == 7 && ShiftOf(30) == 14
    ensures WordOf(31) == 12 && ShiftOf(31) == 20
  {
  }

  lemma Sines2()
    ensures T(16) == 4129170786
    ensures T(17) == 3225465664
    ensures T(18) == 643717713
    ensures T(19) == 3921069994
    ensures T(20) == 3593408605
    ensures T(21) == 38016083
    ensures T(22) == 3634488961
    ensures T(23) == 3889429448
    ensures T(24) == 568446438
    ensures T(25) == 3275163606
    ensures T(26) == 4107603335
    ensures T(27) == 1163531501
    ensures T(28) == 2850285829
    ensures T(29) == 4243563512
    ensures T(30) == 1735328473
    ensures T(31) == 2368359562
  {
  }

  /** Round 2: steps 17 to 32. */
  method Round2(x: seq<bv32>, a0: bv32, b0: bv32, c0: bv32, d0: bv32, ghost q: State)
    returns (a: bv32, b: bv32, c: bv32, d: bv32)
    requires |x| == 16 && State(a0, b0, c0, d0) == Steps(q, x, 16)
    ensures State(a, b, c, d) == Steps(q, x, 32)
  {
    hide G, GG, NewA, Steps, Plus, RotateLeft, T, WordOf, ShiftOf;
    Table2();
    Sines2();
    a, b, c, d := a0, b0, c0, d0;
    FourSteps(q, x, 16);
    a := GG(a, b, c, d, x[1], 5, 4129170786);
    d := GG(d, a, b, c, x[6], 9, 3225465664);
    c := GG(c, d, a, b, x[11], 14, 643717713);
    b := GG(b, c, d, a, x[0], 20, 3921069994);
    assert State(a, b, c, d) == Steps(q, x, 20);
    FourSteps(q, x, 20);
    a := GG(a, b, c, d, x[5], 5, 3593408605);
    d := GG(d, a, b, c, x[10], 9, 38016083);
    c := GG(c, d, a, b, x[15], 14, 3634488961);
    b := GG(b, c, d, a, x[4], 20, 3889429448);
    assert State(a, b, c, d) == Steps(q, x, 24);
    FourSteps(q, x, 24);
    a := GG(a, b, c, d, x[9], 5, 568446438);
    d := GG(d, a, b, c, x[14], 9, 3275163606);
    c := GG(c, d, a, b, x[3], 14, 4107603335);
    b := GG(b, c, d, a, x[8], 20, 1163531501);
    assert State(a, b, c, d) == Steps(q, x, 28);
    FourSteps(q, x, 28);
    a := GG(a, b, c, d, x[13], 5, 2850285829);
    d := GG(d, a, b, c, x[2], 9, 4243563512);
    c := GG(c, d, a, b, x[7], 14, 1735328473);
    b := GG(b, c, d, a, x[12], 20, 2368359562);
    assert State(a, b, c, d) == Steps(q, x, 32);
  }

  /** The indexed form's choices for round 3. */
  lemma Table3()
    ensures WordOf(32) == 5 && ShiftOf(32) == 4
    ensures WordOf(33) == 8 && ShiftOf(33) == 11
    ensures WordOf(34) == 11 && ShiftOf(34) == 16
    ensures WordOf(35) == 14 && ShiftOf(35) == 23
    ensures WordOf(36) == 1 && ShiftOf(36) == 4
    ensures WordOf(37) == 4 && ShiftOf(37) == 11
    ensures WordOf(38) == 7 && ShiftOf(38) == 16
    ensures WordOf(39) == 10 && ShiftOf(39) == 23
    ensures WordOf(40) == 13 && ShiftOf(40) == 4
    ensures WordOf(41) == 0 && ShiftOf(41) == 11
    ensures WordOf(42) == 3 && ShiftOf(42) == 16
    ensures WordOf(43) == 6 && ShiftOf(43) == 23
    ensures WordOf(44) == 9 && ShiftOf(44) == 4
    ensures WordOf(45) == 12 && ShiftOf(45) == 11
    ensures WordOf(46) == 15 && ShiftOf(46) == 16
    ensures WordOf(47) == 2 && ShiftOf(47) == 23
  {
  }

  lemma Sines3()
    ensures T(32) == 4294588738
    ensures T(33) == 2272392833
    ensures T(34) == 1839030562
    ensures T(35) == 4259657740
    ensures T(36) == 2763975236
    ensures T(37) == 1272893353
    ensures T(38) == 4139469664
    ensures T(39) == 3200236656
    ensures T(40) == 681279174
    ensures T(41) == 3936430074
    ensures T(42) == 3572445317
    ensures T(43) == 76029189
    ensures T(44) == 3654602809
    ensures T(45) == 3873151461
    ensures T(46) == 530742520
    ensures T(47) == 3299628645
  {
  }

  /** Round 3: steps 33 to 48. */
  method Round3(x: seq<bv32>, a0: bv32, b0: bv32, c0: bv32, d0: bv32, ghost q: State)
    returns (a: bv32, b: bv32, c: bv32, d: bv32)
    requires |x| == 16 && State(a0, b0, c0, d0) == Steps(q, x, 32)
    ensures State(a, b, c, d) == Steps(q, x, 48)
  {
    hide H, HH, NewA, Steps, Plus, RotateLeft, T, WordOf, ShiftOf;
    Table3();
    Sines3();
    a, b, c, d := a0, b0, c0, d0;
    FourSteps(q, x, 32);
    a := HH(a, b, c, d, x[5], 4, 4294588738);
    d := HH(d, a, b, c, x[8], 11, 2272392833);
    c := HH(c, d, a, b, x[11], 16, 1839030562);
    b := HH(b, c, d, a, x[14], 23, 4259657740);
    assert State(a, b, c, d) == Steps(q, x, 36);
    FourSteps(q, x, 36);
    a := HH(a, b, c, d, x[1], 4, 2763975236);
    d := HH(d, a, b, c, x[4], 11, 1272893353);
    c := HH(c, d, a, b, x[7], 16, 4139469664);
    b := HH(b, c, d, a, x[10], 23, 3200236656);
    assert State(a, b, c, d) == Steps(q, x, 40);
    FourSteps(q, x, 40);
    a := HH(a, b, c, d, x[13], 4, 681279174);
    d := HH(d, a, b, c, x[0], 11, 3936430074);
    c := HH(c, d, a, b, x[3], 16, 3572445317);
    b := HH(b, c, d, a, x[6], 23, 76029189);
    assert State(a, b, c, d) == Steps(q, x, 44);
    FourSteps(q, x, 44);
    a := HH(a, b, c, d, x[9], 4, 3654602809);
    d := HH(d, a, b, c, x[12], 11, 3873151461);
    c := HH(c, d, a, b, x[15], 16, 530742520);
    b := HH(b, c, d, a, x[2], 23, 3299628645);
    assert State(a, b, c, d) == Steps(q, x, 48);
  }

  /** The indexed form's choices for round 4. */
  lemma Table4()
    ensures WordOf(48) == 0 && ShiftOf(48) == 6
    ensures WordOf(49) == 7 && ShiftOf(49) == 10
    ensures WordOf(50) == 14 && ShiftOf(50) == 15
    ensures WordOf(51) == 5 && ShiftOf(51) == 21
    ensures WordOf(52) == 12 && ShiftOf(52) == 6
    ensures WordOf(53) == 3 && ShiftOf(53) == 10
    ensures WordOf(54) == 10 && ShiftOf(54) == 15
    ensures WordOf(55) == 1 && ShiftOf(55) == 21
    ensures WordOf(56) == 8 && ShiftOf(56) == 6
    ensures WordOf(57) == 15 && ShiftOf(57) == 10
    ensures WordOf(58) == 6 && ShiftOf(58) == 15
    ensures WordOf(59) == 13 && ShiftOf(59) == 21
    ensures WordOf(60) == 4 && ShiftOf(60) == 6
    ensures WordOf(61) == 11 && ShiftOf(61) == 10
    ensures WordOf(62) == 2 && ShiftOf(62) == 15
    ensures WordOf(63) == 9 && ShiftOf(63) == 21
  {
  }

  lemma Sines4()
    ensures T(48) == 4096336452
    ensures T(49) == 1126891415
    ensures T(50) == 2878612391
    ensures T(51) == 4237533241
    ensures T(52) == 1700485571
    ensures T(53) == 2399980690
    ensures T(54) == 4293915773
    ensures T(55) == 2240044497
    ensures T(56) == 1873313359
    ensures T(57) == 4264355552
    ensures T(58) == 2734768916
    ensures T(59) == 1309151649
    ensures T(60) == 4149444226
    ensures T(61) == 3174756917
    ensures T(62) == 718787259
    ensures T(63) == 3951481745
  {
  }

  /** Round 4: steps 49 to 64. */
  method Round4(x: seq<bv32>, a0: bv32, b0: bv32, c0: bv32, d0: bv32, ghost q: State)
    returns (a: bv32, b: bv32, c: bv32, d: bv32)
    requires |x| == 16 && State(a0, b0, c0, d0) == Steps(q, x, 48)
    ensures State(a, b, c, d) == Steps(q, x, 64)
  {
    hide I, II, NewA, Steps, Plus, RotateLeft, T, WordOf, ShiftOf;
    Table4();
    Sines4();
    a, b, c, d := a0, b0, c0, d0;
    FourSteps(q, x, 48);
    a := II(a, b, c, d, x[0], 6, 4096336452);
    d := II(d, a, b, c, x[7], 10, 1126891415);
    c := II(c, d, a, b, x[14], 15, 2878612391);
    b := II(b, c, d, a, x[5], 21, 4237533241);
    assert State(a, b, c, d) == Steps(q, x, 52);
    FourSteps(q, x, 52);
    a := II(a, b, c, d, x[12], 6, 1700485571);
    d := II(d, a, b, c, x[3], 10, 2399980690);
    c := II(c, d, a, b, x[10], 15, 4293915773);
    b := II(b, c, d, a, x[1], 21, 2240044497);
    assert State(a, b, c, d) == Steps(q, x, 56);
    FourSteps(q, x, 56);
    a := II(a, b, c, d, x[8], 6, 1873313359);
    d := II(d, a, b, c, x[15], 10, 4264355552);
    c := II(c, d, a, b, x[6], 15, 2734768916);
    b := II(b, c, d, a, x[13], 21, 1309151649);
    assert State(a, b, c, d) == Steps(q, x, 60);
    FourSteps(q, x, 60);
    a := II(a, b, c, d, x[4], 6, 4149444226);
    d := II(d, a, b, c, x[11], 10, 3174756917);
    c := II(c, d, a, b, x[2], 15, 718787259);
    b := II(b, c, d, a, x[9], 21, 3951481745);
    assert State(a, b, c, d) == Steps(q, x, 64);
  }


  ghost function StateOf(buf: array<bv32>): State
    requires buf.Length == 4
    reads buf
  {
    State(buf[0], buf[1], buf[2], buf[3])
  }

  /** `Transform` */
  method Transform(buf: array<bv32>, x: seq<bv32>)
    requires buf.Length == 4 && |x| == 16
    modifies buf
    ensures StateOf(buf) == Compress(old(StateOf(buf)), x)
  {
    hide Steps, Plus;
    ghost var q := StateOf(buf);
    NoSteps(q, x);
    var a, b, c, d := buf[0], buf[1], buf[2], buf[3];
    a, b, c, d := Round1(x, a, b, c, d, q);
    a, b, c, d := Round2(x, a, b, c, d, q);
    a, b, c, d := Round3(x, a, b, c, d, q);
    a, b, c, d := Round4(x, a, b, c, d, q);
    buf[0] := Plus(buf[0], a);
    buf[1] := Plus(buf[1], b);
    buf[2] := Plus(buf[2], c);
    buf[3] := Plus(buf[3], d);
  }

  lemma NoSteps(q: State, x: seq<bv32>)
    requires |x| == 16
    ensures Steps(q, x, 0) == q
  {
  }

  // ----- padding and length

  /** The state after all whole blocks of `m`. */
  function Hashed(m: octets): State {
    if |m| < 64 then INITIAL else Compress(Hashed(m[..|m| - 64]), Words(m[|m| - 64..]))
  }

  lemma HashedMore(m: octets, block: octets)
    requires |block| == 64
    ensures Hashed(m + block) == Compress(Hashed(m), Words(block))
  {
    assert (m + block)[..|m|] == m && (m + block)[|m|..] == block;
  }

  /** A one bit and zero bits, until the length in octets is 56 modulo 64. */
  function Padding(n: nat): octets { [0x80] + Zeros((119 - n % 64) % 64) }

  function LengthWord(x: nat): bv32 { (x % TWO32) as bv32 }

  /** The length in bits as two words, the low-order one first. */
  function LengthWords(n: nat): (r: seq<bv32>)
    ensures |r| == 2
  {
    var bits := 8 * n % TWO64;
    [LengthWord(bits % TWO32), LengthWord(bits / TWO32)]
  }

  /** The words of the last block before the length. */
  function Words14(block: octets): (x: seq<bv32>)
    requires |block| == 56
    ensures |x| == 14
  {
    seq(14, i requires 0 <= i < 14 => WordAt(block, i))
  }

  function Word(s: State, j: nat): bv32
    requires j < 4
  {
    [s.a, s.b, s.c, s.d][j]
  }

  function Octet(x: bv32, shift: nat): bv8
    requires shift <= 24
  {
    ((x >> shift) & 0xff) as bv8
  }

  /** The registers, each with its lowest octet first. */
  function Output(s: State): (r: octets)
    ensures |r| == 16 && forall i :: 0 <= i < 16 ==> r[i] == Octet(Word(s, i / 4), i % 4 * 8)
  {
    seq(16, i requires 0 <= i < 16 => Octet(Word(s, i / 4), i % 4 * 8))
  }

  lemma PaddedLength(m: octets)
    ensures |m + Padding(|m|)| % 64 == 56
  {
    ZerosNeeded(|m| / 64, |m| % 64);
  }

  lemma ZerosNeeded(q: nat, r: nat)
    requires r < 64
    ensures (119 - r) % 64 == if r < 56 then 55 - r else 119 - r
    ensures (64 * q + r + 1 + (119 - r) % 64) % 64 == 56
  {
  }

  /** The digest of a whole message. */
  function Digest(m: octets): octets {
    PaddedLength(m);
    var p := m + Padding(|m|);
    Output(Compress(Hashed(p[..|p| - 56]), Words14(p[|p| - 56..]) + LengthWords(|m|)))
  }

  lemma DigestIs(m: octets, whole: octets, last: octets)
    requires whole + last == m + Padding(|m|) && |last| == 56
    ensures Output(Compress(Hashed(whole), Words14(last) + LengthWords(|m|))) == Digest(m)
  {
    assert (whole + last)[..|whole|] == whole && (whole + last)[|whole|..] == last;
  }

  // ----- the implementation

  const PADDING: octets := [0x80] + Zeros(63)

  /** The two-word counter holds the number of bits modulo 2^64. */
  ghost predicate Counts(lo: int, hi: int, n: nat) {
    0 <= lo < TWO32 && 0 <= hi < TWO32 && lo + TWO32 * hi == 8 * n % TWO64
  }

  lemma CountsAreWords(lo: int, hi: int, n: nat)
    requires Counts(lo, hi, n)
    ensures 0 <= lo < TWO32 && 0 <= hi < TWO32 && (hi + 0) % TWO32 == hi
  {
  }

  /** The carry: the low word wraps around exactly when its sum gets smaller. */
  lemma CountMore(lo: int, hi: int, n: nat, len: nat)
    requires Counts(lo, hi, n) && len < TWO32
    ensures var sum := (lo + 8 * len % TWO32) % TWO32;
      Counts(sum, ((hi + (if sum < lo then 1 else 0)) % TWO32 + len / 0x2000_0000) % TWO32, n + len)
  {
    var low, high := 8 * len % TWO32, len / 0x2000_0000;
    assert 8 * len == low + TWO32 * high;
    var sum := (lo + low) % TWO32;
    var carry := if sum < lo then 1 else 0;
    assert lo + low == sum + TWO32 * carry;
    var hi' := (hi + carry + high) % TWO32;
    var wraps := (hi + carry + high) / TWO32;
    assert hi + carry + high == hi' + TWO32 * wraps;
    assert lo + TWO32 * hi + 8 * len == sum + TWO32 * hi' + TWO64 * wraps;
    SumModulo(8 * n, 8 * len, sum + TWO32 * hi', lo + TWO32 * hi, wraps);
    CarryTwice(hi, carry, high);
  }

  lemma CarryTwice(hi: nat, carry: nat, high: nat)
    ensures ((hi + carry) % TWO32 + high) % TWO32 == (hi + carry + high) % TWO32
  {
  }

  lemma SumModulo(a: nat, b: nat, r: nat, c: nat, wraps: nat)
    requires c == a % TWO64 && c + b == r + TWO64 * wraps && r < TWO64
    ensures (a + b) % TWO64 == r
  {
    assert a + b == r + TWO64 * (wraps + a / TWO64);
    Remainder(r, wraps + a / TWO64);
  }

  lemma Remainder(r: nat, k: int)
    requires r < TWO64
    ensures (r + TWO64 * k) % TWO64 == r
  {
  }

  /** `MD5_CTX` */
  class Context {
    const in_: array<bv8>
    const buf: array<bv32>
    var i0: nat
    var i1: nat
    ghost var whole: octets // the octets hashed so far: whole blocks
    ghost var tail: octets  // the octets waiting in the buffer

    ghost predicate Buffered()
      reads this`whole, this`tail, in_, buf
    {
      in_.Length == 64 && buf.Length == 4 &&
      |whole| % 64 == 0 && |tail| < 64 && Starts(in_, tail) && StateOf(buf) == Hashed(whole)
    }

    ghost predicate Valid()
      reads this, in_, buf
    {
      Buffered() && Counts(i0, i1, |whole + tail|)
    }

    /** `MD5Init` */
    constructor ()
      ensures Valid() && fresh(in_) && fresh(buf) && whole + tail == []
    {
      in_ := new bv8[64];
      var b := new bv32[4];
      b[0], b[1], b[2], b[3] := 0x67452301, 0xefcdab89, 0x98badcfe, 0x10325476;
      buf := b;
      i0, i1, whole, tail := 0, 0, [], [];
    }

    /** The words of the first `n` quadruples in the buffer. */
    method Decode(n: nat) returns (x: seq<bv32>)
      requires in_.Length == 64 && n <= 16
      ensures |x| == n && forall i :: 0 <= i < n ==>
        x[i] == LittleEndian(in_[4 * i], in_[4 * i + 1], in_[4 * i + 2], in_[4 * i + 3])
    {
      hide LittleEndian;
      x := [];
      var i, ii := 0, 0;
      while i < n
        invariant i <= n && ii == 4 * i && |x| == i
        invariant forall j :: 0 <= j < i ==>
          x[j] == LittleEndian(in_[4 * j], in_[4 * j + 1], in_[4 * j + 2], in_[4 * j + 3])
      {
        x := x + [LittleEndian(in_[ii], in_[ii + 1], in_[ii + 2], in_[ii + 3])];
        i, ii := i + 1, ii + 4;
      }
    }

    /** One octet of `MD5Update`. */
    method Put(mdi: nat, c: bv8) returns (mdi': nat)
      requires Buffered() && mdi == |tail|
      modifies this`whole, this`tail, in_, buf
      ensures Buffered() && mdi' == |tail| && whole + tail == old(whole + tail) + [c]
    {
      hide Hashed, Compress, LittleEndian, StateOf;
      in_[mdi] := c;
      mdi' := mdi + 1;
      tail := tail + [c];
      if mdi' == 0x40 {
        HashedMore(whole, tail);
        var x := Decode(16);
        assert x == Words(tail);
        Transform(buf, x);
        mdi' := 0;
        whole, tail := whole + tail, [];
      }
    }

    /** `MD5Update` */
    method Update(input: octets)
      requires Valid() && |input| < TWO32
      modifies this, in_, buf
      ensures Valid() && whole + tail == old(whole + tail) + input
    {
      hide Context.Buffered, Counts;
      var mdi := BufferIndex();
      Sizes();
      AddBits(|input|, |whole + tail|);
      mdi := PutAll(mdi, input);
    }

    /** `(i[0] >> 3) & 0x3F` */
    method BufferIndex() returns (mdi: nat)
      requires Valid()
      ensures mdi == |tail|
    {
      mdi := i0 / 8 % 64;
      IndexIs(i0, i1, |whole|, |tail|);
    }

    /** The two-word counter, with `len << 3` and `len >> 29`. */
    method AddBits(len: nat, ghost n: nat)
      requires Counts(i0, i1, n) && len < TWO32
      modifies this`i0, this`i1
      ensures Counts(i0, i1, n + len)
    {
      hide Counts;
      CountsAreWords(i0, i1, n);
      CountMore(i0, i1, n, len);
      var shifted := 8 * len % TWO32;
      if (i0 + shifted) % TWO32 < i0 {
        i1 := (i1 + 1) % TWO32;
      }
      i0 := (i0 + shifted) % TWO32;
      i1 := (i1 + len / 0x2000_0000) % TWO32;
    }

    method PutAll(start: nat, input: octets) returns (mdi: nat)
      requires Buffered() && start == |tail|
      modifies this`whole, this`tail, in_, buf
      ensures Buffered() && mdi == |tail| && whole + tail == old(whole + tail) + input
    {
      hide Context.Buffered;
      mdi := start;
      var n := 0;
      while n < |input|
        invariant n <= |input| && Buffered() && mdi == |tail| && whole + tail == old(whole + tail) + input[..n]
      {
        mdi := Put(mdi, input[n]);
        n := n + 1;
      }
      assert input[..n] == input;
    }

    lemma Sizes()
      requires Valid()
      ensures Counts(i0, i1, |whole + tail|) && Buffered() && |whole| % 64 == 0 && |tail| < 64
      ensures i0 < TWO32 && i1 < TWO32
    {
    }

    /** `MD5Final`, up to the copying of the result. */
    method Finish()
      requires Valid()
      modifies this, in_, buf
      ensures buf.Length == 4 && Output(StateOf(buf)) == old(Digest(whole + tail))
    {
      hide Digest, Output, Context.Valid, Context.Buffered, Counts, LengthWords, Padding;
      ghost var message := whole + tail;
      Sizes();
      var x14, x15 := LengthWord(i0), LengthWord(i1);
      LengthIs(i0, i1, |message|);
      var mdi := BufferIndex();
      var padLen := if mdi < 56 then 56 - mdi else 120 - mdi;
      PaddingIs(|whole|, mdi, padLen);
      PaddedLength(message);
      Update(PADDING[..padLen]);
      Sizes();
      LastBlock(|whole|, |tail|, |message + Padding(|message|)|);
      FinishBlock(x14, x15, message);
    }

    /** The last block: fourteen words from the buffer and the length. */
    method FinishBlock(x14: bv32, x15: bv32, ghost message: octets)
      requires Buffered() && |tail| == 56 && whole + tail == message + Padding(|message|)
      requires LengthWords(|message|) == [x14, x15]
      modifies buf
      ensures buf.Length == 4 && Output(StateOf(buf)) == Digest(message)
    {
      hide Hashed, Compress, Output, LittleEndian, LengthWords, Digest, Padding;
      var x := Decode(14);
      assert x == Words14(tail);
      DigestIs(message, whole, tail);
      Transform(buf, x + [x14, x15]);
    }
  }

  lemma IndexIs(lo: int, hi: int, w: nat, n: nat)
    requires Counts(lo, hi, w + n) && w % 64 == 0 && n < 64
    ensures lo / 8 % 64 == n
  {
    var total := w + n;
    var k := 8 * total / TWO64;
    assert 8 * total == lo + TWO32 * hi + TWO64 * k;
    assert lo == 8 * (total - 0x2000_0000 * hi - 0x2000_0000_0000_0000 * k);
    assert lo / 8 == 64 * (w / 64 - 0x80_0000 * hi - 0x80_0000_0000_0000 * k) + n;
    Remainder64(n, w / 64 - 0x80_0000 * hi - 0x80_0000_0000_0000 * k);
  }

  lemma Remainder64(n: nat, k: int)
    requires n < 64
    ensures (64 * k + n) % 64 == n
  {
  }

  lemma LengthIs(lo: nat, hi: nat, n: nat)
    requires Counts(lo, hi, n)
    ensures LengthWords(n) == [LengthWord(lo), LengthWord(hi)]
  {
    hide LengthWord;
    var bits := 8 * n % TWO64;
    assert bits % TWO32 == lo && bits / TWO32 == hi;
  }

  lemma PaddingIs(w: nat, n: nat, padLen: nat)
    requires w % 64 == 0 && n < 64 && padLen == if n < 56 then 56 - n else 120 - n
    ensures padLen <= 64 && PADDING[..padLen] == Padding(w + n)
  {
    assert (w + n) % 64 == n;
    ZerosNeeded(w / 64, n);
  }

  lemma LastBlock(w: nat, n: nat, total: nat)
    requires w % 64 == 0 && n < 64 && w + n == total && total % 64 == 56
    ensures n == 56
  {
  }

  /** The last loop of `MD5Final`: the registers, lowest octet first. */
  method CopyOut(buf: array<bv32>, hash: array<bv8>)
    requires buf.Length == 4 && hash.Length >= 16
    modifies hash
    ensures Starts(hash, Output(StateOf(buf)))
  {
    hide Octet, Word, StateOf, Output;
    ghost var out := Output(StateOf(buf));
    var i, ii := 0, 0;
    while i < 4
      invariant 0 <= i <= 4 && ii == 4 * i
      invariant forall x :: 0 <= x < ii ==> hash[x] == out[x]
    {
      OutputOf(buf, i);
      hash[ii] := Octet(buf[i], 0);
      hash[ii + 1] := Octet(buf[i], 8);
      hash[ii + 2] := Octet(buf[i], 16);
      hash[ii + 3] := Octet(buf[i], 24);
      i, ii := i + 1, ii + 4;
    }
  }

  /** The four octets of one word. */
  lemma OutputOf(buf: array<bv32>, j: nat)
    requires buf.Length == 4 && j < 4
    ensures var out := Output(StateOf(buf));
      out[4 * j] == Octet(buf[j], 0) && out[4 * j + 1] == Octet(buf[j], 8) &&
      out[4 * j + 2] == Octet(buf[j], 16) && out[4 * j + 3] == Octet(buf[j], 24)
  {
    hide Octet, Word, StateOf;
    WordsAre(buf);
    assert 4 * j / 4 == (4 * j + 1) / 4 == (4 * j + 2) / 4 == (4 * j + 3) / 4 == j;
  }

  lemma WordsAre(buf: array<bv32>)
    requires buf.Length == 4
    ensures forall j :: 0 <= j < 4 ==> Word(StateOf(buf), j) == buf[j]
  {
    forall j | 0 <= j < 4 ensures Word(StateOf(buf), j) == buf[j] { assert j in [0, 1, 2, 3]; }
  }

  /** However a message is cut into chunks, the digest is that of the message. */
  method HashChunks(chunks: seq<octets>) returns (hash: octets)
    requires forall i :: 0 <= i < |chunks| ==> |chunks[i]| < TWO32
    ensures hash == Digest(Concatenated(chunks))
  {
    hide Digest, Hashed, Compress, Output, Context.Valid;
    var ctx := new Context();
    var i := 0;
    while i < |chunks|
      invariant i <= |chunks| && ctx.Valid() && fresh(ctx) && fresh(ctx.in_) && fresh(ctx.buf)
      invariant ctx.whole + ctx.tail + Concatenated(chunks[i..]) == Concatenated(chunks)
    {
      ctx.Update(chunks[i]);
      assert chunks[i..][1..] == chunks[i + 1..];
      i := i + 1;
    }
    assert ctx.whole + ctx.tail + [] == ctx.whole + ctx.tail;
    ctx.Finish();
    var out := new bv8[16];
    CopyOut(ctx.buf, out);
    hash := out[..];
    assert hash == Digest(Concatenated(chunks));
  }
}
