/** Laws of the functions on 32-bit words that the hash algorithms use, for all arguments. */
module WordLaws {

  import Md5
  import Sha256

  // ----- selecting

  /** F takes y where x has a one bit, and z elsewhere. */
  lemma FSelects(x: bv32, y: bv32, z: bv32)
    ensures Md5.F(x, y, z) & x == y & x && Md5.F(x, y, z) & !x == z & !x
  {
  }

  /** G takes x where z has a one bit, and y elsewhere. */
  lemma GSelects(x: bv32, y: bv32, z: bv32)
    ensures Md5.G(x, y, z) & z == x & z && Md5.G(x, y, z) & !z == y & !z
  {
  }

  /** H is the parity: next to two equal words, the third one is left. */
  lemma HIsParity(x: bv32, y: bv32, z: bv32)
    ensures Md5.H(x, x, z) == z && Md5.H(x, y, x) == y && Md5.H(x, y, y) == x
  {
  }

  /** I takes y where x has a zero bit and z a one bit, and the opposite of y elsewhere. */
  lemma ISelects(x: bv32, y: bv32, z: bv32)
    ensures Md5.I(x, y, z) & (!x & z) == y & (!x & z) && Md5.I(x, y, z) & (x | !z) == !y & (x | !z)
  {
  }

  /** Ch takes y where x has a one bit, and z elsewhere. */
  lemma ChSelects(x: bv32, y: bv32, z: bv32)
    ensures Sha256.Ch(x, y, z) & x == y & x && Sha256.Ch(x, y, z) & !x == z & !x
  {
  }

  /** Maj takes the bit that two of the words agree on. */
  lemma MajIsMajority(x: bv32, y: bv32, z: bv32)
    ensures Sha256.Maj(x, x, z) == x && Sha256.Maj(x, y, x) == x && Sha256.Maj(x, y, y) == y
  {
  }

  // ----- rotating

  function TwoTo(n: nat): bv32 { if n == 0 then 1 else 2 * TwoTo(n - 1) }

  /** `r` is x * up modulo 2^32 and the bits that leave on the left, which come back on the right. */
  predicate Rotated(r: bv32, x: bv32, up: bv32, down: bv32) { down != 0 && r == x * up + x / down }

  lemma PowersOfTwo()
    ensures TwoTo(0) == 1
    ensures TwoTo(1) == 2
    ensures TwoTo(2) == 4
    ensures TwoTo(3) == 8
    ensures TwoTo(4) == 16
    ensures TwoTo(5) == 32
    ensures TwoTo(6) == 64
    ensures TwoTo(7) == 128
    ensures TwoTo(8) == 256
    ensures TwoTo(9) == 512
    ensures TwoTo(10) == 0x400
    ensures TwoTo(11) == 0x800
    ensures TwoTo(12) == 0x1000
    ensures TwoTo(13) == 0x2000
    ensures TwoTo(14) == 0x4000
    ensures TwoTo(15) == 0x8000
    ensures TwoTo(16) == 0x1_0000
    ensures TwoTo(17) == 0x2_0000
    ensures TwoTo(18) == 0x4_0000
    ensures TwoTo(19) == 0x8_0000
    ensures TwoTo(20) == 0x10_0000
    ensures TwoTo(21) == 0x20_0000
    ensures TwoTo(22) == 0x40_0000
    ensures TwoTo(23) == 0x80_0000
    ensures TwoTo(24) == 0x100_0000
    ensures TwoTo(25) == 0x200_0000
    ensures TwoTo(26) == 0x400_0000
    ensures TwoTo(27) == 0x800_0000
    ensures TwoTo(28) == 0x1000_0000
    ensures TwoTo(29) == 0x2000_0000
    ensures TwoTo(30) == 0x4000_0000
    ensures TwoTo(31) == 0x8000_0000
  {
  }

  lemma RotatedBy1(x: bv32) ensures Rotated(Md5.RotateLeft(x, 1), x, 2, 0x8000_0000) {}
  lemma RotatedBy2(x: bv32) ensures Rotated(Md5.RotateLeft(x, 2), x, 4, 0x4000_0000) {}
  lemma RotatedBy3(x: bv32) ensures Rotated(Md5.RotateLeft(x, 3), x, 8, 0x2000_0000) {}
  lemma RotatedBy4(x: bv32) ensures Rotated(Md5.RotateLeft(x, 4), x, 16, 0x1000_0000) {}
  lemma RotatedBy5(x: bv32) ensures Rotated(Md5.RotateLeft(x, 5), x, 32, 0x800_0000) {}
  lemma RotatedBy6(x: bv32) ensures Rotated(Md5.RotateLeft(x, 6), x, 64, 0x400_0000) {}
  lemma RotatedBy7(x: bv32) ensures Rotated(Md5.RotateLeft(x, 7), x, 128, 0x200_0000) {}
  lemma RotatedBy8(x: bv32) ensures Rotated(Md5.RotateLeft(x, 8), x, 256, 0x100_0000) {}
  lemma RotatedBy9(x: bv32) ensures Rotated(Md5.RotateLeft(x, 9), x, 512, 0x80_0000) {}
  lemma RotatedBy10(x: bv32) ensures Rotated(Md5.RotateLeft(x, 10), x, 0x400, 0x40_0000) {}
  lemma RotatedBy11(x: bv32) ensures Rotated(Md5.RotateLeft(x, 11), x, 0x800, 0x20_0000) {}
  lemma RotatedBy12(x: bv32) ensures Rotated(Md5.RotateLeft(x, 12), x, 0x1000, 0x10_0000) {}
  lemma RotatedBy13(x: bv32) ensures Rotated(Md5.RotateLeft(x, 13), x, 0x2000, 0x8_0000) {}
  lemma RotatedBy14(x: bv32) ensures Rotated(Md5.RotateLeft(x, 14), x, 0x4000, 0x4_0000) {}
  lemma RotatedBy15(x: bv32) ensures Rotated(Md5.RotateLeft(x, 15), x, 0x8000, 0x2_0000) {}
  lemma RotatedBy16(x: bv32) ensures Rotated(Md5.RotateLeft(x, 16), x, 0x1_0000, 0x1_0000) {}
  lemma RotatedBy17(x: bv32) ensures Rotated(Md5.RotateLeft(x, 17), x, 0x2_0000, 0x8000) {}
  lemma RotatedBy18(x: bv32) ensures Rotated(Md5.RotateLeft(x, 18), x, 0x4_0000, 0x4000) {}
  lemma RotatedBy19(x: bv32) ensures Rotated(Md5.RotateLeft(x, 19), x, 0x8_0000, 0x2000) {}
  lemma RotatedBy20(x: bv32) ensures Rotated(Md5.RotateLeft(x, 20), x, 0x10_0000, 0x1000) {}
  lemma RotatedBy21(x: bv32) ensures Rotated(Md5.RotateLeft(x, 21), x, 0x20_0000, 0x800) {}
  lemma RotatedBy22(x: bv32) ensures Rotated(Md5.RotateLeft(x, 22), x, 0x40_0000, 0x400) {}
  lemma RotatedBy23(x: bv32) ensures Rotated(Md5.RotateLeft(x, 23), x, 0x80_0000, 512) {}
  lemma RotatedBy24(x: bv32) ensures Rotated(Md5.RotateLeft(x, 24), x, 0x100_0000, 256) {}
  lemma RotatedBy25(x: bv32) ensures Rotated(Md5.RotateLeft(x, 25), x, 0x200_0000, 128) {}
  lemma RotatedBy26(x: bv32) ensures Rotated(Md5.RotateLeft(x, 26), x, 0x400_0000, 64) {}
  lemma RotatedBy27(x: bv32) ensures Rotated(Md5.RotateLeft(x, 27), x, 0x800_0000, 32) {}
  lemma RotatedBy28(x: bv32) ensures Rotated(Md5.RotateLeft(x, 28), x, 0x1000_0000, 16) {}
  lemma RotatedBy29(x: bv32) ensures Rotated(Md5.RotateLeft(x, 29), x, 0x2000_0000, 8) {}
  lemma RotatedBy30(x: bv32) ensures Rotated(Md5.RotateLeft(x, 30), x, 0x4000_0000, 4) {}
  lemma RotatedBy31(x: bv32) ensures Rotated(Md5.RotateLeft(x, 31), x, 0x8000_0000, 2) {}

  /** Rotating to the left by n places is multiplying by 2^n modulo 2^32 and adding x / 2^(32-n), for every word. */
  lemma RotateLeftIs(x: bv32, n: nat)
    requires 0 < n < 32
    ensures Rotated(Md5.RotateLeft(x, n), x, TwoTo(n), TwoTo(32 - n))
  {
    hide Rotated, Md5.RotateLeft, TwoTo;
    PowersOfTwo();
    RotatedBy1(x); RotatedBy2(x); RotatedBy3(x); RotatedBy4(x);
    RotatedBy5(x); RotatedBy6(x); RotatedBy7(x); RotatedBy8(x);
    RotatedBy9(x); RotatedBy10(x); RotatedBy11(x); RotatedBy12(x);
    RotatedBy13(x); RotatedBy14(x); RotatedBy15(x); RotatedBy16(x);
    RotatedBy17(x); RotatedBy18(x); RotatedBy19(x); RotatedBy20(x);
    RotatedBy21(x); RotatedBy22(x); RotatedBy23(x); RotatedBy24(x);
    RotatedBy25(x); RotatedBy26(x); RotatedBy27(x); RotatedBy28(x);
    RotatedBy29(x); RotatedBy30(x); RotatedBy31(x);
  }

  /** Rotating to the right is x / 2^n and the n bits that leave on the right, on the left again. */
  lemma RotateRightIs(x: bv32, n: nat)
    requires 0 < n < 32
    ensures Rotated(Sha256.RotateRight(x, n), x, TwoTo(32 - n), TwoTo(n))
  {
    hide Rotated, Md5.RotateLeft, Sha256.RotateRight, TwoTo;
    RightIsLeft(x, n);
    RotateLeftIs(x, 32 - n);
  }

  lemma RightIsLeft(x: bv32, n: nat)
    requires 0 < n < 32
    ensures Sha256.RotateRight(x, n) == Md5.RotateLeft(x, 32 - n)
  {
  }
}
