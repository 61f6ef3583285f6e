/** Bitwise operations on non-negative integers, and the two places where cJSON uses them. */
module Bits {
  import opened Bytes

  function BitOr(a: nat, b: nat): nat
    decreases a + b
  {
    if a == 0 && b == 0 then 0
    else 2 * BitOr(a / 2, b / 2) + (if a % 2 == 1 || b % 2 == 1 then 1 else 0)
  }

  function BitAnd(a: nat, b: nat): nat {
    if a == 0 then 0
    else 2 * BitAnd(a / 2, b / 2) + (if a % 2 == 1 && b % 2 == 1 then 1 else 0)
  }

  function Shr(x: nat, k: nat): nat
    decreases k
  {
    if k == 0 then x else Shr(x / 2, k - 1)
  }

  function Bit(x: nat, i: nat): nat
    decreases i
  {
    if i == 0 then x % 2 else Bit(x / 2, i - 1)
  }

  // ----- pow2gt

  function SmearBy(x: nat, k: nat): nat { BitOr(x, Shr(x, k)) }

  /** `pow2gt`: five or-shift steps fill every bit below the leading one. */
  function Pow2gt(x: int): int
    requires 1 <= x
  {
    Smeared(x - 1) + 1
  }

  lemma {:induction false} BitOfOr(a: nat, b: nat, i: nat)
    ensures Bit(BitOr(a, b), i) == if Bit(a, i) == 1 || Bit(b, i) == 1 then 1 else 0
    decreases i
  {
    if a == 0 && b == 0 {
      BitOfZero(i);
    } else if i > 0 {
      BitOfOr(a / 2, b / 2, i - 1);
    }
  }

  lemma {:induction false} BitOfZero(i: nat)
    ensures Bit(0, i) == 0
    decreases i
  {
    if i > 0 { BitOfZero(i - 1); }
  }

  lemma {:induction false} BitOfShr(x: nat, k: nat, i: nat)
    ensures Bit(Shr(x, k), i) == Bit(x, i + k)
    decreases k
  {
    if k > 0 { BitOfShr(x / 2, k - 1, i); }
  }

  lemma {:induction false} BitOrBound(a: nat, b: nat, n: nat)
    requires a < Pow2(n) && b < Pow2(n)
    ensures BitOr(a, b) < Pow2(n)
    decreases n
  {
    if n > 0 { BitOrBound(a / 2, b / 2, n - 1); }
  }

  lemma {:induction false} ShrBound(x: nat, k: nat)
    ensures Shr(x, k) <= x
    decreases k
  {
    if k > 0 { ShrBound(x / 2, k - 1); }
  }

  lemma {:induction false} AllOnes(x: nat, n: nat)
    requires x < Pow2(n)
    requires forall i :: 0 <= i < n ==> Bit(x, i) == 1
    ensures x == Pow2(n) - 1
    decreases n
  {
    if n > 0 {
      assert Bit(x, 0) == 1;
      forall i | 0 <= i < n - 1 ensures Bit(x / 2, i) == 1 { assert Bit(x, i + 1) == 1; }
      AllOnes(x / 2, n - 1);
    }
  }

  /** The top `m` of the `n` bits of `x` are ones. */
  ghost predicate TopOnes(x: nat, n: nat, m: nat) {
    x < Pow2(n) && forall i :: 0 <= i < n && n <= i + m ==> Bit(x, i) == 1
  }

  lemma SmearStep(x: nat, n: nat, m: nat)
    requires TopOnes(x, n, m)
    ensures TopOnes(SmearBy(x, m), n, 2 * m)
  {
    ShrBound(x, m);
    BitOrBound(x, Shr(x, m), n);
    forall i | 0 <= i < n && n <= i + 2 * m ensures Bit(SmearBy(x, m), i) == 1 {
      BitOfOr(x, Shr(x, m), i);
      BitOfShr(x, m, i);
    }
  }

  lemma {:induction false} BitLength(x: nat) returns (n: nat)
    requires x > 0
    ensures n > 0 && Pow2(n - 1) <= x < Pow2(n) && Bit(x, n - 1) == 1
  {
    if x == 1 {
      n := 1;
    } else {
      var k := BitLength(x / 2);
      n := k + 1;
    }
  }

  lemma {:induction false} Pow2Monotone(m: nat, n: nat)
    requires m <= n
    ensures Pow2(m) <= Pow2(n)
    decreases n
  {
    if m < n { Pow2Monotone(m, n - 1); }
  }

  lemma {:induction false} Pow2Bounds(n: nat, m: nat)
    requires Pow2(n) < Pow2(m)
    ensures n < m
  {
    if n >= m { Pow2Monotone(m, n); }
  }

  function Smeared(y: nat): nat {
    SmearBy(SmearBy(SmearBy(SmearBy(SmearBy(y, 1), 2), 4), 8), 16)
  }

  lemma SmearZero(k: nat)
    ensures SmearBy(0, k) == 0
  {
    ShrBound(0, k);
  }

  lemma SmearedZero()
    ensures Smeared(0) == 0
  {
    SmearZero(1); SmearZero(2); SmearZero(4); SmearZero(8); SmearZero(16);
  }

  /** The five steps turn an `n`-bit number into `n` ones. */
  lemma SmearedOnes(y: nat, n: nat)
    requires 0 < n <= 32 && Pow2(n - 1) <= y < Pow2(n) && Bit(y, n - 1) == 1
    ensures Smeared(y) == Pow2(n) - 1
  {
    assert TopOnes(y, n, 1);
    SmearStep(y, n, 1);
    var a := SmearBy(y, 1);
    SmearStep(a, n, 2);
    var b := SmearBy(a, 2);
    SmearStep(b, n, 4);
    var c := SmearBy(b, 4);
    SmearStep(c, n, 8);
    var d := SmearBy(c, 8);
    SmearStep(d, n, 16);
    AllOnes(SmearBy(d, 16), n);
  }

  /** Up to 2^30, `pow2gt` returns the least power of two that is at least its argument. */
  lemma Pow2gtIsLeast(x: int) returns (n: nat)
    requires 1 <= x <= Pow2(30)
    ensures n <= 30 && Pow2gt(x) == Pow2(n) && x <= Pow2(n)
    ensures forall m: nat :: Pow2(m) >= x ==> Pow2(m) >= Pow2(n)
  {
    hide Pow2, Smeared, Bit;
    Pow2Start();
    var y := x - 1;
    if y == 0 {
      n := 0;
      SmearedZero();
    } else {
      n := BitLength(y);
      Pow2Bounds(n - 1, 30);
      SmearedOnes(y, n);
    }
    forall m: nat | Pow2(m) >= x ensures Pow2(m) >= Pow2(n) {
      if n > 0 {
        Pow2Bounds(n - 1, m);
        Pow2Monotone(n, m);
      }
    }
  }

  lemma Pow2Start()
    ensures Pow2(0) == 1
  {
  }

  // ----- the UTF-8 byte operations of parse_string

  lemma {:induction false} OrOfDisjoint(a: nat, b: nat, k: nat)
    requires a < Pow2(k)
    ensures BitOr(a, b * Pow2(k)) == a + b * Pow2(k)
    decreases k
  {
    if k == 0 {
      OrWithZero(b);
    } else {
      assert b * Pow2(k) == 2 * (b * Pow2(k - 1));
      OrOfDisjoint(a / 2, b, k - 1);
    }
  }

  lemma {:induction false} OrWithZero(b: nat)
    ensures BitOr(0, b) == b
  {
    if b > 0 { OrWithZero(b / 2); }
  }

  lemma OrEven(a: nat, b: nat)
    ensures BitOr(a, 2 * b) == 2 * BitOr(a / 2, b) + a % 2
  {
  }

  lemma AndOdd(a: nat, b: nat)
    ensures BitAnd(a, 2 * b + 1) == 2 * BitAnd(a / 2, b) + a % 2
  {
  }

  /** Three halvings at once. */
  lemma OrEven8(a: nat, b: nat)
    ensures BitOr(a, 8 * b) == 8 * BitOr(a / 8, b) + a % 8
  {
    var a1 := a / 2;
    var a2 := a1 / 2;
    OrEven(a, 4 * b); OrEven(a1, 2 * b); OrEven(a2, b);
  }

  lemma OrHighBit(uc: nat)
    ensures BitOr(uc, 0x80) == 128 * BitOr(uc / 128, 1) + uc % 128
  {
    var a := uc / 8;
    var b := a / 8;
    OrEven8(uc, 16); OrEven8(a, 2); OrEven(b, 1);
    assert uc / 128 == b / 2;
  }

  lemma AndOdd8(a: nat, b: nat)
    ensures BitAnd(a, 8 * b + 7) == 8 * BitAnd(a / 8, b) + a % 8
  {
    hide BitAnd;
    var a1 := a / 2;
    var a2 := a1 / 2;
    AndOdd(a, 4 * b + 3);
    AndOdd(a1, 2 * b + 1);
    AndOdd(a2, b);
    assert a2 / 2 == a / 8 && a % 8 == a % 2 + 2 * (a1 % 2) + 4 * (a2 % 2);
  }

  lemma AndTwo(a: nat)
    ensures BitAnd(a, 2) == 2 * (a / 2 % 2)
  {
    var h := a / 2;
    assert BitAnd(a, 2) == 2 * BitAnd(h, 1);
    AndOdd(h, 0);
    AndWithZero(h / 2);
  }

  lemma AndMask(y: nat)
    ensures BitAnd(y, 0xBF) == 128 * (y / 128 % 2) + y % 64
  {
    var a := y / 8;
    var b := a / 8;
    AndOdd8(y, 23); AndOdd8(a, 2); AndTwo(b);
    DivMod64(y);
  }

  lemma DivMod64(y: nat)
    ensures y / 8 / 8 / 2 == y / 128
    ensures y % 8 + 8 * (y / 8 % 8) == y % 64
  {
    var low, b := y % 8 + 8 * (y / 8 % 8), y / 8 / 8;
    assert y == 64 * b + low && b == 2 * (b / 2) + b % 2;
    Quotient(y, 64, b, low);
    Quotient(y, 128, b / 2, 64 * (b % 2) + low);
  }

  lemma Quotient(y: nat, d: nat, q: nat, r: nat)
    requires y == d * q + r && r < d
    ensures y / d == q && y % d == r
  {
    var k := y / d;
    assert y == d * k + y % d;
    assert (k < q ==> d * (k + 1) <= d * q) && (k > q ==> d * (q + 1) <= d * k);
  }

  lemma {:induction false} AndWithZero(a: nat)
    ensures BitAnd(a, 0) == 0
  {
    if a > 0 { AndWithZero(a / 2); }
  }

  /** `(uc | 0x80) & 0xBF` is a UTF-8 continuation byte holding the low six bits of `uc`. */
  lemma ContinuationByte(uc: nat)
    ensures BitAnd(BitOr(uc, 0x80), 0xBF) == 0x80 + uc % 64
  {
    OrHighBit(uc);
    AndMask(BitOr(uc, 0x80));
    OddOr(uc / 128);
    HighAndLow(uc, BitOr(uc / 128, 1));
  }

  lemma OddOr(a: nat)
    ensures BitOr(a, 1) % 2 == 1
  {
    assert BitOr(a, 1) == 2 * BitOr(a / 2, 0) + 1;
  }

  lemma HighAndLow(uc: nat, h: nat)
    ensures (128 * h + uc % 128) / 128 == h && (128 * h + uc % 128) % 64 == uc % 64
  {
  }
}
