/** Bytes, C strings and the few integer bit operations the C code relies on. */
module Bytes {

  type byte = x: int | 0 <= x < 256

  /** A C string is modelled by the bytes before its terminating NUL. */
  type bytes = seq<byte>

  const TAB: byte := 9
  const LF: byte := 10
  const CR: byte := 13
  const SPACE: byte := 32
  const QUOTE: byte := 34
  const STAR: byte := 42
  const COMMA: byte := 44
  const MINUS: byte := 45
  const DOT: byte := 46
  const SLASH: byte := 47
  const COLON: byte := 58
  const QUESTION: byte := 63
  const LBRACKET: byte := 91
  const BACKSLASH: byte := 92
  const RBRACKET: byte := 93
  const LBRACE: byte := 123
  const RBRACE: byte := 125

  /** A text of characters up to 255, as bytes. */
  function Ascii(s: string): (r: bytes)
    requires forall i :: 0 <= i < |s| ==> s[i] < 256 as char
    ensures |r| == |s| && forall i :: 0 <= i < |s| ==> r[i] == s[i] as int
  {
    seq(|s|, i requires 0 <= i < |s| => s[i] as int)
  }

  /** The characters behind the names. */
  lemma CharactersAre()
    ensures [TAB, LF, CR, SPACE, QUOTE, STAR, COMMA, MINUS, DOT, SLASH] == Ascii("\t\n\r \"*,-./")
    ensures [COLON, QUESTION, LBRACKET, BACKSLASH, RBRACKET, LBRACE, RBRACE] == Ascii(":?[\\]{}")
  {
  }

  /** Reading `s[i]` of a C string: at the end of the contents sits the terminator. */
  function At(s: bytes, i: nat): byte {
    if i < |s| then s[i] else 0
  }

  predicate IsDigit(b: byte) { 48 <= b <= 57 }

  predicate HasPrefix(s: bytes, p: bytes) {
    |p| <= |s| && s[..|p|] == p
  }

  predicate NoNul(s: bytes) { forall i :: 0 <= i < |s| ==> s[i] != 0 }

  function Repeat(b: byte, n: nat): (r: bytes)
    ensures |r| == n && forall i :: 0 <= i < n ==> r[i] == b
  {
    seq(n, _ => b)
  }

  function Pow2(n: nat): (r: nat)
    ensures r >= 1
  {
    if n == 0 then 1 else 2 * Pow2(n - 1)
  }

  /** A power of ten. */
  function TenTo(k: nat): nat { if k == 0 then 1 else 10 * TenTo(k - 1) }

  predicate AllDigits(s: bytes) { forall i :: 0 <= i < |s| ==> IsDigit(s[i]) }

  /** The number a digit string denotes, last digit first. */
  function Decimal(s: bytes): nat
    requires AllDigits(s)
  {
    if s == [] then 0 else 10 * Decimal(s[..|s| - 1]) + (s[|s| - 1] - 48)
  }

  lemma {:induction false} DecimalOfBoth(s: bytes, t: bytes)
    requires AllDigits(s) && AllDigits(t)
    ensures Decimal(s + t) == Decimal(s) * TenTo(|t|) + Decimal(t)
    decreases |t|
  {
    if t == [] {
      assert s + t == s;
    } else {
      var u, d := t[..|t| - 1], t[|t| - 1];
      assert (s + t)[..|s + t| - 1] == s + u && (s + t)[|s + t| - 1] == d;
      DecimalOfBoth(s, u);
      TimesTen(Decimal(s), TenTo(|u|));
    }
  }

  lemma TimesTen(a: nat, p: nat)
    ensures 10 * (a * p) == a * (10 * p)
  {
  }

  lemma DecimalFirst(s: bytes)
    requires s != [] && AllDigits(s)
    ensures Decimal(s) == (s[0] - 48) * TenTo(|s| - 1) + Decimal(s[1..])
  {
    var first := s[..1];
    assert s == first + s[1..] && first[..0] == [];
    DecimalOfBoth(first, s[1..]);
  }

  function Pow10(e: int): (r: real)
    decreases if e < 0 then -e else e
  {
    if e == 0 then 1.0 else if e > 0 then 10.0 * Pow10(e - 1) else Pow10(e + 1) / 10.0
  }

  lemma Concat3(a: bytes, b: bytes, c: bytes)
    ensures a + (b + c) == a + b + c
  {
  }

  lemma Concat5(a: bytes, b: bytes, c: bytes, d: bytes, e: bytes)
    ensures a + (b + (c + (d + e))) == a + b + c + d + e
  {
    assert c + (d + e) == c + d + e;
    assert b + (c + d + e) == b + c + d + e;
    assert a + (b + c + d + e) == a + b + c + d + e;
  }
}
