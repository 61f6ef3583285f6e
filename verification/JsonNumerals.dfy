/** What a numeral is worth: an equation between naturals, whatever its sign, fraction and exponent. */
module JsonNumerals {
  import opened Bytes
  import opened JsonText
  import opened JsonGrammar
  import opened JsonParser

  datatype ExpSign = Unsigned | PlusSign | MinusSign

  datatype Exponent = NoExponent | Exponent(mark: byte, sign: ExpSign, digits: bytes)

  /** A numeral as it is written: `whole` and `fraction` are digit strings, and an empty fraction has no point. */
  datatype Numeral = Numeral(negative: bool, whole: bytes, fraction: bytes, exponent: Exponent)

  /** Digits; a leading zero is read on its own or before a digit that is none. The whole part may be missing behind a
      sign. */
  predicate IsNumeral(x: Numeral) {
    AllDigits(x.whole) && AllDigits(x.fraction) && (x.whole == [] ==> x.negative) &&
    (|x.whole| >= 2 && x.whole[0] == 48 ==> x.whole[1] != 48) &&
    (x.exponent.Exponent? ==> x.exponent.mark in {101, 69} && AllDigits(x.exponent.digits))
  }

  function ExponentText(e: Exponent): bytes {
    match e
    case NoExponent => []
    case Exponent(mark, sign, digits) =>
      [mark] + SignText(sign) + digits
  }

  function FractionText(f: bytes): bytes { if f == [] then [] else [DOT] + f }

  function NumeralText(x: Numeral): bytes {
    (if x.negative then [MINUS] else []) + x.whole + FractionText(x.fraction) + ExponentText(x.exponent)
  }

  /** No digit goes on with the whole part: a zero behind a zero does not. */
  predicate EndsWhole(a: bytes, post: bytes) { !IsDigit(At(post, 0)) || (a == [48] && At(post, 0) == 48) }

  /** Nothing in `post` goes on with the numeral. */
  predicate EndsNumeral(x: Numeral, post: bytes) {
    (if x.fraction == [] && x.exponent == NoExponent then EndsWhole(x.whole, post) else !IsDigit(At(post, 0))) &&
    (x.exponent == NoExponent ==> !HasExponent(post) && (x.fraction == [] ==> !HasFraction(post))) &&
    (x.exponent.Exponent? && x.exponent.sign == Unsigned && x.exponent.digits == [] ==> At(post, 0) !in {43, MINUS})
  }

  /** The exponent that is written. */
  function ExponentOf(e: Exponent): int
    requires e.Exponent? ==> AllDigits(e.digits)
  {
    if e == NoExponent then 0
    else if e.sign == MinusSign then -(Decimal(e.digits) as int)
    else Decimal(e.digits)
  }

  // ----- digit strings

  lemma {:induction false} RunOfDigits(ds: bytes, n: nat, post: bytes)
    requires AllDigits(ds) && !IsDigit(At(post, 0))
    ensures DigitRun(ds + post, n) == (n * TenTo(|ds|) + Decimal(ds), post)
    decreases |ds|
  {
    if ds == [] {
      assert ds + post == post;
      StopAtOnce(post, n);
    } else {
      assert (ds + post)[1..] == ds[1..] + post;
      RunOfDigits(ds[1..], 10 * n + (ds[0] - 48), post);
      DecimalFirst(ds);
      Distribute(n, ds[0] - 48, TenTo(|ds| - 1));
    }
  }

  lemma StopAtOnce(post: bytes, n: nat)
    requires !IsDigit(At(post, 0))
    ensures DigitRun(post, n) == (n, post)
  {
  }

  lemma Distribute(n: nat, d: nat, p: nat)
    ensures (10 * n + d) * p == n * (10 * p) + d * p
  {
  }

  lemma LeadingZero(a: bytes)
    requires AllDigits(a)
    ensures Decimal([]) == 0 && (a != [] && a[0] == 48 ==> Decimal(a[1..]) == Decimal(a))
  {
    if a != [] { DecimalFirst(a); }
  }

  lemma BehindZero(a: bytes, post: bytes)
    requires AllDigits(a) && EndsWhole(a, post) && (|a| >= 2 && a[0] == 48 ==> a[1] != 48)
    ensures var z := if a != [] && a[0] == 48 then a[1..] else a;
      AfterZero(a + post) == z + post && AllDigits(z) &&
      (z == [] ==> z + post == post) && (49 <= At(z + post, 0) <= 57 <==> z != [])
  {
  }

  lemma IntegerPartOf(a: bytes, post: bytes)
    requires AllDigits(a) && EndsWhole(a, post) && (|a| >= 2 && a[0] == 48 ==> a[1] != 48)
    ensures IntegerPart(a + post) == (Decimal(a), post)
  {
    hide DigitRun, Decimal, TenTo;
    var z := if a != [] && a[0] == 48 then a[1..] else a;
    BehindZero(a, post);
    if z != [] { RunOfDigits(z, 0, post); }
    LeadingZero(a);
  }

  lemma ExponentPartOf(e: Exponent, post: bytes)
    requires e.Exponent? && e.mark in {101, 69} && AllDigits(e.digits) && !IsDigit(At(post, 0))
    requires e.sign == Unsigned && e.digits == [] ==> At(post, 0) !in {43, MINUS}
    ensures HasExponent(ExponentText(e) + post)
    ensures ExponentPart(ExponentText(e) + post) == (ExponentOf(e), post)
  {
    hide DigitRun, Decimal, ExponentPart;
    var t := e.digits + post;
    RunOfDigits(e.digits, 0, post);
    FirstOfDigits(e.digits, post);
    ExponentStarts(e, post);
    SignedExponent(e.mark, e.sign, t);
  }

  function SignText(sign: ExpSign): bytes {
    if sign == PlusSign then [43] else if sign == MinusSign then [MINUS] else []
  }

  lemma ExponentStarts(e: Exponent, post: bytes)
    requires e.Exponent?
    ensures ExponentText(e) + post == [e.mark] + (SignText(e.sign) + (e.digits + post))
  {
  }

  lemma FirstOfDigits(ds: bytes, post: bytes)
    requires AllDigits(ds)
    ensures At(ds + post, 0) == if ds == [] then At(post, 0) else ds[0]
  {
    if ds == [] { assert ds + post == post; }
  }

  lemma SignedExponent(mark: byte, sign: ExpSign, t: bytes)
    requires mark in {101, 69} && (sign == Unsigned ==> At(t, 0) !in {43, MINUS})
    ensures var s := [mark] + (SignText(sign) + t);
      var (e, rest) := DigitRun(t, 0);
      HasExponent(s) && ExponentPart(s) == (if sign == MinusSign then -(e as int) else e, rest)
  {
    hide DigitRun;
    var u := SignText(sign) + t;
    BehindFirst(mark, u);
    if sign == Unsigned {
      assert u == t;
    } else {
      BehindFirst(if sign == PlusSign then 43 else MINUS, t);
    }
  }

  lemma BehindFirst(c: byte, t: bytes)
    ensures ([c] + t)[1..] == t && At([c] + t, 0) == c && [c] + t != []
  {
  }

  // ----- the value

  /** What is read, as digits and a power of ten: the digits of both parts, scaled by the exponent less the length of the
      fraction. */
  lemma NumeralParts(x: Numeral, post: bytes)
    requires IsNumeral(x) && EndsNumeral(x, post)
    ensures var s := NumeralText(x) + post;
      (At(s, 0) == MINUS || IsDigit(At(s, 0))) &&
      ParseNumber(s) == (NumberValue(x.negative, Decimal(x.whole + x.fraction), ExponentOf(x.exponent) - |x.fraction|), post)
  {
    hide IntegerPart, DigitRun, ExponentPart, NumberValue, ExponentOf, ExponentText, ParseNumber, Decimal;
    var s, tail := NumeralText(x) + post, ExponentText(x.exponent) + post;
    var rest := FractionText(x.fraction) + tail;
    TailStarts(x.exponent, post);
    if x.exponent.Exponent? { ExponentPartOf(x.exponent, post); } else { NothingOf(post); }
    BehindSign(x, post);
    IntegerPartOf(x.whole, rest);
    DecimalOfBoth(x.whole, x.fraction);
    if x.fraction == [] {
      assert rest == tail && x.whole + x.fraction == x.whole;
    } else {
      assert rest[1..] == x.fraction + tail;
      RunOfDigits(x.fraction, Decimal(x.whole), tail);
    }
    NumberFromParts(s, Decimal(x.whole), rest, Decimal(x.whole + x.fraction), tail, ExponentOf(x.exponent), post);
  }

  lemma BehindSign(x: Numeral, post: bytes)
    requires IsNumeral(x)
    ensures var s, rest := NumeralText(x) + post, FractionText(x.fraction) + (ExponentText(x.exponent) + post);
      AfterMinus(s) == x.whole + rest && (At(s, 0) == MINUS <==> x.negative) && (!x.negative ==> IsDigit(At(s, 0)))
  {
    hide FractionText, ExponentText;
    var sign: bytes := if x.negative then [MINUS] else [];
    var rest := FractionText(x.fraction) + (ExponentText(x.exponent) + post);
    Concat5(sign, x.whole, FractionText(x.fraction), ExponentText(x.exponent), post);
    assert NumeralText(x) + post == sign + (x.whole + rest);
    DropSign(x.negative, x.whole + rest);
  }

  lemma DropSign(negative: bool, t: bytes)
    requires !negative ==> t != [] && t[0] != MINUS
    ensures var s := (if negative then [MINUS] else []) + t;
      AfterMinus(s) == t && (At(s, 0) == MINUS <==> negative) && (!negative ==> s == t)
  {
  }

  lemma TailStarts(e: Exponent, post: bytes)
    requires e.Exponent? ==> e.mark in {101, 69}
    ensures var tail := ExponentText(e) + post;
      |tail| >= |post| && (e.Exponent? ==> HasExponent(tail) && !IsDigit(At(tail, 0)) && !HasFraction(tail)) &&
      (e == NoExponent ==> tail == post)
  {
  }

  lemma NothingOf(post: bytes)
    ensures ExponentOf(NoExponent) == 0
  {
  }

  /** `r` is `n * 10^e`, said with naturals. */
  predicate IsScaled(r: real, n: int, e: int) {
    if e >= 0 then r == (n * TenTo(e)) as real else r * TenTo(-e) as real == n as real
  }

  lemma {:induction false} PowerUp(e: nat)
    ensures Pow10(e) == TenTo(e) as real
  {
    if e > 0 { PowerUp(e - 1); }
  }

  lemma {:induction false} PowerDown(e: nat)
    ensures Pow10(-(e as int)) * TenTo(e) as real == 1.0
  {
    if e > 0 {
      PowerDown(e - 1);
      var p, q := Pow10(-((e - 1) as int)), TenTo(e - 1) as real;
      assert Pow10(-(e as int)) == p / 10.0 && TenTo(e) as real == 10.0 * q;
      TenCancels(p, q);
    }
  }

  lemma TenCancels(p: real, q: real)
    ensures p / 10.0 * (10.0 * q) == p * q
  {
    assert p / 10.0 * 10.0 == p;
    assert p / 10.0 * (10.0 * q) == p / 10.0 * 10.0 * q;
  }

  lemma ValueIsScaled(negative: bool, n: nat, e: int)
    ensures IsScaled(NumberValue(negative, n, e), if negative then -(n as int) else n, e)
  {
    var m: int := if negative then -(n as int) else n;
    if e >= 0 {
      PowerUp(e);
    } else {
      PowerDown(-e);
      var p, q := Pow10(e), TenTo(-e) as real;
      assert m as real * p * q == m as real * (p * q);
    }
  }

  /** Every numeral is read as what it says: its digits, without the point, times the power of ten that its exponent and
      the length of its fraction give. Reading stops behind it. */
  lemma NumeralIsWorth(x: Numeral, post: bytes) returns (r: real)
    requires IsNumeral(x) && EndsNumeral(x, post)
    ensures At(NumeralText(x) + post, 0) == MINUS || IsDigit(At(NumeralText(x) + post, 0))
    ensures ParseNumber(NumeralText(x) + post) == (r, post)
    ensures var n := Decimal(x.whole + x.fraction);
      IsScaled(r, if x.negative then -(n as int) else n, ExponentOf(x.exponent) - |x.fraction|)
  {
    hide ParseNumber, NumberValue, NumeralText, Decimal;
    NumeralParts(x, post);
    var n, e := Decimal(x.whole + x.fraction), ExponentOf(x.exponent) - |x.fraction|;
    r := NumberValue(x.negative, n, e);
    ValueIsScaled(x.negative, n, e);
  }

  /** The same for a value, and for a whole text: behind a numeral there may be blanks. */
  lemma NumeralIsValue(x: Numeral, post: bytes) returns (r: real)
    requires IsNumeral(x) && EndsNumeral(x, post)
    ensures ParseValue(NumeralText(x) + post) == Ok(Number(r), post)
    ensures IsWorth(r, x)
  {
    hide ParseNumber, NumeralText, Decimal, ExponentOf, IsScaled;
    r := NumeralIsWorth(x, post);
  }

  /** The equation between a value and its numeral. */
  predicate IsWorth(r: real, x: Numeral)
    requires IsNumeral(x)
  {
    var n := Decimal(x.whole + x.fraction);
    IsScaled(r, if x.negative then -(n as int) else n, ExponentOf(x.exponent) - |x.fraction|)
  }

  lemma NumeralIsText(x: Numeral, blanks: bytes, post: bytes, requireEnd: bool) returns (r: real)
    requires IsNumeral(x) && EndsNumeral(x, post) && (forall i :: 0 <= i < |blanks| ==> blanks[i] <= SPACE)
    requires requireEnd ==> Skip(post) == []
    ensures Parse(blanks + (NumeralText(x) + post), requireEnd) == Ok(Number(r), if requireEnd then [] else post)
    ensures IsWorth(r, x)
  {
    hide ParseValue, NumeralText, IsWorth, EndsNumeral;
    r := NumeralIsValue(x, post);
    NumeralStarts(x, post);
    SkipBlanksBefore(blanks, NumeralText(x) + post);
  }

  lemma NumeralStarts(x: Numeral, post: bytes)
    requires IsNumeral(x)
    ensures At(NumeralText(x) + post, 0) > SPACE && NumeralText(x) + post != []
  {
    hide NumeralText;
    BehindSign(x, post);
  }

  lemma {:induction false} SkipBlanksBefore(blanks: bytes, s: bytes)
    requires (forall i :: 0 <= i < |blanks| ==> blanks[i] <= SPACE) && s != [] && s[0] > SPACE
    ensures Skip(blanks + s) == s
  {
    if blanks == [] {
      assert blanks + s == s;
    } else {
      assert (blanks + s)[1..] == blanks[1..] + s;
      SkipBlanksBefore(blanks[1..], s);
    }
  }

  // ----- every number is a numeral

  /** The digits at the front of a text. */
  function DigitsOf(s: bytes): (d: bytes)
    ensures d <= s && AllDigits(d) && !IsDigit(At(s[|d|..], 0))
  {
    if s == [] || !IsDigit(s[0]) then []
    else
      var d := [s[0]] + DigitsOf(s[1..]);
      assert s[|d|..] == s[1..][|d| - 1..] && s == [s[0]] + s[1..];
      d
  }

  lemma ExponentAt(s: bytes) returns (e: Exponent, post: bytes)
    ensures s == ExponentText(e) + post && (e.Exponent? <==> HasExponent(s))
    ensures e.Exponent? ==> e.mark in {101, 69} && AllDigits(e.digits) && !IsDigit(At(post, 0))
    ensures e.Exponent? && e.sign == Unsigned && e.digits == [] ==> At(post, 0) !in {43, MINUS}
  {
    if HasExponent(s) {
      hide ExponentText, SignText, DigitsOf;
      var sign, u := SignAt(s[1..]);
      var d := DigitsOf(u);
      e, post := Exponent(s[0], sign, d), u[|d|..];
      ExponentStarts(e, post);
      FirstOfDigits(d, post);
      assert u == d + post && s == [s[0]] + s[1..];
    } else {
      e, post := NoExponent, s;
      NothingWritten(s);
    }
  }

  lemma SignAt(t: bytes) returns (sign: ExpSign, u: bytes)
    ensures t == SignText(sign) + u && (sign == Unsigned ==> At(u, 0) !in {43, MINUS})
  {
    sign := if At(t, 0) == 43 then PlusSign else if At(t, 0) == MINUS then MinusSign else Unsigned;
    u := if sign == Unsigned then t else t[1..];
  }

  lemma FractionAt(s: bytes) returns (f: bytes, rest: bytes)
    ensures s == FractionText(f) + rest && AllDigits(f) && (f != [] <==> HasFraction(s))
    ensures if f == [] then rest == s else !IsDigit(At(rest, 0))
  {
    f, rest := [], s;
    if HasFraction(s) {
      f := DigitsOf(s[1..]);
      rest := s[1..][|f|..];
      assert s == [DOT] + s[1..] && s[1..] == f + rest;
    }
  }

  lemma WholeAt(s: bytes) returns (a: bytes, rest: bytes)
    ensures s == a + rest && AllDigits(a) && EndsWhole(a, rest) && (|a| >= 2 && a[0] == 48 ==> a[1] != 48)
    ensures IsDigit(At(s, 0)) ==> a != []
  {
    var d := DigitsOf(s);
    if |d| >= 2 && d[0] == 48 && d[1] == 48 {
      a, rest := [48], s[1..];
      assert s[1] == d[1];
    } else {
      a, rest := d, s[|d|..];
      assert IsDigit(At(s, 0)) ==> s[0..] == s;
    }
  }

  /** Every text that starts with a sign or a digit starts with a numeral that what follows does not go on with: the
      equation says what any number is read as. */
  lemma EveryNumberIsANumeral(s: bytes) returns (x: Numeral, post: bytes)
    requires At(s, 0) == MINUS || IsDigit(At(s, 0))
    ensures IsNumeral(x) && EndsNumeral(x, post) && s == NumeralText(x) + post
  {
    hide ExponentText, FractionText;
    var negative := At(s, 0) == MINUS;
    var t := if negative then s[1..] else s;
    var a, u := WholeAt(t);
    var f, v := FractionAt(u);
    var e;
    e, post := ExponentAt(v);
    x := Numeral(negative, a, f, e);
    NothingWritten(post);
    var sign: bytes := if negative then [MINUS] else [];
    Concat5(sign, a, FractionText(f), ExponentText(e), post);
    assert s == sign + t;
  }

  lemma NothingWritten(post: bytes)
    ensures ExponentText(NoExponent) + post == post && FractionText([]) + post == post
  {
  }
}
