/** Exactly which string literals `parse_string` decodes inside the text and inside the buffer it measured. */
module JsonBounds {
  import opened Bytes
  import opened JsonGrammar
  import S = JsonStrings

  /** The first pass runs over exactly these bytes: no quote but behind a backslash, and no backslash alone at the end. */
  predicate IsBody(b: bytes) {
    b == [] || (b[0] != QUOTE && if b[0] == BACKSLASH then |b| >= 2 && IsBody(b[2..]) else IsBody(b[1..]))
  }

  /** The decoder's steps of 1, 2, 6 and 12 bytes from the start of `b` never lead beyond its end. */
  predicate StaysInside(b: bytes)
    decreases |b|
  {
    b == [] || b[0] == QUOTE || (Unit(b).1 <= |b| && StaysInside(b[Unit(b).1..]))
  }

  /** What may follow a body: the end of the text, or a quote and anything. */
  predicate IsEnd(end: bytes) { end == [] || end[0] == QUOTE }

  /** The text of a literal with this body. */
  function Literal(b: bytes, end: bytes): bytes { [QUOTE] + (b + end) }

  // ----- every text is a literal with a body

  lemma {:induction false} HasBody(t: bytes) returns (b: bytes, end: bytes)
    requires FirstPass(t) >= 0
    ensures t == b + end && IsBody(b) && IsEnd(end)
  {
    if t == [] || t[0] == QUOTE {
      b, end := [], t;
    } else {
      var n := if t[0] == BACKSLASH then 2 else 1;
      var rest;
      rest, end := HasBody(t[n..]);
      b := t[..n] + rest;
      assert b[n..] == rest && b[0] == t[0];
    }
  }

  /** What the first pass still counts: `escaped` when the byte before was an escaping backslash. */
  function Left(b: bytes, escaped: bool): nat {
    if b == [] then 0
    else if escaped || b[0] != BACKSLASH then 1 + Left(b[1..], false)
    else Left(b[1..], true)
  }

  /** The rest of a body, where the first pass may stand between a backslash and the byte it escapes. */
  predicate IsRest(b: bytes, escaped: bool) { if escaped then b != [] && IsBody(b[1..]) else IsBody(b) }

  lemma {:induction false} FirstPassCounts(b: bytes, end: bytes)
    requires IsBody(b) && IsEnd(end)
    ensures FirstPass(b + end) == Left(b, false)
    decreases |b|
  {
    if b == [] {
      assert b + end == end;
    } else if b[0] == BACKSLASH {
      assert (b + end)[2..] == b[2..] + end && b[1..][1..] == b[2..];
      FirstPassCounts(b[2..], end);
    } else {
      assert (b + end)[1..] == b[1..] + end;
      FirstPassCounts(b[1..], end);
    }
  }

  /** One byte on: the first pass counts it, unless it is an escaping backslash. */
  lemma OneByte(b: bytes, escaped: bool) returns (e: bool)
    requires b != [] && IsRest(b, escaped) && (escaped || b[0] != QUOTE)
    ensures IsRest(b[1..], e) && e == (!escaped && b[0] == BACKSLASH)
    ensures Left(b, escaped) == Left(b[1..], e) + if e then 0 else 1
  {
    e := !escaped && b[0] == BACKSLASH;
    if e { assert b[1..][1..] == b[2..]; }
  }

  /** `n` bytes on: all that are no backslashes are counted. */
  lemma {:induction false} ManyBytes(b: bytes, escaped: bool, n: nat) returns (e: bool)
    requires n <= |b| && IsRest(b, escaped)
    ensures IsRest(b[n..], e) && Left(b, escaped) >= Left(b[n..], e)
    ensures (forall i :: 1 <= i < n ==> b[i] != BACKSLASH) ==> Left(b, escaped) >= Left(b[n..], e) + n - 1
    ensures n > 0 && (forall i :: 1 <= i < n ==> b[i] != BACKSLASH) && b[0] != BACKSLASH ==>
      Left(b, escaped) >= Left(b[n..], e) + n
    decreases n
  {
    if n == 0 {
      e := escaped;
      assert b[0..] == b;
    } else {
      var d := OneByte(b, escaped);
      e := ManyBytes(b[1..], d, n - 1);
      assert b[1..][n - 1..] == b[n..];
    }
  }

  // ----- bodies that the decoder stays inside

  /** How far a step leads does not depend on what follows the body. */
  lemma SameStep(b: bytes, end: bytes)
    requires b != [] && IsEnd(end)
    ensures Unit(b + end).1 == Unit(b).1
  {
    var t := b + end;
    assert forall i :: 0 <= i < |b| ==> At(t, i) == b[i];
    if b[0] == BACKSLASH && At(b, 1) == 117 {
      SameHex(b, end, 2);
      if |b| >= 8 { SameHex(b, end, 8); }
    }
  }

  /** Four digits are those of the body, or they are not all digits. */
  lemma SameHex(b: bytes, end: bytes, i: nat)
    requires i <= |b| && IsEnd(end)
    ensures Hex4((b + end)[i..]) == Hex4(b[i..])
  {
    var s, t := b[i..], (b + end)[i..];
    assert forall j :: 0 <= j < |s| ==> At(t, j) == At(s, j);
    assert |s| < 4 ==> HexValue(At(t, |s|)) < 0 && HexValue(At(s, |s|)) < 0;
  }

  /** What a step writes fits into what the first pass counts on the way. */
  lemma StepFits(b: bytes, end: bytes, escaped: bool) returns (e: bool)
    requires b != [] && b[0] != QUOTE && IsRest(b, escaped) && Unit(b).1 <= |b| && IsEnd(end)
    ensures var (w, n) := Unit(b + end);
      n == Unit(b).1 && IsRest(b[n..], e) && Left(b, escaped) >= |w| + Left(b[n..], e)
  {
    SameStep(b, end);
    var (w, n) := Unit(b + end);
    if b[0] == BACKSLASH && At(b, 1) == 117 {
      if w != [] { DigitsAreDigits(b, end); }
      var d := ManyBytes(b, escaped, 6);
      e := ManyBytes(b[6..], d, n - 6);
      assert b[6..][n - 6..] == b[n..];
    } else if b[0] == BACKSLASH {
      var d := OneByte(b, escaped);
      e := OneByte(b[1..], d);
      assert b[1..][1..] == b[2..];
    } else {
      e := ManyBytes(b, escaped, 1);
    }
  }

  /** An escape that writes something has its four digits. */
  lemma DigitsAreDigits(b: bytes, end: bytes)
    requires |b| >= 6 && b[0] == BACKSLASH && b[1] == 117 && Unit(b + end).0 != []
    ensures forall i :: 1 <= i < 6 ==> b[i] != BACKSLASH
  {
    var t := b + end;
    assert forall i :: 0 <= i < 4 ==> At(t[2..], i) == b[i + 2];
    assert Hex4(t[2..]) != 0;
  }

  lemma {:induction false} WalkFits(b: bytes, end: bytes, out: bytes, escaped: bool)
    requires IsRest(b, escaped) && StaysInside(b) && IsEnd(end)
    ensures var r := SecondPass(b + end, out); r.Ok? && |r.value| <= |out| + Left(b, escaped)
    decreases |b|
  {
    hide Unit, Left, IsRest;
    if b == [] {
      assert b + end == end;
    } else if b[0] != QUOTE {
      var (w, n) := Unit(b + end);
      var e := StepFits(b, end, escaped);
      WalkFits(b[n..], end, out + w, e);
      assert (b + end)[n..] == b[n..] + end;
    }
  }

  // ----- bodies that it leaves

  lemma {:induction false} PlainDecodes(s: bytes, out: bytes)
    requires forall i :: 0 <= i < |s| ==> s[i] != QUOTE && s[i] != BACKSLASH
    ensures SecondPass(s, out) == Ok(out + s, [])
    decreases |s|
  {
    if s == [] {
      assert out + s == out;
    } else {
      PlainDecodes(s[1..], out + [s[0]]);
      assert out + [s[0]] + s[1..] == out + s;
    }
  }

  /** Once it has left the body, the decoder leaves the text, or writes most of what follows. */
  lemma {:induction false} WalkLeaves(b: bytes, end: bytes, out: bytes)
    requires !StaysInside(b) && IsEnd(end)
    requires forall i :: 1 <= i < |end| ==> end[i] != QUOTE && end[i] != BACKSLASH
    ensures var r := SecondPass(b + end, out); r.Undefined? || (r.Ok? && |r.value| + 12 >= |end| > 0)
    decreases |b|
  {
    hide Unit;
    SameStep(b, end);
    var (w, n) := Unit(b + end);
    if n <= |b| {
      assert (b + end)[n..] == b[n..] + end;
      WalkLeaves(b[n..], end, out + w);
    } else if n <= |b + end| {
      assert (b + end)[n..] == end[n - |b|..];
      PlainDecodes(end[n - |b|..], out + w);
    }
  }

  lemma {:induction false} AtMostOneEach(b: bytes, escaped: bool)
    ensures Left(b, escaped) <= |b|
    decreases |b|
  {
    if b != [] { AtMostOneEach(b[1..], !escaped && b[0] == BACKSLASH); }
  }

  // ----- the exact condition

  lemma InsideParses(b: bytes, end: bytes)
    requires IsBody(b) && IsEnd(end) && StaysInside(b)
    ensures ParseString(Literal(b, end)).Ok?
  {
    assert Literal(b, end)[1..] == b + end;
    FirstPassCounts(b, end);
    WalkFits(b, end, [], false);
  }

  /** A long plain text behind the closing quote makes the decoder write more than the first pass counted. */
  lemma OutsideOverruns(b: bytes, end: bytes)
    requires IsBody(b) && !StaysInside(b)
    requires end == [] || end == [QUOTE] + Repeat(97, |b| + 12)
    ensures ParseString(Literal(b, end)) == Undefined
  {
    assert Literal(b, end)[1..] == b + end;
    FirstPassCounts(b, end);
    AtMostOneEach(b, false);
    WalkLeaves(b, end, []);
  }

  /** Of an unterminated literal, decoding stays in bounds exactly when the decoder's steps stay inside it; of one with a
      closing quote, exactly then does it stay in bounds whatever text follows the quote. */
  lemma BoundsExactly(b: bytes)
    requires IsBody(b)
    ensures ParseString(Literal(b, [])) != Undefined <==> StaysInside(b)
    ensures (forall post: bytes :: ParseString(Literal(b, [QUOTE] + post)) != Undefined) <==> StaysInside(b)
  {
    if StaysInside(b) {
      InsideParses(b, []);
      forall post: bytes ensures ParseString(Literal(b, [QUOTE] + post)) != Undefined {
        InsideParses(b, [QUOTE] + post);
      }
    } else {
      OutsideOverruns(b, []);
      OutsideOverruns(b, [QUOTE] + Repeat(97, |b| + 12));
    }
  }

  /** A text that ends behind an escaping backslash is left by the first pass already; any other is a literal with a body. */
  lemma TextsAreLiterals(s: bytes) returns (b: bytes, end: bytes)
    requires s != [] && s[0] == QUOTE
    ensures FirstPass(s[1..]) == -1 ==> ParseString(s) == Undefined
    ensures FirstPass(s[1..]) >= 0 ==> s == Literal(b, end) && IsBody(b) && IsEnd(end)
  {
    b, end := [], [];
    if FirstPass(s[1..]) >= 0 { b, end := HasBody(s[1..]); }
  }

  // ----- complete escapes

  /** Every backslash escapes a byte and every "\u" has its four digits. */
  predicate Complete(b: bytes) {
    b == [] ||
    if b[0] == BACKSLASH then |b| >= 2 && (b[1] == 117 ==> |b| >= 6 && S.IsHex4(b[2..6])) && Complete(b[2..])
    else Complete(b[1..])
  }

  lemma {:induction false} CompleteBehind(h: bytes, rest: bytes)
    requires forall i :: 0 <= i < |h| ==> h[i] != BACKSLASH
    requires Complete(h + rest)
    ensures Complete(rest)
  {
    if h == [] {
      assert h + rest == rest;
    } else {
      assert (h + rest)[1..] == h[1..] + rest;
      CompleteBehind(h[1..], rest);
    }
  }

  lemma UnitIsComplete(b: bytes)
    requires |b| >= 6 && b[0] == BACKSLASH && b[1] == 117 && Complete(b)
    ensures Complete(b[6..])
  {
    assert b[2..] == b[2..6] + b[6..];
    CompleteBehind(b[2..6], b[6..]);
  }

  /** Bodies whose escapes are complete, whether their surrogates are paired or not, are among them. */
  lemma {:induction false} CompleteStaysInside(b: bytes)
    requires Complete(b)
    ensures StaysInside(b)
    decreases |b|
  {
    if b != [] && b[0] != QUOTE {
      var n := Unit(b).1;
      if b[0] == BACKSLASH && b[1] == 117 {
        UnitIsComplete(b);
        if n == 12 {
          assert b[6] == BACKSLASH && b[7] == 117;
          UnitIsComplete(b[6..]);
          assert b[6..][6..] == b[12..];
        }
      }
      CompleteStaysInside(b[n..]);
    }
  }

  lemma CompleteStringsParse(b: bytes, end: bytes)
    requires IsBody(b) && IsEnd(end) && Complete(b)
    ensures ParseString(Literal(b, end)).Ok?
  {
    CompleteStaysInside(b);
    InsideParses(b, end);
  }

  /** Without its four digits, an escape takes the decoder over the closing quote: `"\u"aaaaa` outgrows its buffer. */
  lemma IncompleteEscapeOverruns()
    ensures ParseString([QUOTE, BACKSLASH, 117, QUOTE, 97, 97, 97, 97, 97]) == Undefined
  {
    var b: bytes, end: bytes := [BACKSLASH, 117], [QUOTE, 97, 97, 97, 97, 97];
    var aa: bytes := [97, 97];
    assert Literal(b, end) == [QUOTE, BACKSLASH, 117, QUOTE, 97, 97, 97, 97, 97] && Literal(b, end)[1..] == b + end;
    assert b[2..] == [] && b[1..][1..] == [];
    FirstPassCounts(b, end);
    SameStep(b, end);
    assert (b + end)[6..] == aa && Unit(b + end).0 == [];
    PlainDecodes(aa, []);
    assert [] + Unit(b + end).0 == [];
  }

  /** Digits that are none do no harm, as long as the steps stay inside: `"\uzzzz"` reads as the empty string. */
  lemma DigitsMayBeMissing(end: bytes)
    requires IsEnd(end)
    ensures !Complete([BACKSLASH, 117, 122, 122, 122, 122]) && StaysInside([BACKSLASH, 117, 122, 122, 122, 122])
    ensures ParseString(Literal([BACKSLASH, 117, 122, 122, 122, 122], end)).Ok?
  {
    var b: bytes, z: bytes := [BACKSLASH, 117, 122, 122, 122, 122], [122, 122, 122, 122];
    assert b[2..6][0] == 122 && b[6..] == [];
    assert IsBody(z[3..][1..]) && IsBody(z[3..]);
    assert z[2..][1..] == z[3..] && z[1..][1..] == z[2..] && b[2..] == z;
    InsideParses(b, end);
  }
}
