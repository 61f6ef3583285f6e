/** What the option lines mean, read directly: what `atoi` makes of any text, which lines announce which length, what
    the names are, and which lines become variables. */
module ContentLength {
  import opened Bytes
  import opened HeaderOptions
  import opened HeaderRun
  import T = JsonText

  // ----- atoi

  predicate AllSpace(s: bytes) { forall i :: 0 <= i < |s| ==> s[i] == 32 || 9 <= s[i] <= 13 }

  /** A text as `atoi` sees it: white space, a sign or none, digits, and a rest that does not go on with a digit. Where
      neither sign nor digit follows the white space, the rest begins with something else. */
  ghost predicate AtoiParts(blanks: bytes, sign: bytes, digits: bytes, rest: bytes) {
    AllSpace(blanks) && (sign == [] || sign == [43] || sign == [45]) && AllDigits(digits) &&
    (rest == [] || !(48 <= rest[0] <= 57)) &&
    (sign == [] && digits == [] && rest != [] ==>
      rest[0] != 32 && !(9 <= rest[0] <= 13) && rest[0] != 43 && rest[0] != 45)
  }

  /** The number is that of the digits, with its sign, and 0 where there are none. */
  lemma {:induction false} AtoiIs(blanks: bytes, sign: bytes, digits: bytes, rest: bytes)
    requires AtoiParts(blanks, sign, digits, rest)
    ensures Atoi(blanks + sign + digits + rest) == if sign == [45] then -(Decimal(digits) as int) else Decimal(digits)
    decreases |blanks|
  {
    if blanks != [] {
      assert (blanks + sign + digits + rest)[1..] == blanks[1..] + sign + digits + rest;
      AtoiIs(blanks[1..], sign, digits, rest);
    } else {
      assert blanks + sign + digits + rest == sign + (digits + rest);
      DigitsValueIs(digits, rest, 0);
      SignIs(sign, digits + rest);
    }
  }

  /** No white space in front. */
  lemma SignIs(sign: bytes, rest: bytes)
    requires sign == [] || sign == [43] || sign == [45]
    requires sign == [] && rest != [] ==> rest[0] != 32 && !(9 <= rest[0] <= 13) && rest[0] != 43 && rest[0] != 45
    ensures Atoi(sign + rest) == if sign == [45] then -(DigitsValue(rest, 0) as int) else DigitsValue(rest, 0)
  {
    hide DigitsValue;
    if sign == [] {
      assert sign + rest == rest;
    } else {
      assert (sign + rest)[1..] == rest;
    }
  }

  lemma {:induction false} DigitsValueIs(digits: bytes, rest: bytes, n: nat)
    requires AllDigits(digits) && (rest == [] || !(48 <= rest[0] <= 57))
    ensures DigitsValue(digits + rest, n) == n * TenTo(|digits|) + Decimal(digits)
    decreases |digits|
  {
    if digits == [] {
      assert digits + rest == rest;
    } else {
      var d := digits[0] - 48;
      assert (digits + rest)[1..] == digits[1..] + rest;
      DigitsValueIs(digits[1..], rest, 10 * n + d);
      DecimalFirst(digits);
      Shifted(n, d, TenTo(|digits| - 1));
    }
  }

  lemma Shifted(n: nat, d: nat, p: nat)
    ensures (10 * n + d) * p == n * (10 * p) + d * p
  {
  }

  /** Every text has such parts. */
  lemma {:induction false} EveryTextHasParts(s: bytes)
    returns (blanks: bytes, sign: bytes, digits: bytes, rest: bytes)
    ensures AtoiParts(blanks, sign, digits, rest) && s == blanks + sign + digits + rest
    decreases |s|
  {
    hide AllDigits;
    if s != [] && (s[0] == 32 || 9 <= s[0] <= 13) {
      blanks, sign, digits, rest := EveryTextHasParts(s[1..]);
      FirstInFront(s[0], blanks, sign, digits, rest);
      assert s == [s[0]] + s[1..];
      blanks := [s[0]] + blanks;
    } else {
      blanks, sign := [], if s != [] && (s[0] == 43 || s[0] == 45) then [s[0]] else [];
      var behind := s[|sign|..];
      var n := DigitRun(behind);
      digits, rest := behind[..n], behind[n..];
      NothingInFront(sign, digits, rest);
      assert s == sign + behind && behind == digits + rest;
    }
  }

  lemma FirstInFront(b: byte, blanks: bytes, sign: bytes, digits: bytes, rest: bytes)
    ensures [b] + (blanks + sign + digits + rest) == [b] + blanks + sign + digits + rest
  {
  }

  lemma NothingInFront(sign: bytes, digits: bytes, rest: bytes)
    ensures [] + sign + digits + rest == sign + (digits + rest)
  {
  }

  /** How many digits a text starts with. */
  function DigitRun(s: bytes): (n: nat)
    ensures n <= |s| && AllDigits(s[..n]) && (n < |s| ==> !IsDigit(s[n]))
  {
    if s == [] || !IsDigit(s[0]) then 0
    else
      var n := DigitRun(s[1..]);
      assert s[..n + 1] == [s[0]] + s[1..][..n];
      n + 1
  }

  /** Reading back what `%d` prints. */
  lemma AtoiOfDigits(blanks: bytes, n: nat, rest: bytes)
    requires AllSpace(blanks) && (rest == [] || !(48 <= rest[0] <= 57))
    ensures Atoi(blanks + T.Digits(n) + rest) == n
    ensures Atoi(blanks + [43] + T.Digits(n) + rest) == n && Atoi(blanks + [45] + T.Digits(n) + rest) == -(n as int)
  {
    hide Atoi, T.Digits, Decimal, AllSpace, AllDigits;
    DecimalOfDigits(n);
    DigitsAreParts(blanks, n, rest);
    assert blanks + [] == blanks;
    AtoiIs(blanks, [], T.Digits(n), rest);
    AtoiIs(blanks, [43], T.Digits(n), rest);
    AtoiIs(blanks, [45], T.Digits(n), rest);
  }

  lemma DigitsAreParts(blanks: bytes, n: nat, rest: bytes)
    requires AllSpace(blanks) && (rest == [] || !(48 <= rest[0] <= 57))
    ensures forall sign: bytes :: sign == [] || sign == [43] || sign == [45] ==>
      AtoiParts(blanks, sign, T.Digits(n), rest)
  {
    hide AllSpace;
  }

  lemma {:induction false} DecimalOfDigits(n: nat)
    ensures AllDigits(T.Digits(n)) && Decimal(T.Digits(n)) == n
  {
    if n >= 10 {
      DecimalOfDigits(n / 10);
      assert T.Digits(n)[..|T.Digits(n)| - 1] == T.Digits(n / 10);
    } else {
      assert T.Digits(n)[..0] == [];
    }
  }

  // ----- names

  /** The header names, as clients write them and as they are recorded. */
  lemma NamesAre()
    ensures UpperCase(Ascii("If-Modified-Since")) == Ascii("IF_MODIFIED_SINCE") == IF_MODIFIED_SINCE
    ensures UpperCase(Ascii("Content-Type")) == Ascii("CONTENT_TYPE") == CONTENT_TYPE
  {
  }

  lemma MoreNamesAre()
    ensures UpperCase(Ascii("Content-Length")) == Ascii("CONTENT_LENGTH") == CONTENT_LENGTH
    ensures UpperCase(Ascii("Host")) == Ascii("HOST") == HOST
    ensures UpperCase(Ascii("Referer")) == Ascii("REFERER") == REFERER
    ensures UpperCase(Ascii("Authorization")) == Ascii("AUTHORIZATION") == AUTHORIZATION
  {
  }

  lemma OtherNamesAre()
    ensures UpperCase(Ascii("User-Agent")) == Ascii("USER_AGENT") == USER_AGENT
    ensures UpperCase(Ascii("Cookie")) == Ascii("COOKIE") == COOKIE
    ensures UpperCase(Ascii("Connection")) == Ascii("CONNECTION") == CONNECTION
  {
  }

  /** A request line starts with one of three methods and a blank. */
  lemma MethodsAre(s: bytes)
    ensures KnownMethod(s) <==> (
      (|s| >= 4 && s[..4] == Ascii("GET ")) || (|s| >= 5 && (s[..5] == Ascii("POST ") || s[..5] == Ascii("HEAD "))))
    ensures POST == Ascii("POST ")
  {
    hide Ascii;
    MethodNames();
  }

  lemma MethodNames()
    ensures GET == Ascii("GET ") && POST == Ascii("POST ") && HEAD == Ascii("HEAD ")
  {
  }

  // ----- the announced length

  /** The letters of "content-length" in either case, and a colon. */
  ghost predicate NamesLength(line: bytes) {
    |line| > 14 && line[14] == 58 &&
    forall k :: 0 <= k < 14 ==>
      line[k] == "content-length"[k] as int || line[k] == "CONTENT_LENGTH"[k] as int
  }

  /** Such a line whose value begins with the digits of `n`, perhaps behind white space. */
  ghost predicate SaysLength(line: bytes, n: nat) {
    NamesLength(line) &&
    exists blanks: bytes, digits: bytes, rest: bytes ::
      line[15..] == blanks + digits + rest && IsLengthText(blanks, digits, rest, n)
  }

  ghost predicate IsLengthText(blanks: bytes, digits: bytes, rest: bytes, n: nat) {
    AllSpace(blanks) && digits != [] && AllDigits(digits) && Decimal(digits) == n &&
    (rest == [] || !(48 <= rest[0] <= 57))
  }

  /** The first option line that names a length says `n`; the request line is not an option line. */
  ghost predicate FirstLengthIs(lines: seq<bytes>, n: nat) {
    exists i :: 0 < i < |lines| && SaysLength(lines[i], n) && forall j :: 0 < j < i ==> !NamesLength(lines[j])
  }

  /** Whether a line says something about a field; for cookies the first six bytes of the name count. */
  ghost predicate IsNamed(line: bytes, field: bytes) {
    var text := Cut(line);
    ColonIn(text) < |text| &&
    (NameOf(text) == field || (field == COOKIE && |NameOf(text)| >= 6 && NameOf(text)[..6] == COOKIE))
  }

  lemma NamesLengthExactly(line: bytes)
    ensures IsNamed(line, CONTENT_LENGTH) <==> NamesLength(line)
  {
    if NamesLength(line) {
      NamedIsLength(line);
    } else if IsNamed(line, CONTENT_LENGTH) {
      LengthIsNamed(line);
    }
  }

  lemma EitherCase(b: byte, k: nat)
    requires k < 14
    ensures Upper(b) == CONTENT_LENGTH[k] <==>
      b == "content-length"[k] as int || b == "CONTENT_LENGTH"[k] as int
  {
  }

  lemma LengthIsNamed(line: bytes)
    requires IsNamed(line, CONTENT_LENGTH)
    ensures NamesLength(line)
  {
    hide Upper;
    CookieIsNoOther();
    var text := Cut(line);
    assert |NameOf(text)| == 14 && ColonIn(text) == 14;
    forall k | 0 <= k < 14
      ensures line[k] == "content-length"[k] as int || line[k] == "CONTENT_LENGTH"[k] as int
    {
      EitherCase(line[k], k);
      assert NameOf(text)[k] == Upper(line[k]);
    }
  }

  lemma NamedIsLength(line: bytes)
    requires NamesLength(line)
    ensures IsNamed(line, CONTENT_LENGTH) && ColonIn(Cut(line)) == 14
  {
    hide Upper, Cut, ColonIn;
    NoEarlierEnd(line, 14);
    var text := Cut(line);
    assert forall k :: 0 <= k < 14 ==> NameOf(text)[k] == Upper(line[k]);
    forall k | 0 <= k < 14 ensures NameOf(text)[k] == CONTENT_LENGTH[k] {
      EitherCase(line[k], k);
    }
    assert NameOf(text) == CONTENT_LENGTH;
  }

  /** A colon behind `n` bytes that are neither colon nor NUL. */
  lemma NoEarlierEnd(line: bytes, n: nat)
    requires n < |line| && line[n] == COLON && forall k :: 0 <= k < n ==> line[k] != 0 && line[k] != COLON
    ensures |Cut(line)| > n && ColonIn(Cut(line)) == n
  {
  }

  /** `atoi` of what is recorded: blanks in front and a NUL behind the digits make no difference. */
  lemma RecordedLength(line: bytes, n: nat)
    requires SaysLength(line, n)
    ensures IsNamed(line, CONTENT_LENGTH) && Atoi(ValueOf(Cut(line))) == n
  {
    hide Cut, ColonIn, Blanks, Atoi, NameOf, ValueOf, AllSpace, AllDigits, Decimal;
    NamedIsLength(line);
    var blanks, digits, rest :| line[15..] == blanks + digits + rest && IsLengthText(blanks, digits, rest, n);
    ValueBehind(line, 14);
    CutNumber(blanks, digits, rest);
    BlanksSkipped(Cut(line[15..]));
    LengthParts(blanks, digits, Cut(rest), n);
    assert blanks + [] == blanks;
    AtoiIs(blanks, [], digits, Cut(rest));
  }

  lemma LengthParts(blanks: bytes, digits: bytes, rest: bytes, n: nat)
    requires IsLengthText(blanks, digits, rest, n)
    ensures AtoiParts(blanks, [], digits, rest) && AllDigits(digits) && Decimal(digits) == n
  {
  }

  lemma ValueBehind(line: bytes, n: nat)
    requires n < |line| && NoNul(line[..n + 1]) && ColonIn(Cut(line)) == n < |Cut(line)|
    ensures ValueOf(Cut(line)) == Cut(line[n + 1..])[Blanks(Cut(line[n + 1..]))..]
  {
    hide Blanks, ColonIn, Cut;
    CutBehind(line[..n + 1], line[n + 1..]);
    assert line[..n + 1] + line[n + 1..] == line;
  }

  lemma {:induction false} CutBehind(a: bytes, b: bytes)
    requires NoNul(a)
    ensures Cut(a + b) == a + Cut(b)
    decreases |a|
  {
    if a == [] {
      assert a + b == b;
    } else {
      assert (a + b)[1..] == a[1..] + b;
      CutBehind(a[1..], b);
    }
  }

  lemma CutNumber(blanks: bytes, digits: bytes, rest: bytes)
    requires AllSpace(blanks) && AllDigits(digits) && (rest == [] || !(48 <= rest[0] <= 57))
    ensures Cut(blanks + digits + rest) == blanks + digits + Cut(rest)
    ensures Cut(rest) == [] || !(48 <= Cut(rest)[0] <= 57)
  {
    CutBehind(blanks + digits, rest);
  }

  lemma {:induction false} BlanksSkipped(s: bytes)
    ensures Atoi(s[Blanks(s)..]) == Atoi(s)
    decreases |s|
  {
    if Blanks(s) > 0 {
      BlanksSkipped(s[1..]);
      assert s[1..][Blanks(s) - 1..] == s[Blanks(s)..];
    }
  }

  // ----- what is recorded

  /** The eight names that are kept. */
  ghost predicate IsKept(field: bytes) {
    field == Ascii("IF_MODIFIED_SINCE") || field == Ascii("CONTENT_TYPE") || field == Ascii("CONTENT_LENGTH") ||
    field == Ascii("HOST") || field == Ascii("REFERER") || field == Ascii("AUTHORIZATION") ||
    field == Ascii("USER_AGENT") || field == Ascii("COOKIE")
  }

  lemma KeptAreFields(field: bytes)
    ensures IsKept(field) ==> IsField(field) && FieldOf(field) == field
    ensures IsKept(field) <==> (
      field == IF_MODIFIED_SINCE || field == CONTENT_TYPE || field == CONTENT_LENGTH || field == HOST ||
      field == REFERER || field == AUTHORIZATION || field == USER_AGENT || field == COOKIE)
  {
    hide Ascii;
    NamesAre();
    MoreNamesAre();
    OtherNamesAre();
    CookieIsNoOther();
  }

  lemma CookieIsNoOther()
    ensures COOKIE != CONTENT_LENGTH && HasPrefix(COOKIE, COOKIE)
    ensures !HasPrefix(IF_MODIFIED_SINCE, COOKIE) && !HasPrefix(CONTENT_TYPE, COOKIE) && !HasPrefix(CONTENT_LENGTH, COOKIE)
    ensures !HasPrefix(HOST, COOKIE) && !HasPrefix(REFERER, COOKIE) && !HasPrefix(AUTHORIZATION, COOKIE)
    ensures !HasPrefix(USER_AGENT, COOKIE) && !HasPrefix(CONNECTION, COOKIE)
  {
    assert COOKIE[..6] == COOKIE;
    assert IF_MODIFIED_SINCE[..6][0] != COOKIE[0] && CONTENT_TYPE[..6][2] != COOKIE[2];
    assert CONTENT_LENGTH[..6][2] != COOKIE[2] && CONNECTION[..6][2] != COOKIE[2];
    assert REFERER[..6][0] != COOKIE[0] && AUTHORIZATION[..6][0] != COOKIE[0] && USER_AGENT[..6][0] != COOKIE[0];
  }

  lemma OtherLine(o: Options, line: bytes, ka: bool, field: bytes)
    requires !IsNamed(line, field) && field !in o.fields
    ensures field !in Absorb(o, line, ka).fields
  {
    hide Cut, ColonIn, ValueOf, NameOf, Atoi, AddCgiEnv;
  }

  lemma NamedLine(o: Options, line: bytes, ka: bool, field: bytes)
    requires IsKept(field) && IsNamed(line, field) && field !in o.fields
    requires field == CONTENT_LENGTH ==> Atoi(ValueOf(Cut(line))) >= 0
    ensures var fields := Absorb(o, line, ka).fields; field in fields && fields[field] == ValueOf(Cut(line))
  {
    hide Cut, ColonIn, ValueOf, NameOf, Atoi, AddCgiEnv, IsKept;
    KeptAreFields(field);
    CookieIsNoOther();
  }

  lemma {:induction false} NotNamedYet(lines: seq<bytes>, ka: bool, field: bytes)
    requires forall j :: 0 <= j < |lines| ==> !IsNamed(lines[j], field)
    ensures field !in AbsorbAll(lines, ka).fields
    decreases |lines|
  {
    hide Absorb, IsNamed;
    if lines != [] {
      NotNamedYet(lines[..|lines| - 1], ka, field);
      OtherLine(AbsorbAll(lines[..|lines| - 1], ka), lines[|lines| - 1], ka, field);
    }
  }

  /** Of the lines that name a field, the first one counts; a length counts only if it is not negative. */
  lemma FirstLineCounts(lines: seq<bytes>, i: nat, ka: bool, field: bytes)
    requires IsKept(field) && i < |lines| && IsNamed(lines[i], field)
    requires forall j :: 0 <= j < i ==> !IsNamed(lines[j], field)
    requires field == CONTENT_LENGTH ==> Atoi(ValueOf(Cut(lines[i]))) >= 0
    ensures var fields := AbsorbAll(lines, ka).fields; field in fields && fields[field] == ValueOf(Cut(lines[i]))
  {
    hide Absorb, AbsorbAll, IsNamed, IsKept, Atoi, ValueOf, Cut;
    var before, line, behind := lines[..i], lines[i], lines[i + 1..];
    NotNamedYet(before, ka, field);
    NamedLine(AbsorbAll(before, ka), line, ka, field);
    AbsorbMore(before, line, ka);
    FieldsStay(before + [line], behind, ka, field);
    assert before + [line] + behind == lines;
  }

  /** A line with any other name is thrown away and becomes a variable, but for `Connection`. */
  lemma OthersAreEaten(o: Options, line: bytes, ka: bool)
    requires ColonIn(Cut(line)) < |Cut(line)| && NameOf(Cut(line)) != Ascii("CONNECTION")
    requires forall field :: IsKept(field) ==> !IsNamed(line, field)
    ensures IsEaten(o, line, ka)
  {
    hide Cut, ColonIn, ValueOf, NameOf, Atoi, Ascii, IsKept;
    OtherNamesAre();
    var name := NameOf(Cut(line));
    KeptAreFields(name);
    KeptAreFields(COOKIE);
    assert !IsNamed(line, COOKIE);
    assert IsKept(name) ==> !IsNamed(line, name);
  }

  /** The length of the body is the one that the first line naming a length says. */
  lemma FirstLengthCounts(lines: seq<bytes>, ka: bool, n: nat)
    requires FirstLengthIs(lines, n)
    ensures var fields := OptionsOf(lines, ka).fields;
      CONTENT_LENGTH in fields && Atoi(fields[CONTENT_LENGTH]) == n
  {
    hide Absorb, AbsorbAll, IsNamed, NamesLength, SaysLength, Atoi, ValueOf, Cut;
    var i :| 0 < i < |lines| && SaysLength(lines[i], n) && forall j :: 0 < j < i ==> !NamesLength(lines[j]);
    var options := lines[1..];
    assert options[i - 1] == lines[i];
    forall j | 0 <= j < i - 1 ensures !IsNamed(options[j], CONTENT_LENGTH) {
      assert options[j] == lines[j + 1];
      NamesLengthExactly(options[j]);
    }
    RecordedLength(lines[i], n);
    KeptAreFields(CONTENT_LENGTH);
    FirstLineCounts(options, i - 1, ka, CONTENT_LENGTH);
  }

  lemma NoLengthCounts(lines: seq<bytes>, ka: bool)
    requires forall j :: 0 < j < |lines| ==> !NamesLength(lines[j])
    ensures CONTENT_LENGTH !in OptionsOf(lines, ka).fields
  {
    hide NamesLength, IsNamed;
    if lines != [] {
      forall j | 0 <= j < |lines[1..]| ensures !IsNamed(lines[1..][j], CONTENT_LENGTH) {
        assert lines[1..][j] == lines[j + 1];
        NamesLengthExactly(lines[j + 1]);
      }
      NotNamedYet(lines[1..], ka, CONTENT_LENGTH);
    }
  }

  // ----- variables

  /** Names and values of the lines that are thrown away, in order. */
  function Variables(lines: seq<bytes>, ka: bool): seq<(bytes, bytes)> {
    if lines == [] then []
    else
      var init, line := lines[..|lines| - 1], lines[|lines| - 1];
      Variables(init, ka) +
      if IsEaten(AbsorbAll(init, ka), line, ka) then [(NameOf(Cut(line)), ValueOf(Cut(line)))] else []
  }

  /** The first 24 of them become variables, and no others. */
  lemma {:induction false} FirstVariablesStay(lines: seq<bytes>, ka: bool)
    ensures var all, env := Variables(lines, ka), AbsorbAll(lines, ka).env;
      env <= all && |env| == if |all| < 24 then |all| else 24
    decreases |lines|
  {
    hide Judge, Cut, ColonIn, NameOf, ValueOf;
    if lines != [] { FirstVariablesStay(lines[..|lines| - 1], ka); }
  }
}
