/** Parsing what the printer printed gives the tree back. */
module JsonRoundTrip {
  import opened Bytes
  import opened JsonText
  import opened JsonGrammar

  /** What may follow a printed value without being read as part of a number. */
  predicate Delimited(post: bytes) {
    post == [] || !(IsDigit(post[0]) || post[0] == DOT || post[0] == 101 || post[0] == 69)
  }

  // ----- numbers

  lemma {:induction false} DigitRunOfDigits(n: nat, rest: bytes)
    ensures DigitRun(Digits(n) + rest, 0) == DigitRun(rest, n)
  {
    if n < 10 {
      assert ([48 + n] + rest)[1..] == rest;
    } else {
      var d: byte := 48 + n % 10;
      assert Digits(n) + rest == Digits(n / 10) + ([d] + rest);
      DigitRunOfDigits(n / 10, [d] + rest);
      assert ([d] + rest)[1..] == rest;
    }
  }

  lemma IntegerPartOfDigits(n: nat, post: bytes)
    requires n > 0 && Delimited(post)
    ensures IntegerPart(Digits(n) + post) == (n, post)
  {
    DigitRunOfDigits(n, post);
  }

  lemma NumberRoundTrip(d: real, post: bytes)
    requires IsInt32(d) && Delimited(post)
    ensures ParseNumber.requires(NumberText(d) + post)
    ensures ParseNumber(NumberText(d) + post) == (d, post)
  {
    var n := d.Floor;
    if n == 0 {
      assert AfterZero([48] + post) == post;
      assert IntegerPart([48] + post) == (0, post);
    } else if n < 0 {
      assert NumberText(d) + post == [MINUS] + (Digits(-n) + post);
      assert AfterMinus(NumberText(d) + post) == Digits(-n) + post;
      IntegerPartOfDigits(-n, post);
    } else {
      IntegerPartOfDigits(n, post);
    }
  }

  // ----- strings

  lemma Hex4OfControl(b: byte, s: bytes)
    requires 0 < b < 32
    ensures Hex4([48, 48, HexDigit(b / 16), HexDigit(b % 16)] + s) == b
  {
  }

  lemma SecondPassStep(b: byte, s: bytes, out: bytes)
    requires b != 0
    ensures SecondPass(EscapedByte(b) + s, out) == SecondPass(s, out + [b])
  {
    var e := EscapedByte(b);
    var t := e + s;
    if |e| == 1 {
      assert t[1..] == s;
    } else {
      if |e| == 6 {
        assert t[2..] == [48, 48, HexDigit(b / 16), HexDigit(b % 16)] + s;
        Hex4OfControl(b, s);
      }
      assert Escape(t) == ([b], |e|);
      assert t[|e|..] == s;
    }
  }

  lemma {:induction false} SecondPassOfEscaped(s: bytes, post: bytes, out: bytes)
    requires NoNul(s)
    ensures SecondPass(Escaped(s) + ([QUOTE] + post), out) == Ok(out + s, post)
    decreases |s|
  {
    if s == [] {
      assert Escaped(s) + ([QUOTE] + post) == [QUOTE] + post;
      assert out + s == out;
    } else {
      var rest := Escaped(s[1..]) + ([QUOTE] + post);
      assert Escaped(s) + ([QUOTE] + post) == EscapedByte(s[0]) + rest;
      SecondPassStep(s[0], rest, out);
      SecondPassOfEscaped(s[1..], post, out + [s[0]]);
      assert out + [s[0]] + s[1..] == out + s;
    }
  }

  lemma FirstPassStep(b: byte, s: bytes)
    requires FirstPass(s) >= 0
    ensures FirstPass(EscapedByte(b) + s) >= 1 + FirstPass(s)
  {
    var e := EscapedByte(b);
    var t := e + s;
    if |e| == 1 {
      assert t[1..] == s;
    } else if |e| == 2 {
      assert t[2..] == s;
    } else {
      var h, l := HexDigit(b / 16), HexDigit(b % 16);
      FirstPassPlain(l, s);
      FirstPassPlain(h, [l] + s);
      FirstPassPlain(48, [h] + ([l] + s));
      FirstPassPlain(48, [48] + ([h] + ([l] + s)));
      assert t[2..] == [48] + ([48] + ([h] + ([l] + s)));
    }
  }

  lemma FirstPassPlain(b: byte, s: bytes)
    requires b != QUOTE && b != BACKSLASH && FirstPass(s) >= 0
    ensures FirstPass([b] + s) == 1 + FirstPass(s)
  {
    assert ([b] + s)[1..] == s;
  }

  /** The buffer that the first pass sizes is large enough for the decoded string. */
  lemma {:induction false} FirstPassOfEscaped(s: bytes, post: bytes)
    ensures FirstPass(Escaped(s) + ([QUOTE] + post)) >= |s|
    decreases |s|
  {
    if s == [] {
      assert Escaped(s) + ([QUOTE] + post) == [QUOTE] + post;
    } else {
      var rest := Escaped(s[1..]) + ([QUOTE] + post);
      assert Escaped(s) + ([QUOTE] + post) == EscapedByte(s[0]) + rest;
      FirstPassOfEscaped(s[1..], post);
      FirstPassStep(s[0], rest);
    }
  }

  lemma StringRoundTrip(s: bytes, post: bytes)
    requires NoNul(s)
    ensures ParseString([QUOTE] + (Escaped(s) + ([QUOTE] + post))) == Ok(s, post)
  {
    var t := [QUOTE] + (Escaped(s) + ([QUOTE] + post));
    assert t[1..] == Escaped(s) + ([QUOTE] + post);
    SecondPassOfEscaped(s, post, []);
    FirstPassOfEscaped(s, post);
    assert [] + s == s;
  }

  // ----- blanks

  lemma {:induction false} SkipTabs(n: nat, s: bytes)
    ensures Skip(Tabs(n) + s) == Skip(s)
  {
    if n == 0 {
      assert Tabs(n) + s == s;
    } else {
      assert (Tabs(n) + s)[1..] == Tabs(n - 1) + s;
      SkipTabs(n - 1, s);
    }
  }

  lemma SkipBlank(b: byte, s: bytes)
    requires b <= SPACE
    ensures Skip([b] + s) == Skip(s)
  {
    assert ([b] + s)[1..] == s;
  }

  lemma EmitStartsVisible(t: Json, depth: nat, fmt: bool, post: bytes)
    ensures Emit(t, depth, fmt, post) != [] && Emit(t, depth, fmt, post)[0] > SPACE
    ensures t.Arr? || t.Obj? ==> Emit(t, depth, fmt, post)[0] in {LBRACKET, LBRACE}
    ensures Emit(t, depth, fmt, post)[0] !in {RBRACKET, RBRACE, COMMA, COLON}
  {
    if t.Number? {
      var d := t.value;
      if d.Floor < 0 && d != 0.0 {
        assert NumberText(d)[0] == MINUS;
      } else {
        assert IsDigit(NumberText(d)[0]);
      }
    }
  }

  // ----- trees

  lemma {:induction false} ParseEmit(t: Json, depth: nat, fmt: bool, post: bytes)
    requires Printable(t) && Delimited(post)
    ensures ParseValue(Emit(t, depth, fmt, post)) == Ok(t, post)
    decreases t
  {
    match t
    case Number(d) => ParseEmitNumber(d, depth, fmt, post);
    case Str(text) => ParseEmitString(text, depth, fmt, post);
    case Arr(items) => ParseEmitArray(items, depth, fmt, post);
    case Obj(ms) => ParseEmitObject(ms, depth, fmt, post);
    case _ => ParseOfKeyword(t, post);
  }

  lemma ParseEmitNumber(d: real, depth: nat, fmt: bool, post: bytes)
    requires IsInt32(d) && Delimited(post)
    ensures ParseValue(Emit(Number(d), depth, fmt, post)) == Ok(Number(d), post)
  {
    NumberRoundTrip(d, post);
    ParseOfNumber(NumberText(d) + post);
  }

  lemma ParseEmitString(text: bytes, depth: nat, fmt: bool, post: bytes)
    requires NoNul(text)
    ensures ParseValue(Emit(Str(text), depth, fmt, post)) == Ok(Str(text), post)
  {
    var s := [QUOTE] + (Escaped(text) + ([QUOTE] + post));
    assert Emit(Str(text), depth, fmt, post) == s;
    StringRoundTrip(text, post);
    ParseOfString(s, text, post);
  }

  lemma ParseOfKeyword(t: Json, post: bytes)
    requires t.Null? || t.False? || t.True?
    ensures ParseValue(Text(t, 0, false) + post) == Ok(t, post)
  {
    var s := Text(t, 0, false) + post;
    if t.False? {
      assert s[..4][0] == 102 && s[..5] == FALSE_TEXT && s[5..] == post;
    } else if t.Null? {
      assert s[..4] == NULL_TEXT && s[4..] == post;
    } else {
      assert s[..4][0] == 116 && (|s| >= 5 ==> s[..5][0] == 116) && s[..4] == TRUE_TEXT && s[4..] == post;
    }
  }

  lemma ParseOfString(s: bytes, text: bytes, post: bytes)
    requires ParseString(s) == Ok(text, post)
    ensures ParseValue(s) == Ok(Str(text), post)
  {
    NoKeyword(s);
  }

  lemma ParseOfNumber(s: bytes)
    requires At(s, 0) == MINUS || IsDigit(At(s, 0))
    ensures ParseValue(s) == Ok(Number(ParseNumber(s).0), ParseNumber(s).1)
  {
    NoKeyword(s);
  }

  lemma NoKeyword(s: bytes)
    requires s != [] && s[0] !in {110, 102, 116}
    ensures !HasPrefix(s, NULL_TEXT) && !HasPrefix(s, FALSE_TEXT) && !HasPrefix(s, TRUE_TEXT)
  {
    assert |s| >= 4 ==> s[..4][0] == s[0];
    assert |s| >= 5 ==> s[..5][0] == s[0];
  }

  lemma ParseOfArray(s: bytes)
    requires s != [] && s[0] == LBRACKET
    ensures ParseValue(s) == ParseArray(s)
  {
    NoKeyword(s);
  }

  lemma ParseOfObject(s: bytes)
    requires s != [] && s[0] == LBRACE
    ensures ParseValue(s) == ParseObject(s)
  {
    NoKeyword(s);
  }

  lemma {:induction false} ParseEmitArray(items: seq<Json>, depth: nat, fmt: bool, post: bytes)
    requires Printable(Arr(items)) && Delimited(post)
    ensures ParseValue(Emit(Arr(items), depth, fmt, post)) == Ok(Arr(items), post)
    decreases items, 1
  {
    var s := Emit(Arr(items), depth, fmt, post);
    var body := EmitItems(items, depth + 1, fmt, [RBRACKET] + post);
    assert s[1..] == body;
    ParseOfArray(s);
    if items == [] {
      assert body[1..] == post;
    } else {
      EmitStartsVisible(items[0], depth + 1, fmt, [RBRACKET] + post);
      if |items| > 1 {
        EmitStartsVisible(items[0], depth + 1, fmt,
          [COMMA] + ((if fmt then [SPACE] else []) + EmitItems(items[1..], depth + 1, fmt, [RBRACKET] + post)));
      }
      ParseEmitItems(items, depth + 1, fmt, post);
    }
  }

  lemma {:induction false} ParseEmitItems(items: seq<Json>, depth: nat, fmt: bool, post: bytes)
    requires items != [] && Printable(Arr(items)) && Delimited(post)
    ensures ParseItems(EmitItems(items, depth, fmt, [RBRACKET] + post)) == Ok(items, post)
    decreases items, 0
  {
    hide ParseValue, ParseItems, Emit, Skip, Printable, EmitItems;
    var close := [RBRACKET] + post;
    EmitItemsIs(items, depth, fmt, close);
    ItemsPrintable(items);
    var s := EmitItems(items, depth, fmt, close);
    if |items| == 1 {
      StartsWithItem(items[0], depth, fmt, close);
      ParseEmit(items[0], depth, fmt, close);
      LastItem(s, items[0], close, post);
      assert items == [items[0]];
    } else {
      var more := EmitItems(items[1..], depth, fmt, close);
      var gap := (if fmt then [SPACE] else []) + more;
      var tail := [COMMA] + gap;
      StartsWithItem(items[0], depth, fmt, tail);
      ParseEmit(items[0], depth, fmt, tail);
      ParseEmitItems(items[1..], depth, fmt, post);
      ItemsSkipBlank(more);
      if !fmt { assert gap == more; }
      NextItem(s, items[0], tail, gap, items[1..], post);
      assert [items[0]] + items[1..] == items;
    }
  }

  lemma EmitItemsIs(items: seq<Json>, depth: nat, fmt: bool, post: bytes)
    requires items != []
    ensures EmitItems(items, depth, fmt, post) ==
      if |items| == 1 then Emit(items[0], depth, fmt, post)
      else Emit(items[0], depth, fmt, [COMMA] + ((if fmt then [SPACE] else []) + EmitItems(items[1..], depth, fmt, post)))
  {
  }

  lemma {:induction false} ItemsPrintable(items: seq<Json>)
    requires items != [] && Printable(Arr(items))
    ensures Printable(items[0]) && Printable(Arr(items[1..]))
  {
  }

  lemma {:induction false} MembersPrintable(ms: seq<Member>)
    requires ms != [] && Printable(Obj(ms))
    ensures NoNul(ms[0].name) && Printable(ms[0].value) && Printable(Obj(ms[1..]))
  {
  }

  lemma StartsWithItem(t: Json, depth: nat, fmt: bool, post: bytes)
    ensures Skip(Emit(t, depth, fmt, post)) == Emit(t, depth, fmt, post)
  {
    hide Emit;
    EmitStartsVisible(t, depth, fmt, post);
  }

  lemma LastItem(s: bytes, x: Json, tail: bytes, post: bytes)
    requires ParseValue(Skip(s)) == Ok(x, tail) && tail == [RBRACKET] + post
    ensures ParseItems(s) == Ok([x], post)
  {
    assert Skip(tail)[1..] == post;
  }

  lemma NextItem(s: bytes, x: Json, tail: bytes, gap: bytes, xs: seq<Json>, post: bytes)
    requires ParseValue(Skip(s)) == Ok(x, tail) && tail == [COMMA] + gap
    requires ParseItems(gap) == Ok(xs, post)
    ensures ParseItems(s) == Ok([x] + xs, post)
  {
    assert Skip(tail)[1..] == gap;
  }

  lemma ItemsSkipBlank(s: bytes)
    ensures ParseItems([SPACE] + s) == ParseItems(s)
  {
    SkipBlank(SPACE, s);
  }

  lemma {:induction false} ParseEmitObject(ms: seq<Member>, depth: nat, fmt: bool, post: bytes)
    requires Printable(Obj(ms)) && Delimited(post)
    ensures ParseValue(Emit(Obj(ms), depth, fmt, post)) == Ok(Obj(ms), post)
    decreases ms, 2
  {
    hide ParseValue, ParseMembers, EmitMembers, Skip;
    var close := [RBRACE] + post;
    if ms == [] {
      var blank := if fmt then [LF] + Tabs(depth - 1) else [];
      SkipBlanksBefore(fmt, depth - 1, close);
      EmptyObject(blank + close, post);
    } else {
      var end := (if fmt then Tabs(depth) else []) + close;
      var body := EmitMembers(ms, depth + 1, fmt, end);
      var rest := (if fmt then [LF] else []) + body;
      SkipLine(fmt, body);
      SkipToMembers(ms, depth + 1, fmt, end);
      ParseEmitMembers(ms, depth + 1, depth, fmt, post);
      FullObject(rest, ms, post);
    }
  }

  /** The white space inside an empty object. */
  lemma SkipBlanksBefore(fmt: bool, depth: int, s: bytes)
    requires s != [] && s[0] > SPACE
    ensures Skip((if fmt then [LF] + Tabs(depth) else []) + s) == s
  {
    if fmt {
      var n := if depth < 0 then 0 else depth;
      assert [LF] + Tabs(depth) + s == [LF] + (Tabs(n) + s);
      SkipBlank(LF, Tabs(n) + s);
      SkipTabs(n, s);
    } else {
      assert [] + s == s;
    }
  }

  lemma SkipLine(fmt: bool, s: bytes)
    ensures Skip((if fmt then [LF] else []) + s) == Skip(s)
  {
    if fmt {
      SkipBlank(LF, s);
    } else {
      assert [] + s == s;
    }
  }

  lemma EmptyObject(rest: bytes, post: bytes)
    requires Skip(rest) == [RBRACE] + post
    ensures ParseValue([LBRACE] + rest) == Ok(Obj([]), post)
  {
    hide ParseValue, ParseMembers;
    var s := [LBRACE] + rest;
    ParseOfObject(s);
    assert s[1..] == rest && ([RBRACE] + post)[1..] == post;
  }

  lemma FullObject(rest: bytes, ms: seq<Member>, post: bytes)
    requires At(Skip(rest), 0) != RBRACE && ParseMembers(Skip(rest)) == Ok(ms, post)
    ensures ParseValue([LBRACE] + rest) == Ok(Obj(ms), post)
  {
    hide ParseValue, ParseMembers;
    var s := [LBRACE] + rest;
    ParseOfObject(s);
    assert s[1..] == rest;
  }

  /** Skipping in front of the members leads to the first name's quote. */
  lemma SkipToMembers(ms: seq<Member>, depth: nat, fmt: bool, post: bytes)
    requires ms != []
    ensures var v := Skip(EmitMembers(ms, depth, fmt, post));
            At(v, 0) == QUOTE && Skip(v) == v
            && ParseMembers(v) == ParseMembers(EmitMembers(ms, depth, fmt, post))
  {
    hide ParseString, ParseValue, Escaped, Emit;
    var tail := (if |ms| > 1 then [COMMA] else [])
                + ((if fmt then [LF] else []) + EmitMembers(ms[1..], depth, fmt, post));
    var s := EmitMembers(ms, depth, fmt, post);
    assert s == EmitMember(ms[0], depth, fmt, tail);
    var body := [QUOTE] + (Escaped(ms[0].name) + ([QUOTE] + ([COLON]
                + ((if fmt then [TAB] else []) + Emit(ms[0].value, depth, fmt, tail)))));
    if fmt {
      assert s == Tabs(depth) + body;
      SkipTabs(depth, body);
    } else {
      assert s == body;
    }
    assert Skip(body) == body;
    assert ParseMember(body) == ParseMember(s);
  }

  lemma {:induction false} ParseEmitMember(m: Member, depth: nat, fmt: bool, post: bytes)
    requires NoNul(m.name) && Printable(m.value) && Delimited(post)
    ensures ParseMember(EmitMember(m, depth, fmt, post)) == Ok(m, post)
    decreases m
  {
    var value := Emit(m.value, depth, fmt, post);
    var gap := (if fmt then [TAB] else []) + value;
    var colon := [COLON] + gap;
    var body := [QUOTE] + (Escaped(m.name) + ([QUOTE] + colon));
    var s := EmitMember(m, depth, fmt, post);
    if fmt {
      assert s == Tabs(depth) + body;
      SkipTabs(depth, body);
    } else {
      assert s == body;
    }
    StringRoundTrip(m.name, colon);
    assert Skip(s) == body;
    assert Skip(colon) == colon && colon[1..] == gap;
    EmitStartsVisible(m.value, depth, fmt, post);
    if fmt {
      SkipBlank(TAB, value);
    } else {
      assert gap == value;
    }
    ParseEmit(m.value, depth, fmt, post);
  }

  lemma {:induction false} ParseEmitMembers(ms: seq<Member>, depth: nat, close: nat, fmt: bool, post: bytes)
    requires ms != [] && Printable(Obj(ms)) && Delimited(post)
    ensures ParseMembers(EmitMembers(ms, depth, fmt, (if fmt then Tabs(close) else []) + ([RBRACE] + post)))
            == Ok(ms, post)
    decreases ms, 1
  {
    hide ParseMembers, ParseMember, EmitMember, Skip, Printable, EmitMembers;
    var brace := [RBRACE] + post;
    var end := (if fmt then Tabs(close) else []) + brace;
    EmitMembersIs(ms, depth, fmt, end);
    MembersPrintable(ms);
    var more := EmitMembers(ms[1..], depth, fmt, end);
    var gap := (if fmt then [LF] else []) + more;
    var tail := (if |ms| > 1 then [COMMA] else []) + gap;
    assert tail[0] in {COMMA, LF, RBRACE} by {
      if |ms| == 1 && !fmt { assert tail == brace; }
    }
    ParseEmitMember(ms[0], depth, fmt, tail);
    var s := EmitMembers(ms, depth, fmt, end);
    if |ms| == 1 {
      assert tail == (if fmt then [LF] else []) + end;
      if fmt {
        SkipBlank(LF, end);
        SkipTabs(close, brace);
      } else {
        assert tail == brace;
      }
      BraceStays(brace);
      LastMember(s, ms[0], tail, post);
      assert ms == [ms[0]];
    } else {
      ParseEmitMembers(ms[1..], depth, close, fmt, post);
      MembersSkipBlank(more);
      if !fmt { assert gap == more; }
      NextMember(s, ms[0], tail, gap, ms[1..], post);
      assert [ms[0]] + ms[1..] == ms;
    }
  }

  lemma EmitMembersIs(ms: seq<Member>, depth: nat, fmt: bool, post: bytes)
    requires ms != []
    ensures EmitMembers(ms, depth, fmt, post) ==
      EmitMember(ms[0], depth, fmt,
        (if |ms| > 1 then [COMMA] else []) + ((if fmt then [LF] else []) + EmitMembers(ms[1..], depth, fmt, post)))
    ensures |ms| == 1 ==> EmitMembers(ms[1..], depth, fmt, post) == post
  {
  }

  lemma BraceStays(s: bytes)
    requires s != [] && s[0] > SPACE
    ensures Skip(s) == s
  {
  }

  lemma LastMember(s: bytes, m: Member, tail: bytes, post: bytes)
    requires ParseMember(s) == Ok(m, tail) && Skip(tail) == [RBRACE] + post
    ensures ParseMembers(s) == Ok([m], post)
  {
    assert ([RBRACE] + post)[1..] == post;
  }

  lemma NextMember(s: bytes, m: Member, tail: bytes, gap: bytes, ms: seq<Member>, post: bytes)
    requires ParseMember(s) == Ok(m, tail) && tail == [COMMA] + gap
    requires ParseMembers(gap) == Ok(ms, post)
    ensures ParseMembers(s) == Ok([m] + ms, post)
  {
    assert Skip(tail)[1..] == gap;
  }

  lemma MembersSkipBlank(s: bytes)
    ensures ParseMembers([LF] + s) == ParseMembers(s)
  {
    SkipBlank(LF, s);
    assert ParseMember([LF] + s) == ParseMember(s);
  }

  /** Parsing the formatted or unformatted text of a tree uses it all up and gives the tree back. */
  lemma TextRoundTrip(t: Json, fmt: bool, requireEnd: bool)
    requires Printable(t)
    ensures Parse(Text(t, 0, fmt), requireEnd) == Ok(t, [])
  {
    EmitIsText(t, 0, fmt, []);
    assert Text(t, 0, fmt) + [] == Text(t, 0, fmt);
    EmitStartsVisible(t, 0, fmt, []);
    ParseEmit(t, 0, fmt, []);
  }

  /** Hence no two printable trees share a text, whatever the formatting. */
  lemma TextIsInjective(t: Json, u: Json, fmt: bool, fmt': bool)
    requires Printable(t) && Printable(u)
    requires Text(t, 0, fmt) == Text(u, 0, fmt')
    ensures t == u
  {
    TextRoundTrip(t, fmt, true);
    TextRoundTrip(u, fmt', true);
  }
}
