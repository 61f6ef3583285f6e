/** Minifying a tree's formatted text gives exactly its unformatted text. */
module JsonMinifyText {
  import opened Bytes
  import opened JsonText
  import opened JsonMinify

  /** Bytes that minifying copies whatever surrounds them. */
  predicate IsPlain(b: byte) { !IsBlank(b) && b != SLASH && b != QUOTE }

  lemma MinifyBlank(b: byte, s: bytes)
    requires IsBlank(b)
    ensures Minify([b] + s) == Minify(s)
  {
    assert ([b] + s)[1..] == s;
    BeforeNothing(Minify(s));
  }

  lemma BeforeNothing(m: Minified)
    ensures Before([], m) == m
  {
    if m.Done? { assert [] + m.text == m.text; }
  }

  lemma {:induction false} MinifyTabs(n: nat, s: bytes)
    ensures Minify(Tabs(n) + s) == Minify(s)
  {
    if n == 0 {
      assert Tabs(n) + s == s;
    } else {
      assert Tabs(n) + s == [TAB] + (Tabs(n - 1) + s);
      MinifyBlank(TAB, Tabs(n - 1) + s);
      MinifyTabs(n - 1, s);
    }
  }

  lemma {:induction false} MinifyPlain(w: bytes, s: bytes)
    requires forall i :: 0 <= i < |w| ==> IsPlain(w[i])
    ensures Minify(w + s) == Before(w, Minify(s))
    decreases |w|
  {
    if w == [] {
      assert w + s == s;
      BeforeNothing(Minify(s));
    } else {
      var t := w + s;
      assert t[..1] == [w[0]] && t[1..] == w[1..] + s;
      MinifyPlain(w[1..], s);
      assert Minify(t) == Before([w[0]], Minify(w[1..] + s));
      BeforeTwice([w[0]], w[1..], Minify(s));
      assert [w[0]] + w[1..] == w;
    }
  }

  // ----- string literals survive byte for byte

  lemma {:induction false} LiteralOfPlain(w: bytes, s: bytes)
    requires forall i :: 0 <= i < |w| ==> w[i] != QUOTE && w[i] != BACKSLASH
    requires LiteralLength(s) != -1
    ensures LiteralLength(w + s) == |w| + LiteralLength(s)
    decreases |w|
  {
    if w == [] {
      assert w + s == s;
    } else {
      assert (w + s)[1..] == w[1..] + s;
      LiteralOfPlain(w[1..], s);
    }
  }

  lemma LiteralOfEscape(b: byte, s: bytes)
    requires LiteralLength(s) != -1
    ensures LiteralLength(EscapedByte(b) + s) == |EscapedByte(b)| + LiteralLength(s)
  {
    var e := EscapedByte(b);
    if |e| == 1 {
      LiteralOfPlain(e, s);
    } else {
      var rest := e[2..];
      assert |rest| == 0 || |rest| == 4;
      LiteralOfPlain(rest, s);
      assert (e + s)[2..] == rest + s && (e + s)[0] == BACKSLASH;
    }
  }

  lemma {:induction false} LiteralOfEscaped(s: bytes, post: bytes)
    ensures LiteralLength(Escaped(s) + ([QUOTE] + post)) == |Escaped(s)| + 1
    decreases |s|
  {
    var close := [QUOTE] + post;
    if s == [] {
      assert Escaped(s) + close == close;
    } else {
      LiteralOfEscaped(s[1..], post);
      LiteralOfEscape(s[0], Escaped(s[1..]) + close);
      Concat3(EscapedByte(s[0]), Escaped(s[1..]), close);
    }
  }

  lemma MinifyString(s: bytes, post: bytes)
    ensures Minify([QUOTE] + (Escaped(s) + ([QUOTE] + post))) == Before(StringText(s), Minify(post))
  {
    var t := [QUOTE] + (Escaped(s) + ([QUOTE] + post));
    LiteralOfEscaped(s, post);
    assert t[1..] == Escaped(s) + ([QUOTE] + post);
    assert t == StringText(s) + post;
    assert t[..|StringText(s)|] == StringText(s) && t[|StringText(s)|..] == post;
  }

  // ----- trees

  lemma {:induction false} MinifyEmit(t: Json, depth: nat, post: bytes)
    ensures Minify(Emit(t, depth, true, post)) == Before(Text(t, depth, false), Minify(post))
    decreases t
  {
    hide Minify, Before;
    match t
    case Str(s) =>
      MinifyString(s, post);
      assert Emit(t, depth, true, post) == [QUOTE] + (Escaped(s) + ([QUOTE] + post));
    case Arr(items) =>
      MinifyEmitItems(items, depth + 1, [RBRACKET] + post);
      MinifyPlain([RBRACKET], post);
      var body := ItemsText(items, depth + 1, false);
      MinifyPlain([LBRACKET], EmitItems(items, depth + 1, true, [RBRACKET] + post));
      BeforeTwice(body, [RBRACKET], Minify(post));
      BeforeTwice([LBRACKET], body + [RBRACKET], Minify(post));
      Concat3([LBRACKET], body, [RBRACKET]);
    case Obj(ms) => MinifyEmitObject(ms, depth, post);
    case _ => MinifyPlain(Text(t, depth, false), post);
  }

  lemma {:induction false} MinifyEmitItems(items: seq<Json>, depth: nat, post: bytes)
    ensures Minify(EmitItems(items, depth, true, post)) == Before(ItemsText(items, depth, false), Minify(post))
    decreases items
  {
    if items == [] {
      BeforeNothing(Minify(post));
    } else if |items| == 1 {
      MinifyEmit(items[0], depth, post);
      assert ItemsText(items, depth, false) == Text(items[0], depth, false);
    } else {
      var more := EmitItems(items[1..], depth, true, post);
      var tail := [COMMA] + ([SPACE] + more);
      MinifyEmit(items[0], depth, tail);
      MinifyPlain([COMMA], [SPACE] + more);
      MinifyBlank(SPACE, more);
      MinifyEmitItems(items[1..], depth, post);
      var first, rest := Text(items[0], depth, false), ItemsText(items[1..], depth, false);
      BeforeTwice([COMMA], rest, Minify(post));
      BeforeTwice(first, [COMMA] + rest, Minify(post));
      Concat3(first, [COMMA], rest);
    }
  }

  lemma MinifyEmptyObject(depth: nat, post: bytes)
    ensures Minify(Emit(Obj([]), depth, true, post)) == Before([LBRACE, RBRACE], Minify(post))
  {
    hide Minify, Before;
    var close := [RBRACE] + post;
    var n := if depth == 0 then 0 else depth - 1;
    var body := [LF] + (Tabs(n) + close);
    assert Tabs(n) == Tabs(depth - 1);
    Concat3([LF], Tabs(n), close);
    MinifyPlain([RBRACE], post);
    MinifyPlain([LBRACE], body);
    MinifyBlank(LF, Tabs(n) + close);
    MinifyTabs(n, close);
    BeforeTwice([LBRACE], [RBRACE], Minify(post));
    assert [LBRACE] + [RBRACE] == [LBRACE, RBRACE];
    assert Emit(Obj([]), depth, true, post) == [LBRACE] + body;
  }

  lemma {:induction false} MinifyEmitObject(ms: seq<Member>, depth: nat, post: bytes)
    ensures Minify(Emit(Obj(ms), depth, true, post)) == Before(Text(Obj(ms), depth, false), Minify(post))
    decreases ms, 1
  {
    if ms == [] {
      MinifyEmptyObject(depth, post);
      assert Text(Obj(ms), depth, false) == [LBRACE, RBRACE];
    } else {
      var close := [RBRACE] + post;
      var members := EmitMembers(ms, depth + 1, true, Tabs(depth) + close);
      var body := MembersText(ms, depth + 1, false);
      MinifyEmitMembers(ms, depth + 1, Tabs(depth) + close);
      MinifyBraces(members, body, depth, post);
      UnformattedObject(ms, depth);
    }
  }

  lemma UnformattedObject(ms: seq<Member>, depth: nat)
    requires ms != []
    ensures Text(Obj(ms), depth, false) == [LBRACE] + (MembersText(ms, depth + 1, false) + [RBRACE])
  {
    var body, none: bytes := MembersText(ms, depth + 1, false), [];
    assert Text(Obj(ms), depth, false) == [LBRACE] + none + body + none + [RBRACE];
    assert [LBRACE] + none == [LBRACE] && [LBRACE] + body + none == [LBRACE] + body;
    Concat3([LBRACE], body, [RBRACE]);
  }

  lemma MinifyBraces(members: bytes, body: bytes, depth: nat, post: bytes)
    requires Minify(members) == Before(body, Minify(Tabs(depth) + ([RBRACE] + post)))
    ensures Minify([LBRACE] + ([LF] + members)) == Before([LBRACE] + (body + [RBRACE]), Minify(post))
  {
    MinifyPlain([LBRACE], [LF] + members);
    MinifyBlank(LF, members);
    MinifyTabs(depth, [RBRACE] + post);
    MinifyPlain([RBRACE], post);
    BeforeTwice(body, [RBRACE], Minify(post));
    BeforeTwice([LBRACE], body + [RBRACE], Minify(post));
  }

  lemma {:induction false} MinifyEmitMembers(ms: seq<Member>, depth: nat, post: bytes)
    ensures Minify(EmitMembers(ms, depth, true, post)) == Before(MembersText(ms, depth, false), Minify(post))
    decreases ms, 0
  {
    if ms == [] {
      BeforeNothing(Minify(post));
    } else {
      var more := EmitMembers(ms[1..], depth, true, post);
      var comma := if |ms| > 1 then [COMMA] else [];
      MinifyEmitMember(ms[0], depth, comma + ([LF] + more));
      MinifyPlain(comma, [LF] + more);
      MinifyBlank(LF, more);
      MinifyEmitMembers(ms[1..], depth, post);
      var first, rest := MemberText(ms[0], depth, false), MembersText(ms[1..], depth, false);
      BeforeTwice(comma, rest, Minify(post));
      BeforeTwice(first, comma + rest, Minify(post));
      assert MembersText(ms, depth, false) == first + (comma + rest);
    }
  }

  lemma {:induction false} MinifyEmitMember(m: Member, depth: nat, post: bytes)
    ensures Minify(EmitMember(m, depth, true, post)) == Before(MemberText(m, depth, false), Minify(post))
    decreases m, 0
  {
    var value := Emit(m.value, depth, true, post);
    var colon := [COLON] + ([TAB] + value);
    var body := [QUOTE] + (Escaped(m.name) + ([QUOTE] + colon));
    MinifyTabs(depth, body);
    MinifyString(m.name, colon);
    MinifyPlain([COLON], [TAB] + value);
    MinifyBlank(TAB, value);
    MinifyEmit(m.value, depth, post);
    var name, text := StringText(m.name), Text(m.value, depth, false);
    BeforeTwice([COLON], text, Minify(post));
    BeforeTwice(name, [COLON] + text, Minify(post));
    assert MemberText(m, depth, false) == name + ([COLON] + text);
  }

  /** Minifying what `cJSON_Print` writes gives what `cJSON_PrintUnformatted` writes. */
  lemma MinifyOfFormatted(t: Json)
    ensures Minify(Text(t, 0, true)) == Done(Text(t, 0, false))
  {
    EmitIsText(t, 0, true, []);
    assert Text(t, 0, true) + [] == Text(t, 0, true);
    MinifyEmit(t, 0, []);
    assert Text(t, 0, false) + [] == Text(t, 0, false);
  }

  // ----- which texts overrun

  /** Where a reader of comments and literals stands, byte by byte. */
  datatype Reading = Plain | Slash | Line | Block | BlockStar | Literal | LiteralEscape

  /** The star that opens a comment may close it: a slash right behind it ends the comment. */
  function Read(r: Reading, b: byte): Reading {
    match r
    case Plain => if b == SLASH then Slash else if b == QUOTE then Literal else Plain
    case Slash => if b == SLASH then Line else if b == STAR then BlockStar else if b == QUOTE then Literal else Plain
    case Line => if b == LF then Plain else Line
    case Block => if b == STAR then BlockStar else Block
    case BlockStar => if b == SLASH then Plain else if b == STAR then BlockStar else Block
    case Literal => if b == QUOTE then Plain else if b == BACKSLASH then LiteralEscape else Literal
    case LiteralEscape => Literal
  }

  function ReadAll(r: Reading, s: bytes): Reading
    decreases |s|
  {
    if s == [] then r else ReadAll(Read(r, s[0]), s[1..])
  }

  /** A block comment or a string literal is still open. */
  predicate IsOpen(r: Reading) { r in {Block, BlockStar, Literal, LiteralEscape} }

  lemma {:induction false} ReadBlock(s: bytes)
    ensures var n := BlockLength(s);
      if n == -1 then IsOpen(ReadAll(Block, s)) else ReadAll(Block, s) == ReadAll(Plain, s[n..])
  {
    if s != [] {
      ReadBlock(s[1..]);
      if s[0] == STAR && At(s, 1) == SLASH {
        assert s[1..][1..] == s[2..];
      } else {
        var n := BlockLength(s[1..]);
        if n != -1 { assert s[1..][n..] == s[1 + n..]; }
      }
    }
  }

  lemma {:induction false} ReadLiteral(s: bytes)
    ensures var n := LiteralLength(s);
      if n == -1 then IsOpen(ReadAll(Literal, s)) else ReadAll(Literal, s) == ReadAll(Plain, s[n..])
    decreases |s|
  {
    if s != [] && s[0] != QUOTE {
      var step := if s[0] == BACKSLASH then 2 else 1;
      if step <= |s| {
        ReadLiteral(s[step..]);
        if step == 2 { assert s[1..][1..] == s[2..]; }
        var n := LiteralLength(s[step..]);
        if n != -1 { assert s[step..][n..] == s[step + n..]; }
      } else {
        assert s[1..] == [];
      }
    }
  }

  lemma {:induction false} ReadLine(s: bytes)
    ensures IsOpen(ReadAll(Line, s)) <==> IsOpen(ReadAll(Plain, s[LineLength(s)..]))
  {
    if s != [] && s[0] != LF {
      ReadLine(s[1..]);
      assert s[1..][LineLength(s[1..])..] == s[LineLength(s)..];
    }
  }

  /** One round of the main loop, seen by the reader. */
  lemma ReadToken(s: bytes)
    requires s != []
    ensures var (w, n) := Token(s);
      if n == -1 then IsOpen(ReadAll(Plain, s)) else IsOpen(ReadAll(Plain, s)) <==> IsOpen(ReadAll(Plain, s[n..]))
  {
    hide BlockLength, LiteralLength, LineLength;
    var rest := s[1..];
    if s[0] == SLASH && At(s, 1) == SLASH {
      LineStart(s);
      ReadLine(s);
      assert ReadAll(Plain, s) == ReadAll(Line, s[1..][1..]) && ReadAll(Line, s) == ReadAll(Line, s[1..][1..]);
    } else if s[0] == SLASH && At(s, 1) == STAR {
      BlockStart(s);
      ReadBlock(rest);
      assert ReadAll(Plain, s) == ReadAll(Slash, rest) == ReadAll(BlockStar, rest[1..]) == ReadAll(Block, rest);
      var n := BlockLength(rest);
      if n != -1 { assert rest[n..] == s[1 + n..]; }
    } else if s[0] == QUOTE {
      ReadLiteral(rest);
      var n := LiteralLength(rest);
      if n != -1 { assert rest[n..] == s[1 + n..]; }
    } else if s[0] == SLASH && rest != [] {
      assert Read(Slash, rest[0]) == Read(Plain, rest[0]);
    }
  }

  lemma LineStart(s: bytes)
    requires s != [] && s[0] != LF
    ensures 0 < LineLength(s) <= |s|
  {
  }

  lemma BlockStart(s: bytes)
    requires |s| >= 2 && s[0] == SLASH
    ensures BlockLength(s) == if BlockLength(s[1..]) == -1 then -1 else 1 + BlockLength(s[1..])
  {
  }

  /** A text is left behind its end if and only if it ends inside a block comment or a string literal. */
  lemma {:induction false} OverrunsExactly(s: bytes)
    ensures Minify(s) == Overrun <==> IsOpen(ReadAll(Plain, s))
    decreases |s|
  {
    hide Token, ReadAll;
    if s == [] {
      NothingRead();
    } else {
      ReadToken(s);
      var (w, n) := Token(s);
      if n != -1 { OverrunsExactly(s[n..]); }
    }
  }

  lemma NothingRead()
    ensures ReadAll(Plain, []) == Plain
  {
  }

  /** An unclosed comment, an unclosed literal, and a comment that its own opening star closes. */
  lemma OpenAndClosed()
    ensures Minify([SLASH, STAR, STAR]) == Overrun && Minify([QUOTE, 97, BACKSLASH, QUOTE]) == Overrun
    ensures Minify([SLASH, STAR, SLASH]) == Done([])
  {
    var comment: bytes, text: bytes, closed: bytes := [SLASH, STAR, STAR], [QUOTE, 97, BACKSLASH, QUOTE], [SLASH, STAR, SLASH];
    OverrunsExactly(comment);
    OverrunsExactly(text);
    assert comment[1..][1..] == comment[2..] && ReadAll(BlockStar, comment[2..]) == BlockStar;
    assert text[1..][1..] == text[2..] && text[2..][1..] == text[3..] && ReadAll(LiteralEscape, text[3..]) == Literal;
    assert ReadAll(Literal, text[2..]) == Literal;
    assert closed[1..] == [STAR, SLASH] && BlockLength(closed[1..]) == 2 && BlockLength(closed) == 3;
    assert closed[3..] == [];
  }

  // ----- what is kept

  /** What the reader keeps of one byte: every byte of a literal, no byte of a comment, and elsewhere every byte but
      32, 9, 13 and 10. A slash waits for the next byte, which may make it the start of a comment. */
  function Kept(r: Reading, b: byte): bytes {
    match r
    case Plain => if b == 47 || b == 32 || b == 9 || b == 13 || b == 10 then [] else [b]
    case Slash =>
      if b == 47 || b == 42 then [] else if b == 32 || b == 9 || b == 13 || b == 10 then [47] else [47, b]
    case Line => []
    case Block => []
    case BlockStar => []
    case Literal => [b]
    case LiteralEscape => [b]
  }

  /** What the reader keeps of a text. */
  function KeptOf(r: Reading, s: bytes): bytes
    decreases |s|
  {
    if s == [] then (if r == Slash then [47] else []) else Kept(r, s[0]) + KeptOf(Read(r, s[0]), s[1..])
  }

  lemma {:induction false} KeptOfBlock(s: bytes)
    requires BlockLength(s) != -1
    ensures KeptOf(Block, s) == KeptOf(Plain, s[BlockLength(s)..])
  {
    if s[0] == STAR && At(s, 1) == SLASH {
      assert s[1..][1..] == s[2..];
      StarSlash(s[1..]);
    } else {
      KeptOfBlock(s[1..]);
      assert s[1..][BlockLength(s[1..])..] == s[1 + BlockLength(s[1..])..];
      BlockByte(s);
    }
  }

  lemma StarSlash(s: bytes)
    requires s != [] && s[0] == SLASH
    ensures KeptOf(BlockStar, s) == KeptOf(Plain, s[1..])
  {
  }

  /** A star that closes nothing is like any other byte of a comment. */
  lemma BlockByte(s: bytes)
    requires s != [] && !(s[0] == STAR && At(s, 1) == SLASH)
    ensures KeptOf(Block, s) == KeptOf(Block, s[1..])
  {
    if s[0] == STAR && s[1..] != [] {
      assert Read(BlockStar, s[1..][0]) == Read(Block, s[1..][0]);
    }
  }

  lemma {:induction false} KeptOfLiteral(s: bytes)
    requires LiteralLength(s) != -1
    ensures KeptOf(Literal, s) == s[..LiteralLength(s)] + KeptOf(Plain, s[LiteralLength(s)..])
    decreases |s|
  {
    hide KeptOf;
    if s[0] == QUOTE {
      LiteralClosed(s);
    } else {
      var step := if s[0] == BACKSLASH then 2 else 1;
      KeptOfLiteral(s[step..]);
      KeptOfStep(s, step);
      LiteralJoined(s, step, LiteralLength(s[step..]), KeptOf(Plain, s[LiteralLength(s)..]));
    }
  }

  lemma LiteralClosed(s: bytes)
    requires s != [] && s[0] == QUOTE
    ensures KeptOf(Literal, s) == s[..1] + KeptOf(Plain, s[1..])
  {
    assert s[..1] == [s[0]];
  }

  lemma LiteralJoined(s: bytes, step: nat, n: nat, kept: bytes)
    requires step + n <= |s|
    ensures s[step..][n..] == s[step + n..] && s[..step] + (s[step..][..n] + kept) == s[..step + n] + kept
  {
    assert s[..step + n] == s[..step] + s[step..][..n];
    Concat3(s[..step], s[step..][..n], kept);
  }

  lemma KeptOfStep(s: bytes, step: nat)
    requires s != [] && s[0] != QUOTE && step == (if s[0] == BACKSLASH then 2 else 1) && step <= |s|
    ensures KeptOf(Literal, s) == s[..step] + KeptOf(Literal, s[step..])
  {
    if step == 2 {
      assert s[1..][1..] == s[2..] && s[..2] == [s[0]] + [s[1]];
      Concat3([s[0]], [s[1]], KeptOf(Literal, s[2..]));
    } else {
      assert s[..1] == [s[0]];
    }
  }

  lemma {:induction false} KeptOfLine(s: bytes)
    ensures KeptOf(Line, s) == KeptOf(Plain, s[LineLength(s)..])
  {
    if s != [] && s[0] != LF {
      KeptOfLine(s[1..]);
      assert s[1..][LineLength(s[1..])..] == s[LineLength(s)..];
    }
  }

  /** One round of the main loop keeps what the reader keeps. */
  lemma KeptOfToken(s: bytes)
    requires s != [] && Token(s).1 != -1
    ensures KeptOf(Plain, s) == Token(s).0 + KeptOf(Plain, s[Token(s).1..])
  {
    hide BlockLength, LiteralLength, LineLength, KeptOf;
    if IsBlank(s[0]) {
      BlankDropped(s);
    } else if s[0] == SLASH && At(s, 1) == SLASH {
      LineDropped(s);
    } else if s[0] == SLASH && At(s, 1) == STAR {
      BlockDropped(s);
    } else if s[0] == QUOTE {
      LiteralKept(s);
    } else if s[0] == SLASH {
      LoneSlash(s);
    } else {
      OtherByte(s);
    }
  }

  lemma BlankDropped(s: bytes)
    requires s != [] && IsBlank(s[0])
    ensures KeptOf(Plain, s) == [] + KeptOf(Plain, s[1..])
  {
  }

  lemma OtherByte(s: bytes)
    requires s != [] && !IsBlank(s[0]) && s[0] != SLASH && s[0] != QUOTE
    ensures KeptOf(Plain, s) == s[..1] + KeptOf(Plain, s[1..])
  {
    assert s[..1] == [s[0]];
  }

  lemma LineDropped(s: bytes)
    requires s != [] && s[0] == SLASH && At(s, 1) == SLASH
    ensures KeptOf(Plain, s) == [] + KeptOf(Plain, s[LineLength(s)..])
  {
    hide LineLength;
    LineStart(s);
    KeptOfLine(s);
    assert KeptOf(Plain, s) == KeptOf(Line, s[1..][1..]) == KeptOf(Line, s);
  }

  lemma BlockDropped(s: bytes)
    requires s != [] && s[0] == SLASH && At(s, 1) == STAR && BlockLength(s) != -1
    ensures KeptOf(Plain, s) == [] + KeptOf(Plain, s[BlockLength(s)..])
  {
    hide BlockLength;
    var rest := s[1..];
    BlockStart(s);
    KeptOfBlock(rest);
    assert KeptOf(Plain, s) == KeptOf(BlockStar, rest[1..]) == KeptOf(Block, rest);
    assert rest[BlockLength(rest)..] == s[1 + BlockLength(rest)..];
  }

  lemma LiteralKept(s: bytes)
    requires s != [] && s[0] == QUOTE && LiteralLength(s[1..]) != -1
    ensures var n := LiteralLength(s[1..]); KeptOf(Plain, s) == s[..n + 1] + KeptOf(Plain, s[n + 1..])
  {
    hide LiteralLength;
    var n := LiteralLength(s[1..]);
    KeptOfLiteral(s[1..]);
    LiteralJoined(s, 1, n, KeptOf(Plain, s[n + 1..]));
    assert s[..1] == [s[0]];
  }

  /** A slash that starts no comment. */
  lemma LoneSlash(s: bytes)
    requires s != [] && s[0] == SLASH && At(s, 1) != SLASH && At(s, 1) != STAR
    ensures KeptOf(Plain, s) == s[..1] + KeptOf(Plain, s[1..])
  {
    assert s[..1] == [s[0]];
    var rest := s[1..];
    if rest != [] {
      assert Read(Slash, rest[0]) == Read(Plain, rest[0]) && Kept(Slash, rest[0]) == [47] + Kept(Plain, rest[0]);
      Concat3([47], Kept(Plain, rest[0]), KeptOf(Read(Plain, rest[0]), rest[1..]));
    }
  }

  /** Minifying keeps exactly what the reader keeps, for every text that it does not overrun. */
  lemma {:induction false} KeepsExactly(s: bytes)
    requires Minify(s).Done?
    ensures Minify(s).text == KeptOf(Plain, s)
    decreases |s|
  {
    hide Token, KeptOf;
    if s == [] {
      NothingKept();
    } else {
      KeptOfToken(s);
      KeepsExactly(s[Token(s).1..]);
    }
  }

  /** So minifying is reading byte by byte. */
  lemma MinifyIsReading(s: bytes)
    ensures Minify(s) == if IsOpen(ReadAll(Plain, s)) then Overrun else Done(KeptOf(Plain, s))
  {
    OverrunsExactly(s);
    if Minify(s).Done? { KeepsExactly(s); }
  }

  lemma NothingKept()
    ensures KeptOf(Plain, []) == []
  {
  }
}
