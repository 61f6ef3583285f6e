/** The printed texts, spelled out in characters: keywords, escapes, and the layout of arrays and objects. */
module JsonLayout {
  import opened Bytes
  import opened JsonText

  lemma Keywords()
    ensures NULL_TEXT == Ascii("null") && TRUE_TEXT == Ascii("true") && FALSE_TEXT == Ascii("false")
  {
  }

  /** The escape of every byte. */
  lemma Escapes(b: byte)
    ensures b == 34 ==> EscapedByte(b) == Ascii("\\\"")
    ensures b == 92 ==> EscapedByte(b) == Ascii("\\\\")
    ensures b == 8 ==> EscapedByte(b) == Ascii("\\b")
    ensures b == 9 ==> EscapedByte(b) == Ascii("\\t")
    ensures b == 10 ==> EscapedByte(b) == Ascii("\\n")
    ensures b == 12 ==> EscapedByte(b) == Ascii("\\f")
    ensures b == 13 ==> EscapedByte(b) == Ascii("\\r")
    ensures b < 32 && !(8 <= b <= 10) && b != 12 && b != 13 ==>
      EscapedByte(b) == Ascii("\\u00") + [HexDigit(b / 16), HexDigit(b % 16)]
    ensures b >= 32 && b != 34 && b != 92 ==> EscapedByte(b) == [b]
  {
  }

  lemma HexDigits(n: nat)
    requires n < 16
    ensures HexDigit(n) == "0123456789abcdef"[n] as int
  {
  }

  /** A string is quoted and escaped byte by byte. */
  lemma StringIs(s: bytes, t: bytes)
    ensures StringText(s) == Ascii("\"") + Escaped(s) + Ascii("\"")
    ensures Escaped(s + t) == Escaped(s) + Escaped(t) && (|s| == 1 ==> Escaped(s) == EscapedByte(s[0]))
  {
    EscapedOfBoth(s, t);
    assert Ascii("\"") == [QUOTE];
    assert |s| == 1 ==> s[1..] == [] && EscapedByte(s[0]) + [] == EscapedByte(s[0]);
  }

  lemma {:induction false} EscapedOfBoth(s: bytes, t: bytes)
    ensures Escaped(s + t) == Escaped(s) + Escaped(t)
    decreases |s|
  {
    if s == [] {
      assert s + t == t;
    } else {
      assert (s + t)[1..] == s[1..] + t;
      EscapedOfBoth(s[1..], t);
      Concat3(EscapedByte(s[0]), Escaped(s[1..]), Escaped(t));
    }
  }

  lemma Numbers()
    ensures NumberText(0.0) == Ascii("0") && NumberText(-20.0) == Ascii("-20") && NumberText(1234.0) == Ascii("1234")
  {
  }

  lemma Marks()
    ensures Ascii("[") == [LBRACKET] && Ascii("]") == [RBRACKET] && Ascii("{") == [LBRACE] && Ascii("}") == [RBRACE]
    ensures Ascii(",") == [COMMA] && Ascii(", ") == [COMMA, SPACE] && Ascii(",\n") == [COMMA, LF] && Ascii("\n") == [LF]
    ensures Ascii("{\n") == [LBRACE, LF] && Ascii(":") == [COLON] && Ascii(":\t") == [COLON, TAB]
  {
  }

  /** Arrays stay on one line. */
  lemma ArrayText(a: Json, b: Json, depth: nat, fmt: bool)
    ensures Text(Arr([a, b]), depth, fmt) ==
      Ascii("[") + Text(a, depth + 1, fmt) + (if fmt then Ascii(", ") else Ascii(",")) + Text(b, depth + 1, fmt) + Ascii("]")
  {
    hide Ascii, ItemsText;
    Marks();
    TwoItems(a, b, depth + 1, fmt);
    var x, y, comma := Text(a, depth + 1, fmt), Text(b, depth + 1, fmt), Comma(fmt);
    assert [LBRACKET] + (x + comma + y) == [LBRACKET] + x + comma + y;
  }

  lemma TwoItems(a: Json, b: Json, depth: nat, fmt: bool)
    ensures ItemsText([a, b], depth, fmt) == Text(a, depth, fmt) + Comma(fmt) + Text(b, depth, fmt)
  {
    hide Text, Comma;
    var items := [a, b];
    assert items[1..] == [b] && [b][1..] == [];
    assert ItemsText([b], depth, fmt) == Text(b, depth, fmt);
  }

  lemma EmptyArray(depth: nat, fmt: bool)
    ensures Text(Arr([]), depth, fmt) == Ascii("[]")
  {
    hide Ascii;
    EmptyBrackets();
  }

  lemma EmptyBrackets()
    ensures Ascii("[]") == [LBRACKET, RBRACKET] && Ascii("{}") == [LBRACE, RBRACE]
  {
  }

  /** Formatted, every member has a line of its own, with one tab for each level; an empty object has a line break and
      one tab less. */
  lemma ObjectText(m: Member, n: Member, depth: nat)
    ensures Text(Obj([]), depth, true) == Ascii("{\n") + Repeat(9, if depth == 0 then 0 else depth - 1) + Ascii("}")
    ensures Text(Obj([m, n]), depth, true) ==
      Ascii("{\n") + MemberText(m, depth + 1, true) + Ascii(",\n") + MemberText(n, depth + 1, true) + Ascii("\n") +
      Repeat(9, depth) + Ascii("}")
  {
    hide Ascii, MemberText;
    Marks();
    TwoMembers(m, n, depth + 1, true);
    var members := MemberText(m, depth + 1, true) + Ascii(",\n") + MemberText(n, depth + 1, true) + Ascii("\n");
    assert MembersText([m, n], depth + 1, true) == members;
    assert [LBRACE] + [LF] + members == Ascii("{\n") + MemberText(m, depth + 1, true) + Ascii(",\n")
      + MemberText(n, depth + 1, true) + Ascii("\n");
  }

  lemma UnformattedObject(m: Member, n: Member, depth: nat)
    ensures Text(Obj([]), depth, false) == Ascii("{}")
    ensures Text(Obj([m, n]), depth, false) ==
      Ascii("{") + MemberText(m, depth + 1, false) + Ascii(",") + MemberText(n, depth + 1, false) + Ascii("}")
  {
    hide Ascii, MemberText;
    Marks();
    EmptyBrackets();
    TwoMembers(m, n, depth + 1, false);
  }

  lemma TwoMembers(m: Member, n: Member, depth: nat, fmt: bool)
    ensures MembersText([m, n], depth, fmt) ==
      if fmt then MemberText(m, depth, fmt) + [COMMA, LF] + MemberText(n, depth, fmt) + [LF]
      else MemberText(m, depth, fmt) + [COMMA] + MemberText(n, depth, fmt)
  {
    hide MemberText;
    var ms := [m, n];
    assert ms[1..] == [n] && [n][1..] == [];
    assert MembersText([n], depth, fmt) == MemberText(n, depth, fmt) + (if fmt then [LF] else []);
  }

  /** A member's name, colon and value. */
  lemma TextOfMember(m: Member, depth: nat)
    ensures MemberText(m, depth, true) == Repeat(9, depth) + StringText(m.name) + Ascii(":\t") + Text(m.value, depth, true)
    ensures MemberText(m, depth, false) == StringText(m.name) + Ascii(":") + Text(m.value, depth, false)
  {
    hide Ascii, StringText, Text;
    Marks();
    assert [] + StringText(m.name) == StringText(m.name);
  }
}
