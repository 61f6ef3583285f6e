/** JSON trees and the text that `cJSON_Print` and `cJSON_PrintUnformatted` define for them. */
module JsonText {
  import opened Bytes

  datatype Json =
    | Null
    | False
    | True
    | Number(value: real)
    | Str(text: bytes)
    | Arr(items: seq<Json>)
    | Obj(members: seq<Member>)

  datatype Member = Member(name: bytes, value: Json)

  const NULL_TEXT: bytes := [110, 117, 108, 108]
  const FALSE_TEXT: bytes := [102, 97, 108, 115, 101]
  const TRUE_TEXT: bytes := [116, 114, 117, 101]

  /** A number that `print_number` renders with "%d": a 32-bit integer. */
  predicate IsInt32(d: real) {
    d.Floor as real == d && -0x8000_0000 <= d.Floor <= 0x7FFF_FFFF
  }

  /** Trees whose numbers are 32-bit integers and whose strings are C strings. */
  predicate Printable(t: Json) {
    match t
    case Number(d) => IsInt32(d)
    case Str(s) => NoNul(s)
    case Arr(items) => forall i :: 0 <= i < |items| ==> Printable(items[i])
    case Obj(ms) => forall i :: 0 <= i < |ms| ==> NoNul(ms[i].name) && Printable(ms[i].value)
    case _ => true
  }

  // ----- numbers

  function Digits(n: nat): (r: bytes)
    ensures |r| >= 1
    ensures forall i :: 0 <= i < |r| ==> IsDigit(r[i])
    ensures n > 0 ==> r[0] != 48
  {
    if n < 10 then [48 + n] else Digits(n / 10) + [48 + n % 10]
  }

  function NumberText(d: real): (r: bytes)
    ensures |r| >= 1
  {
    if d == 0.0 then [48]
    else if d.Floor < 0 then [MINUS] + Digits(-d.Floor)
    else Digits(d.Floor)
  }

  // ----- strings

  function HexDigit(n: nat): byte
    requires n < 16
  {
    if n < 10 then 48 + n else 87 + n
  }

  /** The escape that `print_string_ptr` writes for one byte. */
  function EscapedByte(b: byte): (r: bytes)
    ensures 1 <= |r| <= 6
  {
    if b > 31 && b != QUOTE && b != BACKSLASH then [b]
    else if b == BACKSLASH then [BACKSLASH, BACKSLASH]
    else if b == QUOTE then [BACKSLASH, QUOTE]
    else if b == 8 then [BACKSLASH, 98]
    else if b == 12 then [BACKSLASH, 102]
    else if b == LF then [BACKSLASH, 110]
    else if b == CR then [BACKSLASH, 114]
    else if b == TAB then [BACKSLASH, 116]
    else [BACKSLASH, 117, 48, 48, HexDigit(b / 16), HexDigit(b % 16)]
  }

  function Escaped(s: bytes): bytes {
    if s == [] then [] else EscapedByte(s[0]) + Escaped(s[1..])
  }

  function StringText(s: bytes): bytes { [QUOTE] + Escaped(s) + [QUOTE] }

  // ----- whole trees

  function Tabs(n: int): bytes { Repeat(TAB, if n < 0 then 0 else n) }

  function Comma(fmt: bool): bytes { if fmt then [COMMA, SPACE] else [COMMA] }

  function Text(t: Json, depth: nat, fmt: bool): (r: bytes)
    decreases t
  {
    match t
    case Null => NULL_TEXT
    case False => FALSE_TEXT
    case True => TRUE_TEXT
    case Number(d) => NumberText(d)
    case Str(s) => StringText(s)
    case Arr(items) => [LBRACKET] + ItemsText(items, depth + 1, fmt) + [RBRACKET]
    case Obj(ms) =>
      if ms == [] then
        [LBRACE] + (if fmt then [LF] + Tabs(depth - 1) else []) + [RBRACE]
      else
        [LBRACE] + (if fmt then [LF] else []) + MembersText(ms, depth + 1, fmt)
        + (if fmt then Tabs(depth) else []) + [RBRACE]
  }

  function ItemsText(items: seq<Json>, depth: nat, fmt: bool): (r: bytes)
    decreases items
  {
    if items == [] then []
    else Text(items[0], depth, fmt)
         + (if |items| > 1 then Comma(fmt) else [])
         + ItemsText(items[1..], depth, fmt)
  }

  function MembersText(ms: seq<Member>, depth: nat, fmt: bool): (r: bytes)
    decreases ms
  {
    if ms == [] then []
    else MemberText(ms[0], depth, fmt)
         + (if |ms| > 1 then [COMMA] else [])
         + (if fmt then [LF] else [])
         + MembersText(ms[1..], depth, fmt)
  }

  function MemberText(m: Member, depth: nat, fmt: bool): (r: bytes)
    decreases m
  {
    (if fmt then Tabs(depth) else []) + StringText(m.name)
    + (if fmt then [COLON, TAB] else [COLON]) + Text(m.value, depth, fmt)
  }

  // ----- the same text in continuation style: what is printed, followed by `post`

  function Emit(t: Json, depth: nat, fmt: bool, post: bytes): (r: bytes)
    decreases t
  {
    match t
    case Arr(items) => [LBRACKET] + EmitItems(items, depth + 1, fmt, [RBRACKET] + post)
    case Obj(ms) =>
      if ms == [] then [LBRACE] + ((if fmt then [LF] + Tabs(depth - 1) else []) + ([RBRACE] + post))
      else
        [LBRACE] + ((if fmt then [LF] else [])
        + EmitMembers(ms, depth + 1, fmt, (if fmt then Tabs(depth) else []) + ([RBRACE] + post)))
    case _ => Text(t, depth, fmt) + post
  }

  function EmitItems(items: seq<Json>, depth: nat, fmt: bool, post: bytes): (r: bytes)
    decreases items
  {
    if items == [] then post
    else if |items| == 1 then Emit(items[0], depth, fmt, post)
    else Emit(items[0], depth, fmt, [COMMA] + ((if fmt then [SPACE] else []) + EmitItems(items[1..], depth, fmt, post)))
  }

  function EmitMembers(ms: seq<Member>, depth: nat, fmt: bool, post: bytes): (r: bytes)
    decreases ms
  {
    if ms == [] then post
    else
      EmitMember(ms[0], depth, fmt,
        (if |ms| > 1 then [COMMA] else [])
        + ((if fmt then [LF] else []) + EmitMembers(ms[1..], depth, fmt, post)))
  }

  function EmitMember(m: Member, depth: nat, fmt: bool, post: bytes): (r: bytes)
    decreases m
  {
    (if fmt then Tabs(depth) else [])
    + ([QUOTE] + (Escaped(m.name) + ([QUOTE] + ([COLON]
    + ((if fmt then [TAB] else []) + Emit(m.value, depth, fmt, post))))))
  }

  lemma {:induction false} EmitIsText(t: Json, depth: nat, fmt: bool, post: bytes)
    ensures Emit(t, depth, fmt, post) == Text(t, depth, fmt) + post
    decreases t
  {
    match t
    case Arr(items) =>
      EmitItemsIsText(items, depth + 1, fmt, [RBRACKET] + post);
    case Obj(ms) =>
      var indent := if fmt then Tabs(depth) else [];
      var open := if fmt then [LF] else [];
      var members := MembersText(ms, depth + 1, fmt);
      EmitMembersIsText(ms, depth + 1, fmt, indent + ([RBRACE] + post));
      if ms != [] {
        Concat5([LBRACE], open, members, indent, [RBRACE] + post);
      }
    case _ =>
  }

  lemma {:induction false} EmitItemsIsText(items: seq<Json>, depth: nat, fmt: bool, post: bytes)
    ensures EmitItems(items, depth, fmt, post) == ItemsText(items, depth, fmt) + post
    decreases items
  {
    if items == [] {
    } else if |items| == 1 {
      EmitIsText(items[0], depth, fmt, post);
      assert ItemsText(items[1..], depth, fmt) == [];
    } else {
      var tail := [COMMA] + ((if fmt then [SPACE] else []) + EmitItems(items[1..], depth, fmt, post));
      EmitIsText(items[0], depth, fmt, tail);
      EmitItemsIsText(items[1..], depth, fmt, post);
    }
  }

  lemma {:induction false} EmitMembersIsText(ms: seq<Member>, depth: nat, fmt: bool, post: bytes)
    ensures EmitMembers(ms, depth, fmt, post) == MembersText(ms, depth, fmt) + post
    decreases ms
  {
    if ms != [] {
      var tail := (if |ms| > 1 then [COMMA] else [])
                  + ((if fmt then [LF] else []) + EmitMembers(ms[1..], depth, fmt, post));
      EmitMemberIsText(ms[0], depth, fmt, tail);
      EmitMembersIsText(ms[1..], depth, fmt, post);
      var first, comma, end := MemberText(ms[0], depth, fmt), if |ms| > 1 then [COMMA] else [], if fmt then [LF] else [];
      var more := MembersText(ms[1..], depth, fmt);
      Concat5(first, comma, end, more, post);
    }
  }

  lemma {:induction false} EmitMemberIsText(m: Member, depth: nat, fmt: bool, post: bytes)
    ensures EmitMember(m, depth, fmt, post) == MemberText(m, depth, fmt) + post
    decreases m
  {
    EmitIsText(m.value, depth, fmt, post);
  }
}
