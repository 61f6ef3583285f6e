/** `print_value` and its helpers in the malloc-per-node mode: every buffer's size is computed beforehand. */
module JsonPieces {
  import opened Bytes
  import opened Buffers
  import opened JsonText
  import opened JsonItems
  import opened JsonTrees
  import opened JsonPrinters
  import opened JsonBuffered

  method Malloc(n: nat) returns (out: array<byte>)
    ensures fresh(out) && out.Length == n
  {
    out := new byte[n];
  }

  /** `cJSON_strdup` and the other fixed texts. */
  method StrDup(n: nat, text: bytes) returns (out: array<byte>)
    requires |text| < n
    ensures fresh(out) && Terminated(out, text)
  {
    out := Malloc(n);
    PutString(out, 0, text, []);
    assert [] + text == text;
  }

  method NumberPiece(item: Item, ghost d: real) returns (out: array<byte>)
    requires IsInt32(d) && item.valuedouble == d && item.valueint == Truncated(d)
    ensures fresh(out) && Terminated(out, NumberText(d))
  {
    NumberTextShort(d);
    if item.valuedouble == 0.0 {
      out := StrDup(2, [48]);
    } else {
      out := StrDup(21, IntText(item.valueint));
    }
  }

  method StringPiece(str: bytes) returns (out: array<byte>)
    requires NoNul(str)
    ensures fresh(out) && Terminated(out, StringText(str))
  {
    var flag := NeedsEscape(str);
    var len := |str|;
    if flag {
      len := MeasureEscaped(str);
    }
    out := Malloc(len + 3);
    FillString(out, 0, str, flag, []);
    assert [] + StringText(str) == StringText(str);
  }

  method EmptyObjectPiece(depth: nat, fmt: bool) returns (out: array<byte>)
    ensures fresh(out) && Terminated(out, Text(Obj([]), depth, fmt))
  {
    out := Malloc(if fmt then depth + 4 else 3);
    FillEmptyObject(out, 0, depth, fmt, []);
    assert [] + Text(Obj([]), depth, fmt) == Text(Obj([]), depth, fmt);
  }

  /** The malloc mode of `print_value`: a fresh C string. */
  method ValuePiece(item: Item, depth: nat, fmt: bool, ghost s: Shape, ghost t: Json) returns (out: array<byte>)
    requires Tree(item, s, t) && Printable(t)
    ensures fresh(out) && Terminated(out, Text(t, depth, fmt))
    decreases t, 2
  {
    hide Tree, Nodes;
    TreeShape(item, s, t);
    NodesExist(s);
    match item.kind
    case KNull => out := StrDup(5, NULL_TEXT);
    case KFalse => out := StrDup(6, FALSE_TEXT);
    case KTrue => out := StrDup(5, TRUE_TEXT);
    case KNumber => out := NumberPiece(item, t.value);
    case KString => out := StringPiece(item.valuestring.text);
    case KArray =>
      var numentries := CountChildren(item, s, t);
      if numentries == 0 {
        EmptyArrayText(depth, fmt);
        out := StrDup(3, [LBRACKET, RBRACKET]);
      } else {
        out := ArrayPiece(item, depth, fmt, s, t);
      }
    case KObject =>
      var numentries := CountChildren(item, s, t);
      if numentries == 0 {
        out := EmptyObjectPiece(depth, fmt);
      } else {
        out := ObjectPiece(item, depth, fmt, s, t);
      }
  }

  /** The strings in a table of pointers. */
  ghost predicate Table(entries: seq<array<byte>>, texts: seq<bytes>)
    reads entries
  {
    |entries| == |texts| && forall i :: 0 <= i < |entries| ==> Terminated(entries[i], texts[i]) && NoNul(texts[i])
  }

  /** `strcpy(ptr, entry); ptr += strlen(entry)` or its `memcpy` form. */
  method PutPiece(out: array<byte>, ptr: nat, entry: array<byte>, ghost pre: bytes, ghost text: bytes) returns (ptr': nat)
    requires ptr == |pre| && Wrote(out, pre) && out != entry && Terminated(entry, text) && NoNul(text)
    requires ptr + |text| <= out.Length
    modifies out
    ensures ptr' == |pre + text| && Wrote(out, pre + text)
  {
    var tmplen := StringLength(entry, 0, text);
    var copy := entry[..tmplen];
    assert copy == text;
    Put(out, ptr, copy, pre);
    ptr' := ptr + tmplen;
  }

  /** A value's text and its length. */
  method MeasuredPiece(item: Item, depth: nat, fmt: bool, ghost s: Shape, ghost t: Json) returns (out: array<byte>, n: nat)
    requires Tree(item, s, t) && Printable(t)
    ensures fresh(out) && Terminated(out, Text(t, depth, fmt)) && NoNul(Text(t, depth, fmt))
    ensures n == |Text(t, depth, fmt)|
    decreases t, 3
  {
    hide Text, Tree;
    out := ValuePiece(item, depth, fmt, s, t);
    TextNoNul(t, depth, fmt);
    n := StringLength(out, 0, Text(t, depth, fmt));
  }

  // ----- arrays

  ghost function ItemTexts(items: seq<Json>, n: nat, depth: nat, fmt: bool): (r: seq<bytes>)
    requires n <= |items|
    ensures |r| == n
  {
    seq(n, i requires 0 <= i < n => Text(items[i], depth, fmt))
  }

  /** Room for the texts of the items from the `n`th on: two or three bytes more than each. */
  ghost function ItemsRoom(items: seq<Json>, depth: nat, fmt: bool): nat {
    if items == [] then 0
    else |Text(items[0], depth, fmt)| + 2 + (if fmt then 1 else 0) + ItemsRoom(items[1..], depth, fmt)
  }

  lemma {:induction false} ItemsRoomSuffices(items: seq<Json>, depth: nat, fmt: bool)
    ensures |ItemsText(items, depth, fmt)| <= ItemsRoom(items, depth, fmt)
  {
    if items != [] { ItemsRoomSuffices(items[1..], depth, fmt); }
  }

  /** Prints every item on its own and adds up the length of the whole. */
  method ItemPieces(item: Item, depth: nat, fmt: bool, ghost s: Shape, ghost t: Json)
    returns (entries: seq<array<byte>>, len: nat)
    requires Tree(item, s, t) && t.Arr? && Printable(t)
    ensures Table(entries, ItemTexts(t.items, |t.items|, depth, fmt)) && fresh(entries)
    ensures len == 5 + ItemsRoom(t.items, depth, fmt)
    decreases t, 0
  {
    hide Text, Terminated, Table, ItemTexts, Printable, Tree, Nodes;
    ghost var items, i := t.items, 0;
    TreeShape(item, s, t);
    NodesExist(s);
    entries, len := [], 5;
    EmptyTable(items, depth, fmt);
    var child := item.child;
    while child != null
      invariant Tree(item, s, t) && i <= |items| && child == KidAt(s, i) && fresh(entries)
      invariant Table(entries, ItemTexts(items, i, depth, fmt))
      invariant len + ItemsRoom(items[i..], depth, fmt) == 5 + ItemsRoom(items, depth, fmt)
      decreases |items| - i
    {
      NodesExist(s);
      ChildTree(item, s, t, i);
      ItemIsPrintable(items, i);
      var ret, n := MeasuredPiece(child, depth, fmt, s.kids[i], items[i]);
      assert items[i..][1..] == items[i + 1..];
      TableGrows(entries, ret, items, i, depth, fmt);
      entries := entries + [ret];
      len := len + n + 2 + if fmt then 1 else 0;
      child, i := child.next, i + 1;
    }
  }

  lemma EmptyTable(items: seq<Json>, depth: nat, fmt: bool)
    ensures Table([], ItemTexts(items, 0, depth, fmt)) && items[0..] == items
  {
  }

  lemma ItemIsPrintable(items: seq<Json>, i: nat)
    requires i < |items| && Printable(Arr(items))
    ensures Printable(items[i])
  {
  }

  lemma TableGrows(entries: seq<array<byte>>, ret: array<byte>, items: seq<Json>, i: nat, depth: nat, fmt: bool)
    requires i < |items| && Table(entries, ItemTexts(items, i, depth, fmt))
    requires Terminated(ret, Text(items[i], depth, fmt)) && NoNul(Text(items[i], depth, fmt))
    ensures Table(entries + [ret], ItemTexts(items, i + 1, depth, fmt))
  {
    hide Text, Terminated;
  }

  method ArrayPiece(item: Item, depth: nat, fmt: bool, ghost s: Shape, ghost t: Json) returns (out: array<byte>)
    requires Tree(item, s, t) && Printable(t) && t.Arr? && t.items != []
    ensures fresh(out) && Terminated(out, Text(t, depth, fmt))
    decreases t, 1
  {
    hide Tree, Text;
    var entries, len := ItemPieces(item, depth + 1, fmt, s, t);
    out := Malloc(len);
    JoinItems(out, entries, t, depth, fmt);
  }

  method JoinItems(out: array<byte>, entries: seq<array<byte>>, ghost t: Json, ghost depth: nat, fmt: bool)
    requires t.Arr? && Table(entries, ItemTexts(t.items, |t.items|, depth + 1, fmt)) && out !in entries
    requires out.Length == 5 + ItemsRoom(t.items, depth + 1, fmt)
    modifies out
    ensures Terminated(out, Text(t, depth, fmt))
  {
    hide Text, ItemsText, NoNul;
    ghost var items := t.items;
    ArrayFits(t, depth, fmt);
    Put(out, 0, [LBRACKET], []);
    ghost var text: bytes := [] + [LBRACKET];
    var ptr, i := 1, 0;
    while i < |entries|
      invariant i <= |items| && ptr == |text| && Wrote(out, text)
      invariant text + (ItemsText(items[i..], depth + 1, fmt) + [RBRACKET]) == Text(t, depth, fmt)
      invariant Table(entries, ItemTexts(items, |items|, depth + 1, fmt))
    {
      ItemsStep(text, items, i, depth + 1, fmt, [RBRACKET]);
      ptr := JoinItem(out, ptr, entries[i], items[i], depth + 1, fmt, i != |entries| - 1, text);
      text := text + Text(items[i], depth + 1, fmt) + Separator(i + 1 < |items|, fmt);
      i := i + 1;
    }
    NoItems(items, depth, fmt);
    PutString(out, ptr, [RBRACKET], text);
  }

  lemma ArrayFits(t: Json, depth: nat, fmt: bool)
    requires t.Arr?
    ensures |Text(t, depth, fmt)| < 5 + ItemsRoom(t.items, depth + 1, fmt)
    ensures [] + [LBRACKET] + (ItemsText(t.items[0..], depth + 1, fmt) + [RBRACKET]) == Text(t, depth, fmt)
  {
    ItemsRoomSuffices(t.items, depth + 1, fmt);
    ArrayText(t, depth, fmt, []);
    assert [] + Text(t, depth, fmt) == Text(t, depth, fmt);
  }

  /** An item's text with its comma. */
  method JoinItem(out: array<byte>, ptr: nat, entry: array<byte>, ghost t: Json, ghost depth: nat, fmt: bool, more: bool,
      ghost pre: bytes)
    returns (ptr': nat)
    requires ptr == |pre| && Wrote(out, pre) && ptr + |Text(t, depth, fmt)| + |Separator(more, fmt)| < out.Length
    requires out != entry && Terminated(entry, Text(t, depth, fmt)) && NoNul(Text(t, depth, fmt))
    modifies out
    ensures ptr' == |pre + Text(t, depth, fmt) + Separator(more, fmt)|
    ensures Wrote(out, pre + Text(t, depth, fmt) + Separator(more, fmt))
  {
    hide Text, NoNul;
    ptr' := PutPiece(out, ptr, entry, pre, Text(t, depth, fmt));
    ghost var text := pre + Text(t, depth, fmt);
    if more {
      Put(out, ptr', Comma(fmt), text);
      ptr' := ptr' + |Comma(fmt)|;
      out[ptr'] := 0;
    } else {
      assert text + [] == text;
    }
  }

  // ----- objects

  ghost function NameTexts(ms: seq<Member>, n: nat): (r: seq<bytes>)
    requires n <= |ms|
    ensures |r| == n
  {
    seq(n, i requires 0 <= i < n => StringText(ms[i].name))
  }

  ghost function ValueTexts(ms: seq<Member>, n: nat, depth: nat, fmt: bool): (r: seq<bytes>)
    requires n <= |ms|
    ensures |r| == n
  {
    seq(n, i requires 0 <= i < n => Text(ms[i].value, depth, fmt))
  }

  ghost function MembersRoom(ms: seq<Member>, depth: nat, fmt: bool): nat {
    if ms == [] then 0
    else |Text(ms[0].value, depth, fmt)| + |StringText(ms[0].name)| + 2 + (if fmt then 2 + depth else 0)
         + MembersRoom(ms[1..], depth, fmt)
  }

  lemma {:induction false} MembersRoomSuffices(ms: seq<Member>, depth: nat, fmt: bool)
    ensures |MembersText(ms, depth, fmt)| <= MembersRoom(ms, depth, fmt)
  {
    if ms != [] { MembersRoomSuffices(ms[1..], depth, fmt); }
  }

  /** Prints every name and value on its own and adds up the length of the whole. */
  method MemberPieces(item: Item, depth: nat, fmt: bool, ghost s: Shape, ghost t: Json)
    returns (names: seq<array<byte>>, entries: seq<array<byte>>, len: nat)
    requires Tree(item, s, t) && t.Obj? && Printable(t)
    ensures Table(names, NameTexts(t.members, |t.members|))
    ensures Table(entries, ValueTexts(t.members, |t.members|, depth, fmt))
    ensures fresh(names) && fresh(entries)
    ensures len == 7 + (if fmt then depth else 0) + MembersRoom(t.members, depth, fmt)
    decreases t, 0
  {
    hide Text, StringText, Terminated, Table, NameTexts, ValueTexts, Tree, Nodes, Printable, NoNul;
    ghost var ms, i := t.members, 0;
    TreeShape(item, s, t);
    NodesExist(s);
    names, entries, len := [], [], 7 + if fmt then depth else 0;
    assert ms[0..] == ms;
    EmptyTables(ms, depth, fmt);
    var child := item.child;
    while child != null
      invariant Tree(item, s, t) && i <= |ms| && child == KidAt(s, i) && fresh(names) && fresh(entries)
      invariant Table(names, NameTexts(ms, i)) && Table(entries, ValueTexts(ms, i, depth, fmt))
      invariant len + MembersRoom(ms[i..], depth, fmt)
        == 7 + (if fmt then depth else 0) + MembersRoom(ms, depth, fmt)
      decreases |ms| - i
    {
      NodesExist(s);
      ChildTree(item, s, t, i);
      MemberIsPrintable(ms, i);
      assert ms[i..][1..] == ms[i + 1..];
      NodesExist(s.kids[i]);
      var str, k := MeasuredName(child.name.text);
      var ret, n := MeasuredPiece(child, depth, fmt, s.kids[i], ms[i].value);
      TablesGrow(names, entries, str, ret, ms, i, depth, fmt);
      names, entries := names + [str], entries + [ret];
      len := len + n + k + 2 + if fmt then 2 + depth else 0;
      child, i := child.next, i + 1;
    }
  }

  lemma MemberIsPrintable(ms: seq<Member>, i: nat)
    requires i < |ms| && Printable(Obj(ms))
    ensures NoNul(ms[i].name) && Printable(ms[i].value)
  {
  }

  lemma EmptyTables(ms: seq<Member>, depth: nat, fmt: bool)
    ensures Table([], NameTexts(ms, 0)) && Table([], ValueTexts(ms, 0, depth, fmt))
  {
  }

  lemma TablesGrow(names: seq<array<byte>>, entries: seq<array<byte>>, str: array<byte>, ret: array<byte>,
      ms: seq<Member>, i: nat, depth: nat, fmt: bool)
    requires i < |ms| && Table(names, NameTexts(ms, i)) && Table(entries, ValueTexts(ms, i, depth, fmt))
    requires Terminated(str, StringText(ms[i].name)) && NoNul(StringText(ms[i].name))
    requires Terminated(ret, Text(ms[i].value, depth, fmt)) && NoNul(Text(ms[i].value, depth, fmt))
    ensures Table(names + [str], NameTexts(ms, i + 1)) && Table(entries + [ret], ValueTexts(ms, i + 1, depth, fmt))
  {
    hide Text, StringText, Terminated;
  }

  method MeasuredName(name: bytes) returns (out: array<byte>, n: nat)
    requires NoNul(name)
    ensures fresh(out) && Terminated(out, StringText(name)) && NoNul(StringText(name)) && n == |StringText(name)|
  {
    out := StringPiece(name);
    EscapedNoNul(name);
    n := StringLength(out, 0, StringText(name));
  }

  method ObjectPiece(item: Item, depth: nat, fmt: bool, ghost s: Shape, ghost t: Json) returns (out: array<byte>)
    requires Tree(item, s, t) && Printable(t) && t.Obj? && t.members != []
    ensures fresh(out) && Terminated(out, Text(t, depth, fmt))
    decreases t, 1
  {
    hide Tree, Text;
    var names, entries, len := MemberPieces(item, depth + 1, fmt, s, t);
    out := Malloc(len);
    JoinMembers(out, names, entries, t, depth, fmt);
  }

  /** One line of the object: indentation, name, colon, value. */
  method JoinMember(out: array<byte>, ptr: nat, name: array<byte>, entry: array<byte>, depth: nat, fmt: bool,
      ghost m: Member, ghost pre: bytes)
    returns (ptr': nat)
    requires ptr == |pre| && Wrote(out, pre) && ptr + |MemberText(m, depth, fmt)| <= out.Length
    requires out != name && Terminated(name, StringText(m.name)) && NoNul(StringText(m.name))
    requires out != entry && Terminated(entry, Text(m.value, depth, fmt)) && NoNul(Text(m.value, depth, fmt))
    modifies out
    ensures ptr' == |pre + MemberText(m, depth, fmt)| && Wrote(out, pre + MemberText(m, depth, fmt))
  {
    hide Text, StringText;
    MemberIs(pre, m, depth, fmt);
    ptr' := ptr;
    ghost var text := pre + Indent(depth, fmt);
    if fmt {
      ptr' := PutTabs(out, ptr', depth, pre);
    } else {
      assert text == pre;
    }
    ptr' := PutPiece(out, ptr', name, text, StringText(m.name));
    text := text + StringText(m.name);
    Put(out, ptr', Gap(fmt), text);
    ptr' := PutPiece(out, ptr' + |Gap(fmt)|, entry, text + Gap(fmt), Text(m.value, depth, fmt));
  }

  method JoinMembers(out: array<byte>, names: seq<array<byte>>, entries: seq<array<byte>>, ghost t: Json, depth: nat,
      fmt: bool)
    requires t.Obj? && t.members != []
    requires Table(names, NameTexts(t.members, |t.members|)) && out !in names
    requires Table(entries, ValueTexts(t.members, |t.members|, depth + 1, fmt)) && out !in entries
    requires out.Length == 7 + (if fmt then depth + 1 else 0) + MembersRoom(t.members, depth + 1, fmt)
    modifies out
    ensures Terminated(out, Text(t, depth, fmt))
  {
    hide Text, MembersText, MemberText, StringText, MemberEnd, Closing, NoNul;
    ghost var ms := t.members;
    ObjectFits(t, depth, fmt);
    Put(out, 0, Opening(fmt), []);
    ghost var text: bytes := [] + Opening(fmt);
    var ptr, i := |Opening(fmt)|, 0;
    while i < |entries|
      invariant i <= |ms| && ptr == |text| && Wrote(out, text)
      invariant text + (MembersText(ms[i..], depth + 1, fmt) + Closing(depth, fmt)) == Text(t, depth, fmt)
      invariant Table(names, NameTexts(ms, |ms|)) && Table(entries, ValueTexts(ms, |ms|, depth + 1, fmt))
    {
      MembersStep(text, ms, i, depth + 1, fmt, Closing(depth, fmt));
      ptr := JoinMemberLine(out, ptr, names[i], entries[i], depth + 1, fmt, i != |entries| - 1, ms[i], text);
      text := text + MemberText(ms[i], depth + 1, fmt) + MemberEnd(i + 1 < |ms|, fmt);
      i := i + 1;
    }
    NoMembers(ms, depth, fmt);
    FillClosing(out, ptr, depth, fmt, text);
  }

  lemma ObjectFits(t: Json, depth: nat, fmt: bool)
    requires t.Obj? && t.members != []
    ensures |Text(t, depth, fmt)| < 7 + (if fmt then depth + 1 else 0) + MembersRoom(t.members, depth + 1, fmt)
    ensures [] + Opening(fmt) + (MembersText(t.members[0..], depth + 1, fmt) + Closing(depth, fmt)) == Text(t, depth, fmt)
  {
    MembersRoomSuffices(t.members, depth + 1, fmt);
    ObjectText(t, depth, fmt, []);
    assert [] + Text(t, depth, fmt) == Text(t, depth, fmt);
  }

  /** A line with its comma and line break. */
  method JoinMemberLine(out: array<byte>, ptr: nat, name: array<byte>, entry: array<byte>, depth: nat, fmt: bool,
      more: bool, ghost m: Member, ghost pre: bytes)
    returns (ptr': nat)
    requires ptr == |pre| && Wrote(out, pre) && ptr + |MemberText(m, depth, fmt)| + |MemberEnd(more, fmt)| < out.Length
    requires out != name && Terminated(name, StringText(m.name)) && NoNul(StringText(m.name))
    requires out != entry && Terminated(entry, Text(m.value, depth, fmt)) && NoNul(Text(m.value, depth, fmt))
    modifies out
    ensures ptr' == |pre + MemberText(m, depth, fmt) + MemberEnd(more, fmt)|
    ensures Wrote(out, pre + MemberText(m, depth, fmt) + MemberEnd(more, fmt))
  {
    hide MemberText;
    ptr' := JoinMember(out, ptr, name, entry, depth, fmt, m, pre);
    Put(out, ptr', MemberEnd(more, fmt), pre + MemberText(m, depth, fmt));
    ptr' := ptr' + |MemberEnd(more, fmt)|;
    out[ptr'] := 0;
  }

  method FillClosing(out: array<byte>, ptr: nat, depth: nat, fmt: bool, ghost pre: bytes)
    requires ptr == |pre| && Wrote(out, pre) && ptr + |Closing(depth, fmt)| < out.Length
    modifies out
    ensures Terminated(out, pre + Closing(depth, fmt))
  {
    if fmt {
      Concat3(pre, Tabs(depth), [RBRACE]);
      var ptr' := PutTabs(out, ptr, depth, pre);
      PutString(out, ptr', [RBRACE], pre + Tabs(depth));
    } else {
      PutString(out, ptr, [RBRACE], pre);
    }
  }

  /** `cJSON_Print` and `cJSON_PrintUnformatted` */
  method Print(item: Item, fmt: bool, ghost s: Shape, ghost t: Json) returns (out: array<byte>)
    requires Tree(item, s, t) && Printable(t)
    ensures fresh(out) && Terminated(out, Text(t, 0, fmt))
  {
    out := ValuePiece(item, 0, fmt, s, t);
  }
}
