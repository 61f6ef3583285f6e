/** `print_value` and its helpers in the shared-buffer mode. */
module JsonBuffered {
  import opened Bytes
  import opened Bits
  import opened Buffers
  import opened JsonText
  import opened JsonItems
  import opened JsonTrees
  import opened JsonPrinters

  /** Printing `text` behind `pre` asks `pow2gt` for sizes it is right for. */
  ghost predicate Fits(pre: bytes, text: bytes) { |pre| + |text| + 21 <= Pow2(30) }

  /** `ensure(p, len)` and the bytes written there. */
  method Append(p: PrintBuffer, needed: nat, text: bytes, ghost pre: bytes)
    requires p.Holds(pre) && |text| < needed && |pre| + needed <= Pow2(30)
    modifies p, p.buffer
    ensures p.offset == |pre| && p.Printed(pre, text) && (p.buffer == old(p.buffer) || fresh(p.buffer))
  {
    p.Ensure(needed, pre);
    PutString(p.buffer, p.offset, text, pre);
  }

  method PrintNumber(p: PrintBuffer, item: Item, ghost d: real, ghost pre: bytes)
    requires p.Holds(pre) && IsInt32(d) && |pre| + 21 <= Pow2(30)
    requires item.valuedouble == d && item.valueint == Truncated(d)
    modifies p, p.buffer
    ensures p.offset == |pre| && p.Printed(pre, NumberText(d)) && (p.buffer == old(p.buffer) || fresh(p.buffer))
  {
    NumberTextShort(d);
    if item.valuedouble == 0.0 {
      Append(p, 2, [48], pre);
    } else {
      Append(p, 21, IntText(item.valueint), pre);
    }
  }

  method PrintString(p: PrintBuffer, str: bytes, ghost pre: bytes)
    requires p.Holds(pre) && NoNul(str) && Fits(pre, StringText(str))
    modifies p, p.buffer
    ensures p.offset == |pre| && p.Printed(pre, StringText(str)) && (p.buffer == old(p.buffer) || fresh(p.buffer))
  {
    var flag := NeedsEscape(str);
    var len := |str|;
    if flag {
      len := MeasureEscaped(str);
    }
    p.Ensure(len + 3, pre);
    FillString(p.buffer, p.offset, str, flag, pre);
  }

  /** `print_value`; `out` is the offset that the returned pointer has in the buffer. */
  method PrintValue(p: PrintBuffer, item: Item, depth: nat, fmt: bool, ghost s: Shape, ghost t: Json, ghost pre: bytes)
    returns (out: nat)
    requires Tree(item, s, t)
    requires p.Holds(pre) && Printable(t) && Fits(pre, Text(t, depth, fmt))
    modifies p, p.buffer
    ensures p.Printed(pre, Text(t, depth, fmt)) && (p.buffer == old(p.buffer) || fresh(p.buffer))
    ensures out == if fmt && t.Obj? && t.members != [] then depth else |pre|
    decreases t, 1
  {
    hide Tree;
    TreeShape(item, s, t);
    out := p.offset;
    match item.kind
    case KNull => Append(p, 5, NULL_TEXT, pre);
    case KFalse => Append(p, 6, FALSE_TEXT, pre);
    case KTrue => Append(p, 5, TRUE_TEXT, pre);
    case KNumber => PrintNumber(p, item, t.value, pre);
    case KString => PrintString(p, item.valuestring.text, pre);
    case KArray => out := PrintArray(p, item, depth, fmt, s, t, pre);
    case KObject => out := PrintObject(p, item, depth, fmt, s, t, pre);
  }

  /** A nested value and the move of the offset behind it. */
  method PrintNested(p: PrintBuffer, item: Item, depth: nat, fmt: bool, ghost s: Shape, ghost t: Json, ghost pre: bytes)
    requires Tree(item, s, t)
    requires p.Holds(pre) && Printable(t) && Fits(pre, Text(t, depth, fmt))
    modifies p, p.buffer
    ensures p.Holds(pre + Text(t, depth, fmt)) && (p.buffer == old(p.buffer) || fresh(p.buffer))
    decreases t, 2
  {
    hide Tree;
    TextNoNul(t, depth, fmt);
    var _ := PrintValue(p, item, depth, fmt, s, t, pre);
    p.Update(pre, Text(t, depth, fmt));
  }

  /** Punctuation: `ensure(p, needed)`, the bytes with or without a terminator, `p->offset += |text|`. */
  method Punctuate(p: PrintBuffer, needed: nat, text: bytes, ghost pre: bytes)
    requires p.Holds(pre) && |text| <= needed && 1 <= needed && |pre| + needed <= Pow2(30)
    modifies p, p.buffer
    ensures p.Holds(pre + text) && (p.buffer == old(p.buffer) || fresh(p.buffer))
  {
    p.Ensure(needed, pre);
    Put(p.buffer, p.offset, text, pre);
    if |text| < needed {
      p.buffer[p.offset + |text|] := 0;
    }
    p.offset := p.offset + |text|;
  }

  function Separator(more: bool, fmt: bool): bytes {
    if more then Comma(fmt) else []
  }

  lemma ItemsStep(text: bytes, items: seq<Json>, k: nat, depth: nat, fmt: bool, post: bytes)
    requires k < |items|
    ensures text + (ItemsText(items[k..], depth, fmt) + post)
      == text + Text(items[k], depth, fmt) + Separator(k + 1 < |items|, fmt)
         + (ItemsText(items[k + 1..], depth, fmt) + post)
    ensures Printable(Arr(items)) ==> Printable(items[k])
  {
    assert items[k..][1..] == items[k + 1..];
    Concat5(text, Text(items[k], depth, fmt), Separator(k + 1 < |items|, fmt), ItemsText(items[k + 1..], depth, fmt), post);
  }

  /** The loop body of `print_array`. */
  method PrintItem(p: PrintBuffer, item: Item, depth: nat, fmt: bool, more: bool, ghost s: Shape, ghost t: Json,
      ghost pre: bytes)
    requires Tree(item, s, t)
    requires p.Holds(pre) && Printable(t) && Fits(pre, Text(t, depth, fmt) + Separator(more, fmt))
    modifies p, p.buffer
    ensures p.Holds(pre + Text(t, depth, fmt) + Separator(more, fmt)) && (p.buffer == old(p.buffer) || fresh(p.buffer))
    decreases t, 3
  {
    hide Text, Tree;
    PrintNested(p, item, depth, fmt, s, t, pre);
    ghost var text := pre + Text(t, depth, fmt);
    if more {
      Punctuate(p, (if fmt then 2 else 1) + 1, Comma(fmt), text);
    } else {
      assert text + [] == text;
    }
  }

  method PrintArray(p: PrintBuffer, item: Item, depth: nat, fmt: bool, ghost s: Shape, ghost t: Json, ghost pre: bytes)
    returns (out: nat)
    requires Tree(item, s, t) && t.Arr?
    requires p.Holds(pre) && Printable(t) && Fits(pre, Text(t, depth, fmt))
    modifies p, p.buffer
    ensures p.Printed(pre, Text(t, depth, fmt)) && (p.buffer == old(p.buffer) || fresh(p.buffer))
    ensures out == |pre|
    decreases t, 0
  {
    hide Text, ItemsText, Separator, ArrayEnd, Tree, Nodes, PrintBuffer.Holds, PrintBuffer.Printed;
    p.OffsetIs(pre);
    ghost var items := t.items;
    TreeShape(item, s, t);
    NodesExist(s);
    var numentries := CountChildren(item, s, t);
    out := p.offset;
    if numentries == 0 {
      EmptyArrayText(depth, fmt);
      Append(p, 3, [LBRACKET, RBRACKET], pre);
      return;
    }
    Punctuate(p, 1, [LBRACKET], pre);
    ghost var text := pre + [LBRACKET];
    ArrayText(t, depth, fmt, pre);
    var child := item.child;
    ghost var k := 0;
    while child != null
      invariant Tree(item, s, t) && k <= |items| && child == KidAt(s, k)
      invariant p.Holds(text) && (p.buffer == old(p.buffer) || fresh(p.buffer))
      invariant |pre| <= |text| && text + (ItemsText(items[k..], depth + 1, fmt) + ArrayEnd()) == pre + Text(t, depth, fmt)
      decreases |items| - k
    {
      NodesExist(s);
      ChildTree(item, s, t, k);
      ItemsStep(text, items, k, depth + 1, fmt, ArrayEnd());
      PrintItem(p, child, depth + 1, fmt, child.next != null, s.kids[k], items[k], text);
      text := text + Text(items[k], depth + 1, fmt) + Separator(k + 1 < |items|, fmt);
      child, k := child.next, k + 1;
    }
    NoItems(items, depth, fmt);
    CloseArray(p, text, pre, Text(t, depth, fmt));
  }

  function ArrayEnd(): bytes { [RBRACKET] }

  method CloseArray(p: PrintBuffer, ghost text: bytes, ghost pre: bytes, ghost value: bytes)
    requires p.Holds(text) && |pre| <= |text| && text + ArrayEnd() == pre + value && Fits(pre, value)
    modifies p, p.buffer
    ensures p.Printed(pre, value) && (p.buffer == old(p.buffer) || fresh(p.buffer))
  {
    assert |text + ArrayEnd()| == |pre + value|;
    Append(p, 2, [RBRACKET], text);
    p.Completes(text, ArrayEnd(), pre, value);
  }

  lemma EmptyArrayText(depth: nat, fmt: bool)
    ensures Text(Arr([]), depth, fmt) == [LBRACKET, RBRACKET]
  {
    assert [LBRACKET] + [] + [RBRACKET] == [LBRACKET, RBRACKET];
  }

  lemma ArrayText(t: Json, depth: nat, fmt: bool, pre: bytes)
    requires t.Arr?
    ensures pre + [LBRACKET] + (ItemsText(t.items[0..], depth + 1, fmt) + ArrayEnd()) == pre + Text(t, depth, fmt)
  {
    assert t.items[0..] == t.items;
    Concat5(pre, [LBRACKET], ItemsText(t.items, depth + 1, fmt), ArrayEnd(), []);
  }

  lemma NoItems(items: seq<Json>, depth: nat, fmt: bool)
    ensures ItemsText(items[|items|..], depth + 1, fmt) + ArrayEnd() == ArrayEnd()
  {
  }

  /** `{`, nothing inside, `}`. */
  method PrintEmptyObject(p: PrintBuffer, depth: nat, fmt: bool, ghost pre: bytes)
    requires p.Holds(pre) && Fits(pre, Text(Obj([]), depth, fmt))
    modifies p, p.buffer
    ensures p.offset == |pre| && p.Printed(pre, Text(Obj([]), depth, fmt))
    ensures p.buffer == old(p.buffer) || fresh(p.buffer)
  {
    p.Ensure(if fmt then depth + 4 else 3, pre);
    FillEmptyObject(p.buffer, p.offset, depth, fmt, pre);
  }

  function Indent(depth: nat, fmt: bool): bytes { if fmt then Tabs(depth) else [] }

  function Gap(fmt: bool): bytes { if fmt then [COLON, TAB] else [COLON] }

  /** Indentation, name and colon of a member. */
  method PrintName(p: PrintBuffer, name: bytes, depth: nat, fmt: bool, ghost pre: bytes)
    requires p.Holds(pre) && NoNul(name) && 0 < depth && Fits(pre, Indent(depth, fmt) + StringText(name) + Gap(fmt))
    modifies p, p.buffer
    ensures p.Holds(pre + Indent(depth, fmt) + StringText(name) + Gap(fmt))
    ensures p.buffer == old(p.buffer) || fresh(p.buffer)
  {
    EscapedNoNul(name);
    ghost var text := pre + Indent(depth, fmt);
    if fmt {
      p.Ensure(depth, pre);
      var _ := PutTabs(p.buffer, p.offset, depth, pre);
      p.offset := p.offset + depth;
    } else {
      assert text == pre;
    }
    PrintString(p, name, text);
    p.Update(text, StringText(name));
    Punctuate(p, if fmt then 2 else 1, Gap(fmt), text + StringText(name));
  }

  lemma MemberIs(pre: bytes, m: Member, depth: nat, fmt: bool)
    ensures pre + MemberText(m, depth, fmt)
      == pre + Indent(depth, fmt) + StringText(m.name) + Gap(fmt) + Text(m.value, depth, fmt)
  {
    Concat5(pre, Indent(depth, fmt), StringText(m.name), Gap(fmt), Text(m.value, depth, fmt));
  }

  /** The loop body of `print_object`, up to the value. */
  method PrintMember(p: PrintBuffer, item: Item, depth: nat, fmt: bool, ghost s: Shape, ghost m: Member, ghost pre: bytes)
    requires Tree(item, s, m.value) && item.name == Ptr(m.name)
    requires p.Holds(pre) && NoNul(m.name) && Printable(m.value) && 0 < depth && Fits(pre, MemberText(m, depth, fmt))
    modifies p, p.buffer
    ensures p.Holds(pre + MemberText(m, depth, fmt)) && (p.buffer == old(p.buffer) || fresh(p.buffer))
    decreases m, 0
  {
    hide Text, MemberText, StringText, Tree, Nodes;
    NodesExist(s);
    MemberIs(pre, m, depth, fmt);
    PrintName(p, item.name.text, depth, fmt, pre);
    PrintNested(p, item, depth, fmt, s, m.value, pre + Indent(depth, fmt) + StringText(m.name) + Gap(fmt));
  }

  function MemberEnd(more: bool, fmt: bool): bytes {
    (if more then [COMMA] else []) + (if fmt then [LF] else [])
  }

  lemma MembersStep(text: bytes, ms: seq<Member>, k: nat, depth: nat, fmt: bool, post: bytes)
    requires k < |ms|
    ensures text + (MembersText(ms[k..], depth, fmt) + post)
      == text + MemberText(ms[k], depth, fmt) + MemberEnd(k + 1 < |ms|, fmt)
         + (MembersText(ms[k + 1..], depth, fmt) + post)
    ensures Printable(Obj(ms)) ==> Printable(ms[k].value)
  {
    assert ms[k..][1..] == ms[k + 1..];
    var comma, lf := if k + 1 < |ms| then [COMMA] else [], if fmt then [LF] else [];
    Concat5(MemberText(ms[k], depth, fmt), comma, lf, MembersText(ms[k + 1..], depth, fmt), post);
    Concat5(text, MemberText(ms[k], depth, fmt), comma, lf, MembersText(ms[k + 1..], depth, fmt) + post);
    Concat3(text + MemberText(ms[k], depth, fmt), comma, lf);
  }

  function Opening(fmt: bool): bytes { if fmt then [LBRACE, LF] else [LBRACE] }

  function Closing(depth: nat, fmt: bool): bytes { if fmt then Tabs(depth) + [RBRACE] else [RBRACE] }

  lemma ObjectText(t: Json, depth: nat, fmt: bool, pre: bytes)
    requires t.Obj? && t.members != []
    ensures pre + Opening(fmt) + (MembersText(t.members[0..], depth + 1, fmt) + Closing(depth, fmt))
      == pre + Text(t, depth, fmt)
  {
    assert t.members[0..] == t.members;
    var lf, tabs := if fmt then [LF] else [], if fmt then Tabs(depth) else [];
    Concat5([LBRACE], lf, MembersText(t.members, depth + 1, fmt), tabs, [RBRACE]);
    assert [LBRACE] + lf == Opening(fmt);
    assert tabs + [RBRACE] == Closing(depth, fmt);
    Concat3([LBRACE], lf, MembersText(t.members, depth + 1, fmt) + Closing(depth, fmt));
    Concat3(pre, Opening(fmt), MembersText(t.members, depth + 1, fmt) + Closing(depth, fmt));
  }

  lemma NoMembers(ms: seq<Member>, depth: nat, fmt: bool)
    ensures MembersText(ms[|ms|..], depth + 1, fmt) + Closing(depth, fmt) == Closing(depth, fmt)
  {
  }

  /** The closing line; the indentation loop runs over the variable that held the start offset. */
  method CloseObject(p: PrintBuffer, depth: nat, fmt: bool, start: nat, ghost pre: bytes) returns (i: nat)
    requires p.Holds(pre) && Fits(pre, Closing(depth, fmt))
    modifies p, p.buffer
    ensures p.offset == |pre| && p.Printed(pre, Closing(depth, fmt)) && (p.buffer == old(p.buffer) || fresh(p.buffer))
    ensures i == if fmt then depth else start
  {
    i := start;
    p.Ensure(if fmt then depth + 2 else 2, pre);
    var ptr := p.offset;
    if fmt {
      ptr := PutTabs(p.buffer, ptr, depth, pre);
      i := depth;
      PutString(p.buffer, ptr, [RBRACE], pre + Tabs(depth));
      Concat3(pre, Tabs(depth), [RBRACE]);
    } else {
      PutString(p.buffer, ptr, [RBRACE], pre);
    }
  }

  /** The loop body of `print_object`. */
  method PrintMemberLine(p: PrintBuffer, item: Item, depth: nat, fmt: bool, more: bool, ghost s: Shape, ghost m: Member,
      ghost pre: bytes)
    requires Tree(item, s, m.value) && item.name == Ptr(m.name)
    requires p.Holds(pre) && NoNul(m.name) && Printable(m.value) && 0 < depth
    requires Fits(pre, MemberText(m, depth, fmt) + MemberEnd(more, fmt))
    modifies p, p.buffer
    ensures p.Holds(pre + MemberText(m, depth, fmt) + MemberEnd(more, fmt))
    ensures p.buffer == old(p.buffer) || fresh(p.buffer)
    decreases m, 1
  {
    hide MemberText, Tree;
    PrintMember(p, item, depth, fmt, s, m, pre);
    Punctuate(p, (if fmt then 1 else 0) + (if more then 1 else 0) + 1, MemberEnd(more, fmt),
      pre + MemberText(m, depth, fmt));
  }

  method PrintObject(p: PrintBuffer, item: Item, depth: nat, fmt: bool, ghost s: Shape, ghost t: Json, ghost pre: bytes)
    returns (out: nat)
    requires Tree(item, s, t) && t.Obj?
    requires p.Holds(pre) && Printable(t) && Fits(pre, Text(t, depth, fmt))
    modifies p, p.buffer
    ensures p.Printed(pre, Text(t, depth, fmt)) && (p.buffer == old(p.buffer) || fresh(p.buffer))
    ensures out == if fmt && t.members != [] then depth else |pre|
    decreases t, 0
  {
    hide Text, MembersText, MemberText, MemberEnd, Closing, Tree, Nodes, PrintBuffer.Holds, PrintBuffer.Printed;
    p.OffsetIs(pre);
    ghost var ms := t.members;
    TreeShape(item, s, t);
    NodesExist(s);
    var numentries := CountChildren(item, s, t);
    out := p.offset;
    if numentries == 0 {
      PrintEmptyObject(p, depth, fmt, pre);
      return;
    }
    ObjectText(t, depth, fmt, pre);
    Punctuate(p, (if fmt then 2 else 1) + 1, Opening(fmt), pre);
    ghost var text := pre + Opening(fmt);
    var child := item.child;
    ghost var k := 0;
    while child != null
      invariant Tree(item, s, t) && k <= |ms| && child == KidAt(s, k)
      invariant p.Holds(text) && (p.buffer == old(p.buffer) || fresh(p.buffer))
      invariant |pre| <= |text| && text + (MembersText(ms[k..], depth + 1, fmt) + Closing(depth, fmt)) == pre + Text(t, depth, fmt)
      decreases |ms| - k
    {
      NodesExist(s);
      ChildTree(item, s, t, k);
      MembersStep(text, ms, k, depth + 1, fmt, Closing(depth, fmt));
      PrintMemberLine(p, child, depth + 1, fmt, child.next != null, s.kids[k], ms[k], text);
      text := text + MemberText(ms[k], depth + 1, fmt) + MemberEnd(k + 1 < |ms|, fmt);
      child, k := child.next, k + 1;
    }
    NoMembers(ms, depth, fmt);
    out := CloseObject(p, depth, fmt, out, text);
    p.Completes(text, Closing(depth, fmt), pre, Text(t, depth, fmt));
  }

  /** `cJSON_PrintBuffered`: the whole text, terminated, at the start of the returned buffer. */
  method PrintBuffered(item: Item, prebuffer: nat, fmt: bool, ghost s: Shape, ghost t: Json) returns (out: array<byte>)
    requires Tree(item, s, t) && Printable(t) && |Text(t, 0, fmt)| + 21 <= Pow2(30)
    ensures fresh(out) && Terminated(out, Text(t, 0, fmt))
  {
    hide Tree;
    NodesExist(s);
    var p := new PrintBuffer(prebuffer);
    var start := PrintValue(p, item, 0, fmt, s, t, []);
    assert start == 0 && [] + Text(t, 0, fmt) == Text(t, 0, fmt);
    out := p.buffer;
  }
}
