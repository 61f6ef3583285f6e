/** What both printers share: the growing buffer, string escapes, and NUL-freedom of printed text. */
module JsonPrinters {
  import opened Bytes
  import opened Bits
  import opened Buffers
  import opened JsonText
  import opened JsonTrees

  /** `printbuffer` */
  class PrintBuffer {
    var buffer: array<byte>
    var length: int
    var offset: nat

    constructor (prebuffer: nat)
      ensures fresh(buffer) && length == buffer.Length == prebuffer && offset == 0
    {
      buffer, length, offset := new byte[prebuffer], prebuffer, 0;
    }

    /** Everything printed up to the offset. */
    ghost predicate Holds(pre: bytes)
      reads this, buffer
    {
      length == buffer.Length && offset == |pre| && Wrote(buffer, pre)
    }

    /** A value has just been printed; the offset has not been moved over all of it yet. */
    ghost predicate Printed(pre: bytes, text: bytes)
      reads this, buffer
    {
      length == buffer.Length && |pre| <= offset <= |pre + text| && Terminated(buffer, pre + text)
    }

    lemma OffsetIs(pre: bytes)
      requires Holds(pre)
      ensures offset == |pre|
    {
    }

    /** The last piece of a value completes it. */
    lemma Completes(text: bytes, last: bytes, pre: bytes, value: bytes)
      requires Printed(text, last) && |pre| <= |text| && text + last == pre + value
      ensures Printed(pre, value)
    {
    }

    /** `ensure`: grows to a power of two when the request does not fit. */
    method Ensure(needed: nat, ghost pre: bytes)
      requires Holds(pre) && 1 <= needed + offset <= Pow2(30)
      modifies this
      ensures Holds(pre) && offset + needed <= length
      ensures buffer == old(buffer) || fresh(buffer)
      ensures length != old(length) ==>
        (exists n: nat :: length == Pow2(n)) && forall m: nat :: Pow2(m) >= needed + offset ==> length <= Pow2(m)
    {
      if needed + offset > length {
        Grow(needed + offset, pre);
      }
    }

    method Grow(least: nat, ghost pre: bytes)
      requires Holds(pre) && length < least <= Pow2(30)
      modifies this
      ensures Holds(pre) && least <= length && fresh(buffer)
      ensures (exists n: nat :: length == Pow2(n)) && forall m: nat :: Pow2(m) >= least ==> length <= Pow2(m)
    {
      hide Pow2gt, Pow2;
      ghost var n := Pow2gtIsLeast(least);
      var newsize := Pow2gt(least);
      var newbuffer := new byte[newsize];
      forall i | 0 <= i < length {
        newbuffer[i] := buffer[i];
      }
      length, buffer := newsize, newbuffer;
    }

    /** `p->offset = update(p)`: behind the terminated text at the offset. */
    method Update(ghost pre: bytes, ghost text: bytes)
      requires Printed(pre, text) && NoNul(text)
      modifies this`offset
      ensures Holds(pre + text)
    {
      var n := StringLength(buffer, offset, pre + text);
      offset := offset + n;
    }
  }

  // ----- what both modes write

  predicate Flagged(b: byte) { 0 < b < 32 || b == QUOTE || b == BACKSLASH }

  /** The first loop of `print_string_ptr`: does anything need an escape? */
  method NeedsEscape(str: bytes) returns (flag: bool)
    requires NoNul(str)
    ensures !flag ==> Escaped(str) == str
  {
    flag := false;
    var ptr := 0;
    while ptr < |str|
      invariant 0 <= ptr <= |str|
      invariant !flag ==> forall i :: 0 <= i < ptr ==> !Flagged(str[i])
    {
      flag := flag || Flagged(str[ptr]);
      ptr := ptr + 1;
    }
    if !flag {
      EscapedIsSame(str);
    }
  }

  lemma {:induction false} EscapedIsSame(s: bytes)
    requires NoNul(s) && forall i :: 0 <= i < |s| ==> !Flagged(s[i])
    ensures Escaped(s) == s
  {
    if s != [] { EscapedIsSame(s[1..]); }
  }

  function EscapedPrefix(s: bytes, n: nat): bytes
    requires n <= |s|
  {
    if n == 0 then [] else EscapedPrefix(s, n - 1) + EscapedByte(s[n - 1])
  }

  lemma {:induction false} EscapedSplit(s: bytes, n: nat)
    requires n <= |s|
    ensures Escaped(s) == EscapedPrefix(s, n) + Escaped(s[n..])
    decreases n
  {
    if n == 0 {
      assert s[0..] == s;
    } else {
      EscapedSplit(s, n - 1);
      assert s[n - 1..][1..] == s[n..];
      Concat3(EscapedPrefix(s, n - 1), EscapedByte(s[n - 1]), Escaped(s[n..]));
    }
  }

  /** The second loop: the exact length of the escaped text. */
  method MeasureEscaped(str: bytes) returns (len: nat)
    requires NoNul(str)
    ensures len == |Escaped(str)|
  {
    len := 0;
    var ptr := 0;
    while ptr < |str|
      invariant 0 <= ptr <= |str| && len == |EscapedPrefix(str, ptr)|
    {
      var token := str[ptr];
      len := len + 1;
      if token in [QUOTE, BACKSLASH, 8, 12, LF, CR, TAB] {
        len := len + 1;
      } else if token < 32 {
        len := len + 5;
      }
      ptr := ptr + 1;
    }
    EscapedSplit(str, |str|);
  }

  /** One byte of the third loop. */
  method PutEscaped(out: array<byte>, ptr: nat, token: byte, ghost pre: bytes) returns (ptr': nat)
    requires ptr == |pre| && Wrote(out, pre) && ptr + |EscapedByte(token)| <= out.Length
    modifies out
    ensures ptr' == ptr + |EscapedByte(token)| && Wrote(out, pre + EscapedByte(token))
  {
    if token > 31 && token != QUOTE && token != BACKSLASH {
      out[ptr] := token;
      return ptr + 1;
    }
    out[ptr] := BACKSLASH;
    if token == BACKSLASH { out[ptr + 1] := BACKSLASH; }
    else if token == QUOTE { out[ptr + 1] := QUOTE; }
    else if token == 8 { out[ptr + 1] := 98; }
    else if token == 12 { out[ptr + 1] := 102; }
    else if token == LF { out[ptr + 1] := 110; }
    else if token == CR { out[ptr + 1] := 114; }
    else if token == TAB { out[ptr + 1] := 116; }
    else {
      Put(out, ptr + 1, [117, 48, 48, HexDigit(token / 16), HexDigit(token % 16)], pre + [BACKSLASH]);
      assert pre + EscapedByte(token) == pre + [BACKSLASH] + [117, 48, 48, HexDigit(token / 16), HexDigit(token % 16)];
      return ptr + 6;
    }
    ptr' := ptr + 2;
  }

  /** `print_string_ptr` once it has its memory. */
  method FillString(out: array<byte>, at: nat, str: bytes, flag: bool, ghost pre: bytes)
    requires at == |pre| && Wrote(out, pre) && at + |StringText(str)| < out.Length
    requires !flag ==> Escaped(str) == str
    modifies out
    ensures Terminated(out, pre + StringText(str))
  {
    Put(out, at, [QUOTE], pre);
    var ptr2 := at + 1;
    ghost var text := pre + [QUOTE];
    if !flag {
      PutString(out, ptr2, str, text);
      Concat3(pre + [QUOTE], str, [QUOTE]);
      ptr2 := ptr2 + |str|;
    } else {
      var ptr := 0;
      while ptr < |str|
        invariant 0 <= ptr <= |str| && ptr2 == |text + EscapedPrefix(str, ptr)|
        invariant Wrote(out, text + EscapedPrefix(str, ptr))
      {
        EscapedSplit(str, ptr + 1);
        Concat3(text, EscapedPrefix(str, ptr), EscapedByte(str[ptr]));
        ptr2 := PutEscaped(out, ptr2, str[ptr], text + EscapedPrefix(str, ptr));
        ptr := ptr + 1;
      }
      EscapedSplit(str, |str|);
    }
    PutString(out, ptr2, [QUOTE], text + Escaped(str));
    assert text + Escaped(str) + [QUOTE] == pre + StringText(str);
  }

  // ----- no printed text holds a NUL

  lemma {:induction false} DigitsShort(n: nat, k: nat)
    requires n < 10 * TenTo(k)
    ensures |Digits(n)| <= k + 1
    decreases k
  {
    if k > 0 && n >= 10 { DigitsShort(n / 10, k - 1); }
  }

  /** `sprintf("%d", n)` */
  function IntText(n: int): bytes { if n < 0 then [MINUS] + Digits(-n) else Digits(n) }

  lemma NumberTextShort(d: real)
    requires IsInt32(d)
    ensures |NumberText(d)| <= 11 && NoNul(NumberText(d))
    ensures d != 0.0 ==> NumberText(d) == IntText(Truncated(d))
  {
    assert TenTo(9) == 10 * TenTo(8) == 100 * TenTo(7) == 1000 * TenTo(6) && TenTo(6) == 10 * TenTo(5);
    DigitsShort(if d.Floor < 0 then -d.Floor else d.Floor, 9);
  }

  lemma {:induction false} EscapedNoNul(s: bytes)
    ensures NoNul(Escaped(s))
  {
    if s != [] { EscapedNoNul(s[1..]); }
  }

  lemma {:induction false} TextNoNul(t: Json, depth: nat, fmt: bool)
    requires Printable(t)
    ensures NoNul(Text(t, depth, fmt))
    decreases t
  {
    hide ItemsText, MembersText, Escaped, NumberText;
    match t
    case Number(d) => NumberTextShort(d);
    case Str(s) => EscapedNoNul(s);
    case Arr(items) => ItemsNoNul(items, depth + 1, fmt);
    case Obj(ms) => MembersNoNul(ms, depth + 1, fmt);
    case _ =>
  }

  lemma {:induction false} ItemsNoNul(items: seq<Json>, depth: nat, fmt: bool)
    requires forall i :: 0 <= i < |items| ==> Printable(items[i])
    ensures NoNul(ItemsText(items, depth, fmt))
    decreases items
  {
    if items != [] {
      TextNoNul(items[0], depth, fmt);
      ItemsNoNul(items[1..], depth, fmt);
    }
  }

  lemma {:induction false} MembersNoNul(ms: seq<Member>, depth: nat, fmt: bool)
    requires forall i :: 0 <= i < |ms| ==> Printable(ms[i].value)
    ensures NoNul(MembersText(ms, depth, fmt))
    decreases ms
  {
    if ms != [] {
      EscapedNoNul(ms[0].name);
      TextNoNul(ms[0].value, depth, fmt);
      MembersNoNul(ms[1..], depth, fmt);
    }
  }

  /** `{`, a line break and indentation when formatting, and `}`. */
  method FillEmptyObject(out: array<byte>, at: nat, depth: nat, fmt: bool, ghost pre: bytes)
    requires at == |pre| && Wrote(out, pre) && at + (if fmt then depth + 4 else 3) <= out.Length
    modifies out
    ensures Terminated(out, pre + Text(Obj([]), depth, fmt))
  {
    Put(out, at, [LBRACE], pre);
    var ptr := at + 1;
    ghost var text := pre + [LBRACE];
    if fmt {
      Put(out, ptr, [LF], text);
      ptr := PutTabs(out, ptr + 1, depth - 1, text + [LF]);
      text := text + [LF] + Tabs(depth - 1);
    }
    PutString(out, ptr, [RBRACE], text);
    assert text + [RBRACE] == pre + Text(Obj([]), depth, fmt);
  }
}
