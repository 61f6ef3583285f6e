/** The parser as cJSON runs it: pointers into the text, loops, and a sized output buffer. */
module JsonParser {
  import opened Bytes
  import opened Bits
  import opened Buffers
  import opened JsonText
  import opened JsonGrammar

  /** What a parsing function returns: a value and the new position, NULL, or undefined behaviour. */
  datatype Scan<+T> = Read(value: T, next: nat) | Bad | Wild

  /** The scan of `s` says what the grammar says about the text from its starting position on. */
  ghost predicate Agrees<T>(s: bytes, r: Scan<T>, g: Parsed<T>) {
    match g
    case Ok(v, rest) => r.Read? && r.value == v && r.next <= |s| && s[r.next..] == rest
    case Failed => r.Bad?
    case Undefined => r.Wild?
  }

  lemma Tail(s: bytes, i: nat, k: nat)
    requires i + k <= |s|
    ensures s[i..][k..] == s[i + k..]
  {
  }

  lemma AtTail(s: bytes, i: nat, k: nat)
    requires i <= |s|
    ensures At(s[i..], k) == At(s, i + k)
  {
  }

  method SkipBlanks(s: bytes, pos: nat) returns (i: nat)
    requires pos <= |s|
    ensures pos <= i <= |s| && s[i..] == Skip(s[pos..])
  {
    i := pos;
    while i < |s| && s[i] <= SPACE
      invariant pos <= i <= |s| && Skip(s[i..]) == Skip(s[pos..])
    {
      Tail(s, i, 1);
      i := i + 1;
    }
  }

  // ----- numbers

  method ReadDigits(s: bytes, pos: nat, start: nat) returns (n: nat, i: nat)
    requires pos <= |s|
    ensures pos <= i <= |s| && DigitRun(s[pos..], start) == (n, s[i..])
  {
    n, i := start, pos;
    while IsDigit(At(s, i))
      invariant pos <= i <= |s| && DigitRun(s[i..], n) == DigitRun(s[pos..], start)
      decreases |s| - i
    {
      Tail(s, i, 1);
      n, i := 10 * n + (s[i] - 48), i + 1;
    }
  }

  method ReadExponent(s: bytes, pos: nat) returns (e: int, i: nat)
    requires pos <= |s|
    ensures pos <= i <= |s|
    ensures HasExponent(s[pos..]) ==> ExponentPart(s[pos..]) == (e, s[i..])
    ensures !HasExponent(s[pos..]) ==> e == 0 && i == pos
  {
    e, i := 0, pos;
    if At(s, i) == 101 || At(s, i) == 69 {
      Tail(s, i, 1);
      i := i + 1;
      var negative := false;
      if At(s, i) == 43 {
        Tail(s, i, 1);
        i := i + 1;
      } else if At(s, i) == MINUS {
        Tail(s, i, 1);
        negative, i := true, i + 1;
      }
      var n;
      n, i := ReadDigits(s, i, 0);
      e := if negative then -(n as int) else n;
    }
  }

  method ReadInteger(s: bytes, pos: nat) returns (n: nat, i: nat)
    requires pos <= |s|
    ensures pos <= i <= |s| && IntegerPart(s[pos..]) == (n, s[i..])
  {
    n, i := 0, pos;
    if At(s, i) == 48 {
      Tail(s, i, 1);
      i := i + 1;
    }
    if 49 <= At(s, i) <= 57 {
      n, i := ReadDigits(s, i, 0);
    }
  }

  method ReadFraction(s: bytes, pos: nat, start: nat) returns (n: nat, i: nat)
    requires pos <= |s|
    ensures pos <= i <= |s|
    ensures if HasFraction(s[pos..]) then DigitRun(s[pos..][1..], start) == (n, s[i..]) else n == start && i == pos
  {
    n, i := start, pos;
    AtTail(s, pos, 0);
    AtTail(s, pos, 1);
    if At(s, i) == DOT && IsDigit(At(s, i + 1)) {
      Tail(s, pos, 1);
      n, i := ReadDigits(s, i + 1, n);
    }
  }

  lemma NumberFromParts(s: bytes, n: nat, t: bytes, m: nat, u: bytes, e: int, rest: bytes)
    requires At(s, 0) == MINUS || IsDigit(At(s, 0))
    requires IntegerPart(AfterMinus(s)) == (n, t)
    requires if HasFraction(t) then DigitRun(t[1..], n) == (m, u) else m == n && u == t
    requires if HasExponent(u) then ExponentPart(u) == (e, rest) else e == 0 && rest == u
    ensures ParseNumber(s) ==
      (NumberValue(At(s, 0) == MINUS, m, (if HasFraction(t) then |u| + 1 - |t| else 0) + e), rest)
  {
  }

  method ReadNumber(s: bytes, pos: nat) returns (d: real, i: nat)
    requires pos < |s| && (s[pos] == MINUS || IsDigit(s[pos]))
    ensures pos < i <= |s| && ParseNumber(s[pos..]) == (d, s[i..])
  {
    hide IntegerPart, DigitRun, ExponentPart, NumberValue, ParseNumber;
    var negative := false;
    i := pos;
    if s[i] == MINUS {
      Tail(s, i, 1);
      negative, i := true, i + 1;
    }
    var n, j := ReadInteger(s, i);
    var m, k := ReadFraction(s, j, n);
    var scale: int := 0;
    if k > j { scale := j as int + 1 - k; }
    var e;
    e, i := ReadExponent(s, k);
    d := NumberValue(negative, m, scale + e);
    NumberFromParts(s[pos..], n, s[j..], m, s[k..], e, s[i..]);
  }

  // ----- strings

  const FIRST_BYTE_MARK: seq<byte> := [0x00, 0x00, 0xC0, 0xE0, 0xF0, 0xF8, 0xFC]

  lemma ShiftBySix(uc: nat)
    ensures Shr(uc, 6) == uc / 64
  {
    var a := uc / 2 / 2 / 2;
    assert Shr(uc, 6) == Shr(a, 3) == a / 2 / 2 / 2;
    assert a == uc / 8;
  }

  lemma MarkedByte(uc: nat, len: nat)
    requires 1 <= len <= 4 && uc < [0x80, 0x20, 0x10, 0x08][len - 1]
    ensures BitOr(uc, FIRST_BYTE_MARK[len]) == uc + FIRST_BYTE_MARK[len]
  {
    assert Pow2(6) == 64 && Pow2(5) == 32 && Pow2(4) == 16;
    if len == 2 { OrOfDisjoint(uc, 3, 6); }
    if len == 3 { OrOfDisjoint(uc, 7, 5); }
    if len == 4 { OrOfDisjoint(uc, 15, 4); }
    if len == 1 { OrWithZeroRight(uc); }
  }

  lemma {:induction false} OrWithZeroRight(a: nat)
    ensures BitOr(a, 0) == a
  {
    if a > 0 { OrWithZeroRight(a / 2); }
  }

  function Utf8Length(uc: nat): nat {
    if uc < 0x80 then 1 else if uc < 0x800 then 2 else if uc < 0x1_0000 then 3 else 4
  }

  /** `*--ptr2 = ((uc | 0x80) & 0xBF); uc >>= 6` */
  method PutContinuation(out: array<byte>, ptr: nat, uc: nat) returns (uc': nat)
    requires ptr < out.Length
    modifies out
    ensures out[ptr] == 0x80 + uc % 64 && uc' == uc / 64
    ensures forall i :: 0 <= i < out.Length && i != ptr ==> out[i] == old(out[i])
  {
    ContinuationByte(uc);
    ShiftBySix(uc);
    out[ptr] := BitAnd(BitOr(uc, 0x80), 0xBF);
    uc' := Shr(uc, 6);
  }

  lemma Quotients(cp: nat)
    ensures cp / 64 / 64 == cp / 0x1000 && cp / 64 / 64 / 64 == cp / 0x4_0000
  {
  }

  /** Writes the UTF-8 form of `cp` from its last byte to its first. */
  method PutUtf8(out: array<byte>, k: nat, cp: nat, ghost text: bytes)
    requires cp < 0x11_0000 && |text| == k && Wrote(out, text) && k + Utf8Length(cp) <= out.Length
    modifies out
    ensures |Utf8(cp)| == Utf8Length(cp) && Wrote(out, text + Utf8(cp))
  {
    hide BitOr;
    var len, uc := Utf8Length(cp), cp;
    Quotients(cp);
    if len == 4 { uc := PutContinuation(out, k + 3, uc); }
    if len >= 3 { uc := PutContinuation(out, k + 2, uc); }
    if len >= 2 { uc := PutContinuation(out, k + 1, uc); }
    MarkedByte(uc, len);
    out[k] := BitOr(uc, FIRST_BYTE_MARK[len]);
  }

  /** `parse_hex4`, digit by digit. */
  method ReadHex4(s: bytes, pos: nat) returns (h: nat)
    requires pos <= |s|
    ensures h == Hex4(s[pos..])
  {
    AtTail(s, pos, 0); AtTail(s, pos, 1); AtTail(s, pos, 2); AtTail(s, pos, 3);
    if HexValue(At(s, pos)) < 0 { return 0; }
    h := HexValue(At(s, pos)) * 16;
    if HexValue(At(s, pos + 1)) < 0 { return 0; }
    h := (h + HexValue(At(s, pos + 1))) * 16;
    if HexValue(At(s, pos + 2)) < 0 { return 0; }
    h := (h + HexValue(At(s, pos + 2))) * 16;
    if HexValue(At(s, pos + 3)) < 0 { return 0; }
    h := h + HexValue(At(s, pos + 3));
  }

  /** The first pass over a string's body; -1 when it passes the terminator. */
  method MeasureString(s: bytes, pos: nat) returns (len: int)
    requires pos <= |s|
    ensures len == FirstPass(s[pos..])
  {
    len := 0;
    var ptr := pos;
    while ptr < |s| && s[ptr] != QUOTE
      invariant pos <= ptr <= |s| && len >= 0
      invariant FirstPass(s[pos..]) == if FirstPass(s[ptr..]) == -1 then -1 else len + FirstPass(s[ptr..])
      decreases |s| - ptr
    {
      len := len + 1;
      Tail(s, ptr, 1);
      if s[ptr] == BACKSLASH {
        if ptr + 1 == |s| {
          return -1;
        }
        Tail(s, ptr, 2);
        ptr := ptr + 2;
      } else {
        ptr := ptr + 1;
      }
    }
  }

  lemma OneByteUtf8(uc: nat)
    requires uc < 0x11_0000
    ensures |Utf8(uc)| == Utf8Length(uc)
  {
  }

  /** One escape: writes what it stands for; `ok` is false when that would pass the buffer's end. */
  method DecodeEscape(s: bytes, pos: nat, out: array<byte>, k: nat, len: nat, ghost text: bytes)
    returns (ok: bool, k': nat, n: nat)
    requires pos + 1 < |s| && s[pos] == BACKSLASH
    requires k == |text| <= len < out.Length && Wrote(out, text)
    modifies out
    ensures ok <==> k + |Escape(s[pos..]).0| <= len
    ensures ok ==> n == Escape(s[pos..]).1 && k' == k + |Escape(s[pos..]).0| && Wrote(out, text + Escape(s[pos..]).0)
  {
    var c := s[pos + 1];
    ok, k', n := true, k, 2;
    Tail(s, pos, 2);
    if c == 117 {
      n := 6;
      var uc := ReadHex4(s, pos + 2);
      if IsLowSurrogate(uc) || uc == 0 {
        assert text + [] == text;
        return;
      }
      if IsHighSurrogate(uc) {
        AtTail(s, pos, 6); AtTail(s, pos, 7);
        if At(s, pos + 6) != BACKSLASH || At(s, pos + 7) != 117 {
          assert text + [] == text;
          return;
        }
        Tail(s, pos, 8);
        var uc2 := ReadHex4(s, pos + 8);
        n := 12;
        if !IsLowSurrogate(uc2) {
          assert text + [] == text;
          return;
        }
        uc := Combine(uc, uc2);
      }
      OneByteUtf8(uc);
      k' := k + Utf8Length(uc);
      ok := k' <= len;
      if ok { PutUtf8(out, k, uc, text); }
    } else {
      var b := if c == 98 then 8 else if c == 102 then 12 else if c == 110 then 10
               else if c == 114 then 13 else if c == 116 then 9 else c;
      k' := k + 1;
      ok := k' <= len;
      if ok { out[k] := b; }
    }
  }

  /** One round of the second pass; `ok` is false when it would pass the terminator or the buffer's end. */
  method DecodeUnit(s: bytes, pos: nat, out: array<byte>, k: nat, len: nat, ghost text: bytes)
    returns (ok: bool, k': nat, n: nat)
    requires pos < |s| && k == |text| <= len < out.Length && Wrote(out, text)
    modifies out
    ensures var (w, m) := Unit(s[pos..]);
            if pos + m <= |s| && k + |w| <= len then ok && n == m && k' == k + |w| && Wrote(out, text + w) else !ok
  {
    if s[pos] != BACKSLASH {
      ok, k', n := k < len, k + 1, 1;
      if ok { out[k] := s[pos]; }
    } else if pos + 1 == |s| {
      ok, k', n := false, k, 2;
    } else {
      ok, k', n := DecodeEscape(s, pos, out, k, len, text);
      ok := ok && pos + n <= |s|;
    }
  }

  /** The same round, seen from the pass as a whole. */
  method DecodeRound(s: bytes, pos: nat, out: array<byte>, k: nat, len: nat, ghost text: bytes, ghost goal: Parsed<bytes>)
    returns (ok: bool, k': nat, n: nat, ghost text': bytes)
    requires pos < |s| && s[pos] != QUOTE && k == |text| <= len < out.Length && Wrote(out, text)
    requires SecondPass(s[pos..], text) == goal
    modifies out
    ensures ok ==> n > 0 && pos + n <= |s| && k' == |text'| <= len && Wrote(out, text')
    ensures ok ==> SecondPass(s[pos + n..], text') == goal
    ensures !ok ==> goal.Undefined? || |goal.value| > len
  {
    hide SecondPass, Unit;
    UnitStep(s, pos, text);
    ok, k', n := DecodeUnit(s, pos, out, k, len, text);
    text' := text + Unit(s[pos..]).0;
  }

  /** The second pass, into a buffer of `len` bytes and a terminator. */
  method DecodeString(s: bytes, pos: nat, out: array<byte>, len: nat, ghost goal: Parsed<bytes>)
    returns (ok: bool, k: nat, ptr: nat)
    requires pos <= |s| && out.Length == len + 1 && goal == SecondPass(s[pos..], [])
    modifies out
    ensures goal.Ok? && |goal.value| <= len ==>
      ok && k == |goal.value| && Wrote(out, goal.value) && out[k] == 0 && pos <= ptr <= |s| && s[ptr..] == goal.rest
    ensures goal.Undefined? || |goal.value| > len ==> !ok
  {
    hide SecondPass;
    ok, k, ptr := true, 0, pos;
    ghost var text: bytes := [];
    while ptr < |s| && s[ptr] != QUOTE
      invariant ok && pos <= ptr <= |s| && k == |text| <= len && Wrote(out, text)
      invariant SecondPass(s[ptr..], text) == goal
      decreases |s| - ptr
    {
      var n;
      ok, k, n, text := DecodeRound(s, ptr, out, k, len, text, goal);
      if !ok {
        return;
      }
      ptr := ptr + n;
    }
    EndStep(s, ptr, text);
    out[k] := 0;
    if ptr < |s| {
      ptr := ptr + 1;
    }
  }

  lemma UnitStep(s: bytes, ptr: nat, text: bytes)
    requires ptr < |s| && s[ptr] != QUOTE
    ensures var (w, n) := Unit(s[ptr..]);
            if ptr + n > |s| then SecondPass(s[ptr..], text) == Undefined
            else SecondPass(s[ptr..], text) == SecondPass(s[ptr + n..], text + w)
    ensures var r := SecondPass(s[ptr..], text); r.Ok? ==> |r.value| >= |text| + |Unit(s[ptr..]).0|
  {
    var n := Unit(s[ptr..]).1;
    if ptr + n <= |s| { Tail(s, ptr, n); }
  }

  lemma EndStep(s: bytes, ptr: nat, text: bytes)
    requires ptr <= |s| && (ptr < |s| ==> s[ptr] == QUOTE)
    ensures SecondPass(s[ptr..], text) == Ok(text, s[if ptr < |s| then ptr + 1 else ptr..])
  {
    if ptr < |s| { Tail(s, ptr, 1); }
  }

  /** `parse_string`: measure, allocate, decode. */
  method ReadString(s: bytes, pos: nat) returns (r: Scan<bytes>)
    requires pos <= |s|
    ensures Agrees(s, r, ParseString(s[pos..]))
  {
    if At(s, pos) != QUOTE {
      return Bad;
    }
    Tail(s, pos, 1);
    var len := MeasureString(s, pos + 1);
    if len == -1 {
      return Wild;
    }
    var out := new byte[len + 1];
    var ok, k, ptr := DecodeString(s, pos + 1, out, len, SecondPass(s[pos + 1..], []));
    if !ok {
      return Wild;
    }
    assert out[..k] == SecondPass(s[pos + 1..], []).value;
    r := Read(out[..k], ptr);
  }

  // ----- values

  /** What an array's loop still has to do, standing at `v` with the items in `done`. */
  ghost function MoreItems(done: seq<Json>, v: bytes): (r: Parsed<Json>) {
    if At(v, 0) == COMMA then
      match ParseItems(v[1..])
      case Ok(xs, rest) => Ok(Arr(done + xs), rest)
      case Failed => Failed
      case Undefined => Undefined
    else if At(v, 0) == RBRACKET then Ok(Arr(done), v[1..])
    else Failed
  }

  lemma MoreItemsStep(done: seq<Json>, v: bytes)
    requires At(v, 0) == COMMA
    ensures MoreItems(done, v) ==
      match ParseValue(Skip(v[1..]))
      case Failed => Failed
      case Undefined => Undefined
      case Ok(x, rest) => MoreItems(done + [x], Skip(rest))
  {
    match ParseValue(Skip(v[1..]))
    case Ok(x, rest) =>
      if At(Skip(rest), 0) == COMMA {
        match ParseItems(Skip(rest)[1..])
        case Ok(xs, _) => assert done + ([x] + xs) == done + [x] + xs;
        case _ =>
      }
    case _ =>
  }

  lemma FirstItem(s: bytes)
    requires At(s, 0) == LBRACKET && At(Skip(s[1..]), 0) != RBRACKET
    ensures ParseArray(s) ==
      match ParseValue(Skip(Skip(s[1..])))
      case Failed => Failed
      case Undefined => Undefined
      case Ok(x, rest) => MoreItems([x], Skip(rest))
  {
    var v := Skip(s[1..]);
    match ParseValue(Skip(v))
    case Ok(x, rest) =>
    case _ =>
  }

  ghost function MoreMembers(done: seq<Member>, v: bytes): (r: Parsed<Json>) {
    if At(v, 0) == COMMA then
      match ParseMembers(v[1..])
      case Ok(ms, rest) => Ok(Obj(done + ms), rest)
      case Failed => Failed
      case Undefined => Undefined
    else if At(v, 0) == RBRACE then Ok(Obj(done), v[1..])
    else Failed
  }

  lemma MoreMembersStep(done: seq<Member>, v: bytes)
    requires At(v, 0) == COMMA
    ensures MoreMembers(done, v) ==
      match ParseMember(v[1..])
      case Failed => Failed
      case Undefined => Undefined
      case Ok(m, rest) => MoreMembers(done + [m], Skip(rest))
  {
    match ParseMember(v[1..])
    case Ok(m, rest) =>
      if At(Skip(rest), 0) == COMMA {
        match ParseMembers(Skip(rest)[1..])
        case Ok(ms, _) => assert done + ([m] + ms) == done + [m] + ms;
        case _ =>
      }
    case _ =>
  }

  /** `strncmp(value, word, |word|) == 0` */
  method StartsWith(s: bytes, pos: nat, word: bytes) returns (b: bool)
    requires pos <= |s| && NoNul(word)
    ensures b <==> HasPrefix(s[pos..], word)
    ensures b ==> pos + |word| <= |s| && s[pos..][|word|..] == s[pos + |word|..]
  {
    var i := 0;
    while i < |word| && At(s, pos + i) == word[i]
      invariant 0 <= i <= |word| && pos + i <= |s|
      invariant forall j :: 0 <= j < i ==> s[pos + j] == word[j]
    {
      i := i + 1;
    }
    b := i == |word|;
    if b {
      assert s[pos..][..|word|] == word;
    } else if pos + |word| <= |s| {
      assert s[pos..][..|word|][i] != word[i];
    }
  }

  lemma FirstMember(s: bytes)
    requires At(s, 0) == LBRACE && At(Skip(s[1..]), 0) != RBRACE
    ensures ParseObject(s) ==
      match ParseMember(Skip(s[1..]))
      case Failed => Failed
      case Undefined => Undefined
      case Ok(m, rest) => MoreMembers([m], Skip(rest))
  {
    var v := Skip(s[1..]);
    match ParseMember(v)
    case Ok(m, rest) =>
    case _ =>
  }
}
