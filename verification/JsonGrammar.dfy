/** What the recursive-descent parser computes, as functions of the unread text. */
module JsonGrammar {
  import opened Bytes
  import opened JsonText

  /** `Undefined` marks inputs on which the C code runs past the terminator or past its buffer. */
  datatype Parsed<+T> = Ok(value: T, rest: bytes) | Failed | Undefined

  function Skip(s: bytes): (r: bytes)
    ensures |r| <= |s|
    ensures r == [] || r[0] > SPACE
  {
    if s != [] && s[0] <= SPACE then Skip(s[1..]) else s
  }

  // ----- numbers

  /** The digits at the front of `s`, appended to the decimal number `n`. */
  function DigitRun(s: bytes, n: nat): (r: (nat, bytes))
    ensures |r.1| <= |s|
    ensures IsDigit(At(s, 0)) ==> |r.1| < |s|
  {
    if s != [] && IsDigit(s[0]) then DigitRun(s[1..], 10 * n + (s[0] - 48)) else (n, s)
  }

  function AfterMinus(s: bytes): bytes { if At(s, 0) == MINUS then s[1..] else s }

  function AfterZero(s: bytes): bytes { if At(s, 0) == 48 then s[1..] else s }

  /** `n`, and what follows the integer part. */
  function IntegerPart(s: bytes): (r: (nat, bytes))
    ensures |r.1| <= |s|
    ensures IsDigit(At(s, 0)) ==> |r.1| < |s|
  {
    var z := AfterZero(s);
    if 49 <= At(z, 0) <= 57 then DigitRun(z, 0) else (0, z)
  }

  predicate HasFraction(s: bytes) { At(s, 0) == DOT && IsDigit(At(s, 1)) }

  predicate HasExponent(s: bytes) { At(s, 0) == 101 || At(s, 0) == 69 }

  /** The exponent's value, and what follows it. */
  function ExponentPart(s: bytes): (r: (int, bytes))
    requires HasExponent(s)
    ensures |r.1| < |s|
  {
    var t := s[1..];
    if At(t, 0) == 43 then DigitRun(t[1..], 0)
    else if At(t, 0) == MINUS then
      var (e, rest) := DigitRun(t[1..], 0);
      (-(e as int), rest)
    else DigitRun(t, 0)
  }

  function NumberValue(negative: bool, n: nat, exponent: int): real {
    (if negative then -(n as int) else n) as real * Pow10(exponent)
  }

  function ParseNumber(s: bytes): (r: (real, bytes))
    requires At(s, 0) == MINUS || IsDigit(At(s, 0))
    ensures |r.1| < |s|
  {
    var (n, t) := IntegerPart(AfterMinus(s));
    var (n, u) := if HasFraction(t) then DigitRun(t[1..], n) else (n, t);
    var scale := if HasFraction(t) then |u| + 1 - |t| else 0;
    var (e, rest) := if HasExponent(u) then ExponentPart(u) else (0, u);
    (NumberValue(At(s, 0) == MINUS, n, scale + e), rest)
  }

  // ----- strings

  function HexValue(b: byte): int {
    if 48 <= b <= 57 then b - 48
    else if 65 <= b <= 70 then b - 55
    else if 97 <= b <= 102 then b - 87
    else -1
  }

  /** `parse_hex4`: 0 as soon as one of the four bytes is no hexadecimal digit. */
  function Hex4(s: bytes): (r: nat)
    ensures r < 0x1_0000
    ensures r > 0 ==> |s| >= 4
  {
    var a, b, c, d := HexValue(At(s, 0)), HexValue(At(s, 1)), HexValue(At(s, 2)), HexValue(At(s, 3));
    if a < 0 || b < 0 || c < 0 || d < 0 then 0 else a * 4096 + b * 256 + c * 16 + d
  }

  predicate IsLowSurrogate(u: nat) { 0xDC00 <= u <= 0xDFFF }
  predicate IsHighSurrogate(u: nat) { 0xD800 <= u <= 0xDBFF }

  function Combine(high: nat, low: nat): nat { 0x1_0000 + (high % 0x400) * 0x400 + low % 0x400 }

  /** UTF-8, section 3 of RFC 3629. */
  function Utf8(cp: nat): (r: bytes)
    requires cp < 0x11_0000
    ensures 1 <= |r| <= 4
  {
    if cp < 0x80 then [cp]
    else if cp < 0x800 then [0xC0 + cp / 0x40, 0x80 + cp % 0x40]
    else if cp < 0x1_0000 then [0xE0 + cp / 0x1000, 0x80 + cp / 0x40 % 0x40, 0x80 + cp % 0x40]
    else [0xF0 + cp / 0x4_0000, 0x80 + cp / 0x1000 % 0x40, 0x80 + cp / 0x40 % 0x40, 0x80 + cp % 0x40]
  }

  /** The first pass over a string's body: one per plain byte, one per backslash pair. */
  function FirstPass(s: bytes): (r: int)
    ensures r >= -1
  {
    if s == [] || s[0] == QUOTE then 0
    else if s[0] == BACKSLASH then
      if |s| < 2 || FirstPass(s[2..]) == -1 then -1 else 1 + FirstPass(s[2..])
    else if FirstPass(s[1..]) == -1 then -1 else 1 + FirstPass(s[1..])
  }

  /** What one escape writes, and how many bytes of text it uses up. */
  function Escape(s: bytes): (r: (bytes, nat))
    requires |s| >= 1 && s[0] == BACKSLASH
    ensures 2 <= r.1 <= 12 && |r.0| <= 4
  {
    var c := At(s, 1);
    if c == 98 then ([8], 2)
    else if c == 102 then ([12], 2)
    else if c == 110 then ([10], 2)
    else if c == 114 then ([13], 2)
    else if c == 116 then ([9], 2)
    else if c == 117 then
      var u := Hex4(if |s| >= 2 then s[2..] else []);
      if IsLowSurrogate(u) || u == 0 then ([], 6)
      else if IsHighSurrogate(u) then
        if At(s, 6) != BACKSLASH || At(s, 7) != 117 then ([], 6)
        else
          var u2 := Hex4(if |s| >= 8 then s[8..] else []);
          if !IsLowSurrogate(u2) then ([], 12) else (Utf8(Combine(u, u2)), 12)
      else (Utf8(u), 6)
    else ([c], 2)
  }

  /** One round of the second pass: a plain byte or an escape. */
  function Unit(s: bytes): (r: (bytes, nat))
    requires s != []
    ensures 1 <= r.1 <= 12
  {
    if s[0] == BACKSLASH then Escape(s) else ([s[0]], 1)
  }

  /** The second pass, with what it has written so far. */
  function SecondPass(s: bytes, out: bytes): (r: Parsed<bytes>)
    ensures !r.Failed?
    ensures r.Ok? ==> |r.rest| <= |s| && |out| <= |r.value|
  {
    if s == [] then Ok(out, [])
    else if s[0] == QUOTE then Ok(out, s[1..])
    else
      var (w, n) := Unit(s);
      if n > |s| then Undefined else SecondPass(s[n..], out + w)
  }

  function ParseString(s: bytes): (r: Parsed<bytes>)
    ensures r.Ok? ==> |r.rest| < |s|
  {
    if At(s, 0) != QUOTE then Failed
    else
      var len := FirstPass(s[1..]);
      var r := SecondPass(s[1..], []);
      if len == -1 || r.Undefined? || |r.value| > len then Undefined else r
  }

  // ----- values

  function ParseValue(s: bytes): (r: Parsed<Json>)
    ensures r.Ok? ==> |r.rest| < |s|
    decreases |s|, 2
  {
    if HasPrefix(s, NULL_TEXT) then Ok(Null, s[4..])
    else if HasPrefix(s, FALSE_TEXT) then Ok(False, s[5..])
    else if HasPrefix(s, TRUE_TEXT) then Ok(True, s[4..])
    else if At(s, 0) == QUOTE then
      match ParseString(s)
      case Ok(text, rest) => Ok(Str(text), rest)
      case Failed => Failed
      case Undefined => Undefined
    else if At(s, 0) == MINUS || IsDigit(At(s, 0)) then
      var (d, rest) := ParseNumber(s);
      Ok(Number(d), rest)
    else if At(s, 0) == LBRACKET then ParseArray(s)
    else if At(s, 0) == LBRACE then ParseObject(s)
    else Failed
  }

  function ParseArray(s: bytes): (r: Parsed<Json>)
    requires At(s, 0) == LBRACKET
    ensures r.Ok? ==> |r.rest| < |s|
    decreases |s|, 1
  {
    var v := Skip(s[1..]);
    if At(v, 0) == RBRACKET then Ok(Arr([]), v[1..])
    else
      match ParseItems(v)
      case Ok(items, rest) => Ok(Arr(items), rest)
      case Failed => Failed
      case Undefined => Undefined
  }

  /** The items of a non-empty array, up to and including the closing bracket. */
  function ParseItems(s: bytes): (r: Parsed<seq<Json>>)
    ensures r.Ok? ==> |r.rest| < |s|
    decreases |s|, 3
  {
    match ParseValue(Skip(s))
    case Failed => Failed
    case Undefined => Undefined
    case Ok(x, rest) =>
      var v := Skip(rest);
      if At(v, 0) == COMMA then
        match ParseItems(v[1..])
        case Ok(xs, rest) => Ok([x] + xs, rest)
        case Failed => Failed
        case Undefined => Undefined
      else if At(v, 0) == RBRACKET then Ok([x], v[1..])
      else Failed
  }

  function ParseObject(s: bytes): (r: Parsed<Json>)
    requires At(s, 0) == LBRACE
    ensures r.Ok? ==> |r.rest| < |s|
    decreases |s|, 1
  {
    var v := Skip(s[1..]);
    if At(v, 0) == RBRACE then Ok(Obj([]), v[1..])
    else
      match ParseMembers(v)
      case Ok(ms, rest) => Ok(Obj(ms), rest)
      case Failed => Failed
      case Undefined => Undefined
  }

  /** One `"name" : value` pair. */
  function ParseMember(s: bytes): (r: Parsed<Member>)
    ensures r.Ok? ==> |r.rest| < |s|
    decreases |s|, 3
  {
    match ParseString(Skip(s))
    case Failed => Failed
    case Undefined => Undefined
    case Ok(name, rest) =>
      var v := Skip(rest);
      if At(v, 0) != COLON then Failed
      else
        match ParseValue(Skip(v[1..]))
        case Ok(x, rest) => Ok(Member(name, x), rest)
        case Failed => Failed
        case Undefined => Undefined
  }

  /** The members of a non-empty object, up to and including the closing brace. */
  function ParseMembers(s: bytes): (r: Parsed<seq<Member>>)
    ensures r.Ok? ==> |r.rest| < |s|
    decreases |s|, 4
  {
    match ParseMember(s)
    case Failed => Failed
    case Undefined => Undefined
    case Ok(m, rest) =>
      var v := Skip(rest);
      if At(v, 0) == COMMA then
        match ParseMembers(v[1..])
        case Ok(ms, rest) => Ok([m] + ms, rest)
        case Failed => Failed
        case Undefined => Undefined
      else if At(v, 0) == RBRACE then Ok([m], v[1..])
      else Failed
  }

  /** `cJSON_ParseWithOpts`: leading blanks, a value and, on request, nothing but blanks after it. */
  function Parse(s: bytes, requireEnd: bool): Parsed<Json> {
    match ParseValue(Skip(s))
    case Ok(t, rest) =>
      if !requireEnd then Ok(t, rest)
      else if Skip(rest) == [] then Ok(t, []) else Failed
    case r => r
  }
}
