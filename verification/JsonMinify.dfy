/** `cJSON_Minify`: stripping blanks and comments in place. */
module JsonMinify {
  import opened Bytes
  import opened Buffers
  import opened JsonText

  /** `Overrun`: the scan would pass the terminator (open comment or string). */
  datatype Minified = Done(text: bytes) | Overrun

  function Before(w: bytes, m: Minified): Minified {
    match m
    case Done(t) => Done(w + t)
    case Overrun => Overrun
  }

  predicate IsBlank(b: byte) { b == SPACE || b == TAB || b == CR || b == LF }

  /** How many bytes there are before the end of the current line. */
  function LineLength(s: bytes): (r: nat)
    ensures r <= |s| && (s != [] && s[0] != LF ==> r > 0)
  {
    if s != [] && s[0] != LF then 1 + LineLength(s[1..]) else 0
  }

  /** The length of a block comment, counting from its slash; -1 when it is never closed. */
  function BlockLength(s: bytes): (r: int)
    ensures r == -1 || 2 <= r <= |s|
  {
    if s == [] then -1
    else if s[0] == STAR && At(s, 1) == SLASH then 2
    else if BlockLength(s[1..]) == -1 then -1
    else 1 + BlockLength(s[1..])
  }

  /** The length of a string literal without its opening quote; -1 when it is never closed. */
  function LiteralLength(s: bytes): (r: int)
    ensures r == -1 || 1 <= r <= |s|
  {
    if s == [] then -1
    else if s[0] == QUOTE then 1
    else
      var step := if s[0] == BACKSLASH then 2 else 1;
      if step > |s| || LiteralLength(s[step..]) == -1 then -1 else step + LiteralLength(s[step..])
  }

  /** What one round of the main loop keeps, and how many bytes it uses up (-1: it overruns). */
  function Token(s: bytes): (r: (bytes, int))
    requires s != []
    ensures r.1 == -1 || (|r.0| <= r.1 && 1 <= r.1 <= |s|)
  {
    if IsBlank(s[0]) then ([], 1)
    else if s[0] == SLASH && At(s, 1) == SLASH then ([], LineLength(s))
    else if s[0] == SLASH && At(s, 1) == STAR then ([], BlockLength(s))
    else if s[0] == QUOTE then
      var n := LiteralLength(s[1..]);
      if n == -1 then ([], -1) else (s[..n + 1], n + 1)
    else (s[..1], 1)
  }

  function Minify(s: bytes): Minified
    decreases |s|
  {
    if s == [] then Done([])
    else
      var (w, n) := Token(s);
      if n == -1 then Overrun else Before(w, Minify(s[n..]))
  }

  // ----- the in-place algorithm

  /** Nothing behind the terminator of `s` has changed. */
  twostate predicate Beyond(a: array<byte>, s: bytes)
    reads a
  {
    forall k :: |s| < k < a.Length ==> a[k] == old(a[k])
  }

  method SkipLine(a: array<byte>, start: nat, ghost s: bytes) returns (json: nat)
    requires Unread(a, start, s)
    ensures json == start + LineLength(s[start..])
  {
    json := start;
    while a[json] != 0 && a[json] != LF
      invariant start <= json <= |s| && json + LineLength(s[json..]) == start + LineLength(s[start..])
      decreases |s| - json
    {
      json := json + 1;
    }
  }

  /** `ok` is false when the comment is never closed. */
  method SkipBlock(a: array<byte>, start: nat, ghost s: bytes) returns (ok: bool, json: nat)
    requires Unread(a, start, s)
    ensures ok <==> BlockLength(s[start..]) != -1
    ensures ok ==> json == start + BlockLength(s[start..])
  {
    json := start;
    while a[json] != 0 && !(a[json] == STAR && a[json + 1] == SLASH)
      invariant start <= json <= |s|
      invariant var n := BlockLength(s[json..]); BlockLength(s[start..]) == if n == -1 then -1 else json - start + n
      decreases |s| - json
    {
      assert s[json..][1..] == s[json + 1..];
      json := json + 1;
    }
    ok, json := a[json] != 0, json + 2;
  }

  /** `*into++=*json++` for a byte that is not the terminator. */
  method CopyByte(a: array<byte>, into: nat, json: nat, ghost s: bytes, ghost out: bytes)
    requires into <= json < |s| && Unread(a, json, s) && Wrote(a, out) && |out| == into
    modifies a
    ensures Wrote(a, out + [s[json]]) && Unread(a, json + 1, s) && Beyond(a, s)
  {
    a[into] := a[json];
  }

  /** One round of the literal's loop: a byte, or a backslash with the byte behind it. */
  method CopyUnit(a: array<byte>, into: nat, json: nat, ghost s: bytes, ghost out: bytes) returns (ok: bool, n: nat)
    requires into <= json < |s| && Unread(a, json, s) && Wrote(a, out) && |out| == into
    modifies a
    ensures ok <==> !(s[json] == BACKSLASH && json + 1 == |s|)
    ensures ok ==> n == (if s[json] == BACKSLASH then 2 else 1) && Wrote(a, out + s[json..json + n])
    ensures ok ==> Unread(a, json + n, s)
    ensures Beyond(a, s)
  {
    ok, n := true, 1;
    var escaped := a[json] == BACKSLASH;
    CopyByte(a, into, json, s, out);
    assert [s[json]] == s[json..json + 1];
    if escaped {
      if a[json + 1] == 0 {
        return false, n;
      }
      CopyByte(a, into + 1, json + 1, s, out + [s[json]]);
      assert out + [s[json]] + [s[json + 1]] == out + s[json..json + 2];
      n := 2;
    }
  }

  /** The literal starting at `start` goes on at `i`. */
  ghost predicate LiteralGoesOn(s: bytes, start: nat, i: nat) {
    start <= i <= |s| &&
    LiteralLength(s[start..]) == if LiteralLength(s[i..]) == -1 then -1 else i - start + LiteralLength(s[i..])
  }

  lemma LiteralStarts(s: bytes, start: nat)
    requires start <= |s|
    ensures LiteralGoesOn(s, start, start)
  {
  }

  lemma LiteralStep(s: bytes, start: nat, i: nat)
    requires LiteralGoesOn(s, start, i) && i < |s| && s[i] != QUOTE
    ensures var step := if s[i] == BACKSLASH then 2 else 1;
            if i + step <= |s| then LiteralGoesOn(s, start, i + step) else LiteralLength(s[start..]) == -1
  {
    var step := if s[i] == BACKSLASH then 2 else 1;
    if i + step <= |s| { assert s[i..][step..] == s[i + step..]; }
  }

  /** Copies a literal whose opening quote is behind `start`; `ok` is false when it is never closed. */
  method CopyLiteral(a: array<byte>, toward: nat, start: nat, ghost s: bytes, ghost out: bytes)
    returns (ok: bool, into: nat, json: nat)
    requires toward <= start && Unread(a, start, s) && Wrote(a, out) && |out| == toward
    modifies a
    ensures ok <==> LiteralLength(s[start..]) != -1
    ensures ok ==> json == start + LiteralLength(s[start..]) && into - toward == json - start
    ensures ok ==> Wrote(a, out + s[start..json]) && Unread(a, json, s)
    ensures Beyond(a, s)
  {
    hide LiteralLength, LiteralGoesOn;
    LiteralStarts(s, start);
    into, json := toward, start;
    assert out + s[start..start] == out;
    while a[json] != 0 && a[json] != QUOTE
      invariant into - toward == json - start && Unread(a, json, s) && LiteralGoesOn(s, start, json)
      invariant Wrote(a, out + s[start..json]) && Beyond(a, s)
      decreases |s| - json
    {
      LiteralStep(s, start, json);
      var step;
      ok, step := CopyUnit(a, into, json, s, out + s[start..json]);
      if !ok {
        return;
      }
      JoinSlices(out, s, start, json, json + step);
      into, json := into + step, json + step;
    }
    LiteralEnd(s, start, json);
    ok := a[json] != 0;
    if ok {
      CopyByte(a, into, json, s, out + s[start..json]);
      JoinSlices(out, s, start, json, json + 1);
      into, json := into + 1, json + 1;
    }
  }

  lemma LiteralEnd(s: bytes, start: nat, i: nat)
    requires LiteralGoesOn(s, start, i) && i <= |s| && (i == |s| || s[i] == QUOTE)
    ensures LiteralLength(s[start..]) == if i == |s| then -1 else i + 1 - start
  {
  }

  lemma JoinSlices(w: bytes, s: bytes, i: nat, j: nat, k: nat)
    requires i <= j <= k <= |s|
    ensures w + s[i..j] + s[j..k] == w + s[i..k]
    ensures k == j + 1 ==> s[j..k] == [s[j]]
  {
  }

  /** Copies a string literal with both its quotes. */
  method CopyString(a: array<byte>, toward: nat, start: nat, ghost s: bytes, ghost out: bytes)
    returns (ok: bool, into: nat, json: nat)
    requires toward <= start < |s| && Unread(a, start, s) && Wrote(a, out) && |out| == toward
    requires s[start] == QUOTE
    modifies a
    ensures ok <==> Token(s[start..]).1 != -1
    ensures ok ==> json == start + Token(s[start..]).1 && Unread(a, json, s)
    ensures ok ==> into == toward + |Token(s[start..]).0| && Wrote(a, out + Token(s[start..]).0)
    ensures Beyond(a, s)
  {
    hide Token, LiteralLength;
    CopyByte(a, toward, start, s, out);
    ok, into, json := CopyLiteral(a, toward + 1, start + 1, s, out + [s[start]]);
    TokenOfLiteral(s, start);
    if ok { JoinSlices(out, s, start, start + 1, json); }
  }

  lemma TokenOfLiteral(s: bytes, start: nat)
    requires start < |s| && s[start] == QUOTE
    ensures var n := LiteralLength(s[start + 1..]);
            Token(s[start..]) == if n == -1 then ([], -1) else (s[start..start + 1 + n], n + 1)
  {
    assert s[start..][1..] == s[start + 1..];
    var n := LiteralLength(s[start + 1..]);
    if n != -1 { assert s[start..][..n + 1] == s[start..start + 1 + n]; }
  }

  /** One round of the main loop. */
  method MinifyToken(a: array<byte>, toward: nat, start: nat, ghost s: bytes, ghost out: bytes)
    returns (ok: bool, into: nat, json: nat)
    requires toward <= start < |s| && Unread(a, start, s) && Wrote(a, out) && |out| == toward
    modifies a
    ensures ok <==> Token(s[start..]).1 != -1
    ensures ok ==> json == start + Token(s[start..]).1 && Unread(a, json, s)
    ensures ok ==> into == toward + |Token(s[start..]).0| && Wrote(a, out + Token(s[start..]).0)
    ensures Beyond(a, s)
  {
    ok, into, json := true, toward, start;
    if IsBlank(a[json]) {
      json := json + 1;
    } else if a[json] == SLASH && a[json + 1] == SLASH {
      json := SkipLine(a, json, s);
    } else if a[json] == SLASH && a[json + 1] == STAR {
      ok, json := SkipBlock(a, json, s);
    } else if a[json] == QUOTE {
      ok, into, json := CopyString(a, toward, start, s, out);
    } else {
      CopyByte(a, into, json, s, out);
      into, json := into + 1, json + 1;
      assert s[start..][..1] == [s[start]];
    }
  }

  /** `ok` is false when the C code would run past the terminator. */
  method MinifyInPlace(a: array<byte>, ghost s: bytes) returns (ok: bool)
    requires Unread(a, 0, s)
    modifies a
    ensures ok <==> Minify(s).Done?
    ensures ok ==> |Minify(s).text| <= |s| && Unread(a, 0, Minify(s).text)
    ensures Beyond(a, s)
  {
    var into: nat, json: nat := 0, 0;
    assert s[0..] == s;
    ghost var out: bytes := [];
    while a[json] != 0
      invariant Unread(a, json, s) && into == |out| <= json && Wrote(a, out) && NoNul(out)
      invariant Minify(s) == Before(out, Minify(s[json..]))
      invariant Beyond(a, s)
      decreases |s| - json
    {
      ghost var rest := s[json..];
      ghost var (w, n) := Token(rest);
      TokenNoNul(rest);
      ok, into, json := MinifyToken(a, into, json, s, out);
      if !ok {
        return;
      }
      assert rest[n..] == s[json..];
      BeforeTwice(out, w, Minify(s[json..]));
      out := out + w;
    }
    assert s[json..] == [] && out + [] == out;
    a[into] := 0;
    ok := true;
  }

  lemma TokenNoNul(s: bytes)
    requires s != [] && NoNul(s)
    ensures NoNul(Token(s).0)
  {
  }

  lemma BeforeTwice(v: bytes, w: bytes, m: Minified)
    ensures Before(v, Before(w, m)) == Before(v + w, m)
  {
    if m.Done? { Concat3(v, w, m.text); }
  }
}
