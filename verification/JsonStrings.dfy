/** Every well-formed JSON string literal decodes to the UTF-8 of its code points. */
module JsonStrings {
  import opened Bytes
  import opened JsonGrammar

  /** One element of a string literal: a byte of the source text, or an escape. */
  datatype Piece =
    | Raw(b: byte)
    | Short(c: byte)
    | Unit(hex: bytes)
    | Pair(high: bytes, low: bytes)

  predicate IsHex4(h: bytes) { |h| == 4 && forall i :: 0 <= i < 4 ==> HexValue(h[i]) >= 0 }

  predicate WellFormed(p: Piece) {
    match p
    case Raw(b) => b != 0 && b != QUOTE && b != BACKSLASH
    case Short(c) => c in {QUOTE, BACKSLASH, SLASH, 98, 102, 110, 114, 116}
    case Unit(h) => IsHex4(h) && HexNumber(h) != 0 && !(0xD800 <= HexNumber(h) <= 0xDFFF)
    case Pair(h, l) =>
      IsHex4(h) && IsHex4(l) && 0xD800 <= HexNumber(h) <= 0xDBFF && 0xDC00 <= HexNumber(l) <= 0xDFFF
  }

  predicate AllWellFormed(ps: seq<Piece>) { forall i :: 0 <= i < |ps| ==> WellFormed(ps[i]) }

  /** The number four hexadecimal digits denote. */
  function HexNumber(h: bytes): int
    requires |h| == 4
  {
    ((HexValue(h[0]) * 16 + HexValue(h[1])) * 16 + HexValue(h[2])) * 16 + HexValue(h[3])
  }

  /** How the piece is written. */
  function Source(p: Piece): bytes {
    match p
    case Raw(b) => [b]
    case Short(c) => [BACKSLASH, c]
    case Unit(h) => [BACKSLASH, 117] + h
    case Pair(h, l) => [BACKSLASH, 117] + h + [BACKSLASH, 117] + l
  }

  /** What the piece stands for, section 7 of RFC 8259. */
  function Meaning(p: Piece): bytes
    requires WellFormed(p)
  {
    match p
    case Raw(b) => [b]
    case Short(c) =>
      if c == 98 then [8] else if c == 102 then [12] else if c == 110 then [10]
      else if c == 114 then [13] else if c == 116 then [9] else [c]
    case Unit(h) => Utf8(HexNumber(h))
    case Pair(h, l) => Utf8(0x1_0000 + (HexNumber(h) - 0xD800) * 0x400 + (HexNumber(l) - 0xDC00))
  }

  function SourceOf(ps: seq<Piece>): bytes {
    if ps == [] then [] else Source(ps[0]) + SourceOf(ps[1..])
  }

  function MeaningOf(ps: seq<Piece>): bytes
    requires AllWellFormed(ps)
  {
    if ps == [] then [] else Meaning(ps[0]) + MeaningOf(ps[1..])
  }

  /** The hexadecimal digits, in either case, and no other byte. */
  lemma HexValuesAre(n: nat, b: byte)
    requires n < 16
    ensures HexValue("0123456789abcdef"[n] as int) == n && HexValue("0123456789ABCDEF"[n] as int) == n
    ensures HexValue(b) == -1 || (0 <= HexValue(b) < 16 &&
      (b == "0123456789abcdef"[HexValue(b)] as int || b == "0123456789ABCDEF"[HexValue(b)] as int))
  {
  }

  /** What one to four octets of UTF-8 stand for: the free bits, put together. */
  function CodePoint(u: bytes): int
    requires 1 <= |u| <= 4
  {
    var lead := u[0] as int;
    if |u| == 1 then lead
    else if |u| == 2 then 64 * (lead - 192) + Low(u[1])
    else if |u| == 3 then 64 * (64 * (lead - 224) + Low(u[1])) + Low(u[2])
    else 64 * (64 * (64 * (lead - 240) + Low(u[1])) + Low(u[2])) + Low(u[3])
  }

  function Low(b: byte): int { b as int - 128 }

  /** UTF-8 is the shortest form, and stands for its code point. */
  lemma Utf8StandsFor(cp: nat)
    requires cp < 0x11_0000
    ensures CodePoint(Utf8(cp)) == cp
    ensures |Utf8(cp)| == if cp < 128 then 1 else if cp < 2048 then 2 else if cp < 65536 then 3 else 4
    ensures forall i :: 1 <= i < |Utf8(cp)| ==> 128 <= Utf8(cp)[i] < 192
  {
    if cp >= 65536 { FourOctets(cp); }
  }

  lemma FourOctets(cp: nat)
    requires 65536 <= cp < 0x11_0000
    ensures CodePoint(Utf8(cp)) == cp
  {
    Base64(cp);
    Base64(cp / 64);
    Base64(cp / 4096);
    assert cp / 64 / 64 == cp / 4096 && cp / 4096 / 64 == cp / 262144;
  }

  lemma Base64(n: nat)
    ensures n == 64 * (n / 64) + n % 64
  {
  }

  lemma Hex4IsHexNumber(h: bytes, s: bytes)
    requires IsHex4(h)
    ensures Hex4(h + s) == HexNumber(h)
  {
    assert forall i :: 0 <= i < 4 ==> At(h + s, i) == h[i];
  }

  lemma EscapeOfUnit(h: bytes, s: bytes)
    requires WellFormed(Unit(h))
    ensures Escape([BACKSLASH, 117] + h + s) == (Meaning(Unit(h)), 6)
  {
    var t := [BACKSLASH, 117] + h + s;
    assert t[2..] == h + s;
    Hex4IsHexNumber(h, s);
  }

  lemma EscapeOfPair(h: bytes, l: bytes, s: bytes)
    requires WellFormed(Pair(h, l))
    ensures Escape(Source(Pair(h, l)) + s) == (Meaning(Pair(h, l)), 12)
  {
    var t := Source(Pair(h, l)) + s;
    var mid := [BACKSLASH, 117] + l + s;
    assert t[2..] == h + mid;
    assert t[8..] == l + s;
    Hex4IsHexNumber(h, mid);
    Hex4IsHexNumber(l, s);
    assert At(t, 6) == BACKSLASH && At(t, 7) == 117;
    SurrogateHalves(HexNumber(h), HexNumber(l));
  }

  lemma SurrogateHalves(h: nat, l: nat)
    requires IsHighSurrogate(h) && IsLowSurrogate(l)
    ensures Combine(h, l) == 0x1_0000 + (h - 0xD800) * 0x400 + (l - 0xDC00)
  {
    assert h % 0x400 == h - 0xD800;
    assert l % 0x400 == l - 0xDC00;
  }

  lemma SecondPassOfPiece(p: Piece, s: bytes, out: bytes)
    requires WellFormed(p)
    ensures SecondPass(Source(p) + s, out) == SecondPass(s, out + Meaning(p))
  {
    var t := Source(p) + s;
    assert t[|Source(p)|..] == s;
    match p
    case Raw(b) => assert t[1..] == s;
    case Short(c) => assert Escape(t) == (Meaning(p), 2);
    case Unit(h) => EscapeOfUnit(h, s);
    case Pair(h, l) => EscapeOfPair(h, l, s);
  }

  lemma {:induction false} SecondPassOfPieces(ps: seq<Piece>, post: bytes, out: bytes)
    requires AllWellFormed(ps)
    ensures SecondPass(SourceOf(ps) + ([QUOTE] + post), out) == Ok(out + MeaningOf(ps), post)
    decreases |ps|
  {
    var close := [QUOTE] + post;
    if ps == [] {
      assert SourceOf(ps) + close == close;
      assert out + MeaningOf(ps) == out;
    } else {
      var s := SourceOf(ps[1..]) + close;
      Concat3(Source(ps[0]), SourceOf(ps[1..]), close);
      SecondPassOfPiece(ps[0], s, out);
      SecondPassOfPieces(ps[1..], post, out + Meaning(ps[0]));
      Concat3(out, Meaning(ps[0]), MeaningOf(ps[1..]));
    }
  }

  /** The first pass over plain bytes counts each of them. */
  lemma {:induction false} FirstPassOfPlain(h: bytes, s: bytes)
    requires forall i :: 0 <= i < |h| ==> h[i] != QUOTE && h[i] != BACKSLASH
    requires FirstPass(s) >= 0
    ensures FirstPass(h + s) == |h| + FirstPass(s)
    decreases |h|
  {
    if h == [] {
      assert h + s == s;
    } else {
      assert (h + s)[1..] == h[1..] + s;
      FirstPassOfPlain(h[1..], s);
    }
  }

  lemma FirstPassOfEscape(c: byte, s: bytes)
    requires FirstPass(s) >= 0
    ensures FirstPass([BACKSLASH, c] + s) == 1 + FirstPass(s)
  {
    assert ([BACKSLASH, c] + s)[2..] == s;
  }

  lemma FirstPassOfPiece(p: Piece, s: bytes)
    requires WellFormed(p) && FirstPass(s) >= 0
    ensures FirstPass(Source(p) + s) >= |Meaning(p)| + FirstPass(s)
  {
    match p
    case Raw(b) => FirstPassOfPlain([b], s);
    case Short(c) => FirstPassOfEscape(c, s);
    case Unit(h) =>
      Concat3([BACKSLASH, 117], h, s);
      FirstPassOfUnit(h, s);
    case Pair(h, l) => FirstPassOfPair(h, l, s);
  }

  lemma FirstPassOfPair(h: bytes, l: bytes, s: bytes)
    requires IsHex4(h) && IsHex4(l) && FirstPass(s) >= 0
    ensures FirstPass(Source(Pair(h, l)) + s) == 10 + FirstPass(s)
  {
    var e: bytes := [BACKSLASH, 117];
    FirstPassOfUnit(l, s);
    FirstPassOfUnit(h, e + (l + s));
    Concat5(e, h, e, l, s);
  }

  lemma FirstPassOfUnit(h: bytes, s: bytes)
    requires IsHex4(h) && FirstPass(s) >= 0
    ensures FirstPass([BACKSLASH, 117] + (h + s)) == 5 + FirstPass(s)
  {
    FirstPassOfPlain(h, s);
    FirstPassOfEscape(117, h + s);
  }

  /** The first pass allots at least as many bytes as the decoded string needs. */
  lemma {:induction false} FirstPassSuffices(ps: seq<Piece>, post: bytes)
    requires AllWellFormed(ps)
    ensures FirstPass(SourceOf(ps) + ([QUOTE] + post)) >= |MeaningOf(ps)|
    decreases |ps|
  {
    var close := [QUOTE] + post;
    if ps == [] {
      assert SourceOf(ps) + close == close;
    } else {
      var s := SourceOf(ps[1..]) + close;
      Concat3(Source(ps[0]), SourceOf(ps[1..]), close);
      FirstPassSuffices(ps[1..], post);
      FirstPassOfPiece(ps[0], s);
    }
  }

  lemma LiteralDecodes(ps: seq<Piece>, post: bytes)
    requires AllWellFormed(ps)
    ensures ParseString([QUOTE] + (SourceOf(ps) + ([QUOTE] + post))) == Ok(MeaningOf(ps), post)
  {
    var t := [QUOTE] + (SourceOf(ps) + ([QUOTE] + post));
    assert t[1..] == SourceOf(ps) + ([QUOTE] + post);
    SecondPassOfPieces(ps, post, []);
    FirstPassSuffices(ps, post);
    assert [] + MeaningOf(ps) == MeaningOf(ps);
  }
}
