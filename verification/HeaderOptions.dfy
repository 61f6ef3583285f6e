/** What one option line says: which header fields are kept as pointers and which become CGI variables. */
module HeaderOptions {
  import opened Bytes

  /** A header line as text: up to the first NUL. */
  function Cut(s: bytes): (r: bytes)
    ensures |r| <= |s| && NoNul(r) && forall i :: 0 <= i < |r| ==> r[i] == s[i]
    ensures |r| < |s| ==> s[|r|] == 0
  {
    if s == [] || s[0] == 0 then [] else [s[0]] + Cut(s[1..])
  }

  /** The position of the first colon of a C string, or its length. */
  function ColonIn(s: bytes): (k: nat)
    ensures k <= |s| && forall i :: 0 <= i < k ==> s[i] != COLON
    ensures k < |s| ==> s[k] == COLON
  {
    if s == [] || s[0] == COLON then 0 else 1 + ColonIn(s[1..])
  }

  function Upper(b: byte): byte {
    if b == MINUS then 95 else if 97 <= b <= 122 then b - 32 else b
  }

  function UpperCase(s: bytes): (r: bytes)
    ensures |r| == |s| && forall i :: 0 <= i < |s| ==> r[i] == Upper(s[i])
  {
    seq(|s|, i requires 0 <= i < |s| => Upper(s[i]))
  }

  /** How many blanks and tabs a text starts with. */
  function Blanks(s: bytes): (k: nat)
    ensures k <= |s| && (k < |s| ==> s[k] != SPACE && s[k] != TAB)
    ensures forall i :: 0 <= i < k ==> s[i] == SPACE || s[i] == TAB
  {
    if s != [] && (s[0] == SPACE || s[0] == TAB) then 1 + Blanks(s[1..]) else 0
  }

  // "IF_MODIFIED_SINCE" and so on
  const IF_MODIFIED_SINCE: bytes := [73, 70, 95, 77, 79, 68, 73, 70, 73, 69, 68, 95, 83, 73, 78, 67, 69]
  const CONTENT_TYPE: bytes := [67, 79, 78, 84, 69, 78, 84, 95, 84, 89, 80, 69]
  const CONTENT_LENGTH: bytes := [67, 79, 78, 84, 69, 78, 84, 95, 76, 69, 78, 71, 84, 72]
  const HOST: bytes := [72, 79, 83, 84]
  const REFERER: bytes := [82, 69, 70, 69, 82, 69, 82]
  const AUTHORIZATION: bytes := [65, 85, 84, 72, 79, 82, 73, 90, 65, 84, 73, 79, 78]
  const USER_AGENT: bytes := [85, 83, 69, 82, 95, 65, 71, 69, 78, 84]
  const COOKIE: bytes := [67, 79, 79, 75, 73, 69]
  const CONNECTION: bytes := [67, 79, 78, 78, 69, 67, 84, 73, 79, 78]

  /** Names are compared up to and including their terminator, except that only six bytes are compared for cookies. */
  predicate IsField(name: bytes) {
    name == IF_MODIFIED_SINCE || name == CONTENT_TYPE || name == CONTENT_LENGTH || name == HOST || name == REFERER ||
    name == AUTHORIZATION || name == USER_AGENT || HasPrefix(name, COOKIE)
  }

  /** The field a name stands for. */
  function FieldOf(name: bytes): bytes { if HasPrefix(name, COOKIE) then COOKIE else name }

  function DigitsValue(s: bytes, n: nat): nat {
    if s != [] && IsDigit(s[0]) then DigitsValue(s[1..], 10 * n + (s[0] - 48)) else n
  }

  predicate IsSpace(b: byte) { b == SPACE || 9 <= b <= 13 }

  function Atoi(s: bytes): int {
    if s != [] && IsSpace(s[0]) then Atoi(s[1..])
    else if At(s, 0) == MINUS then -(DigitsValue(s[1..], 0) as int)
    else if At(s, 0) == 43 then DigitsValue(s[1..], 0)
    else DigitsValue(s, 0)
  }

  /** Everything the option lines have said so far. */
  datatype Options = Options(fields: map<bytes, bytes>, env: seq<(bytes, bytes)>, squashed: bool)

  const NONE: Options := Options(map[], [], false)

  datatype Verdict = Keep | Ignore | Eat

  /** `ka` is whether keep-alive is configured at all. */
  function Judge(known: set<bytes>, squashed: bool, name: bytes, value: bytes, ka: bool): Verdict {
    if IsField(name) && FieldOf(name) !in known && (name == CONTENT_LENGTH ==> Atoi(value) >= 0) then Keep
    else if name == CONNECTION && ka && !squashed then Ignore
    else Eat
  }

  const MAX_CGI_VARS: nat := 50
  const COMMON_CGI_VARS: nat := 8

  /** Room for header variables: seventeen entries are kept free, and the common ones and the method come first. */
  const ENV_LIMIT: nat := MAX_CGI_VARS - 17 - (COMMON_CGI_VARS + 1)

  function AddCgiEnv(env: seq<(bytes, bytes)>, name: bytes, value: bytes): seq<(bytes, bytes)> {
    if |env| >= ENV_LIMIT then env else env + [(name, value)]
  }

  function NameOf(line: bytes): bytes { UpperCase(line[..ColonIn(line)]) }

  function ValueOf(line: bytes): (v: bytes)
    requires ColonIn(line) < |line|
  {
    var rest := line[ColonIn(line) + 1..];
    rest[Blanks(rest)..]
  }

  /** One option line: the first line of each known name is kept, `Connection` squashes keep-alive, the others
      become CGI variables. */
  function Absorb(o: Options, line: bytes, ka: bool): Options {
    var text := Cut(line);
    if ColonIn(text) == |text| then o
    else
      var name, value := NameOf(text), ValueOf(text);
      match Judge(o.fields.Keys, o.squashed, name, value, ka)
      case Keep => o.(fields := o.fields[FieldOf(name) := value])
      case Ignore => o.(squashed := true)
      case Eat => o.(env := AddCgiEnv(o.env, name, value))
  }

  function AbsorbAll(lines: seq<bytes>, ka: bool): Options {
    if lines == [] then NONE else Absorb(AbsorbAll(lines[..|lines| - 1], ka), lines[|lines| - 1], ka)
  }

  lemma AbsorbMore(lines: seq<bytes>, line: bytes, ka: bool)
    ensures AbsorbAll(lines + [line], ka) == Absorb(AbsorbAll(lines, ka), line, ka)
  {
    assert (lines + [line])[..|lines|] == lines;
  }

  /** The line is thrown away once it is processed. */
  predicate IsEaten(o: Options, line: bytes, ka: bool) {
    var text := Cut(line);
    ColonIn(text) < |text| && Judge(o.fields.Keys, o.squashed, NameOf(text), ValueOf(text), ka) == Eat
  }

  /** A field once known keeps its value, whatever lines follow. */
  lemma {:induction false} FieldsStay(lines: seq<bytes>, more: seq<bytes>, ka: bool, name: bytes)
    requires name in AbsorbAll(lines, ka).fields
    ensures name in AbsorbAll(lines + more, ka).fields
    ensures AbsorbAll(lines + more, ka).fields[name] == AbsorbAll(lines, ka).fields[name]
    decreases |more|
  {
    if more == [] {
      assert lines + more == lines;
    } else {
      var init, last := more[..|more| - 1], more[|more| - 1];
      FieldsStay(lines, init, ka, name);
      assert lines + more == (lines + init) + [last];
      AbsorbMore(lines + init, last, ka);
      OneLineKeeps(AbsorbAll(lines + init, ka), last, ka, name);
    }
  }

  lemma OneLineKeeps(o: Options, line: bytes, ka: bool, name: bytes)
    requires name in o.fields
    ensures name in Absorb(o, line, ka).fields && Absorb(o, line, ka).fields[name] == o.fields[name]
  {
  }
}
