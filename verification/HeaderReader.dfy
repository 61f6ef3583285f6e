/** `read_header` over the client stream buffer: scanning, option lines with in-place compaction, and the hand-off. */
module HeaderReader {
  import opened Bytes
  import opened Transfers
  import opened HeaderScan
  import opened HeaderOptions
  import opened HeaderRun

  const METHODS: seq<bytes> := [GET, POST, HEAD]

  /** `stream[from..]` holds `text`. */
  ghost predicate Holds(stream: array<byte>, from: nat, text: bytes)
    reads stream
  {
    from + |text| <= stream.Length && forall i :: from <= i < from + |text| ==> stream[i] == text[i - from]
  }

  /** A C string at `from`. */
  ghost predicate HoldsString(stream: array<byte>, from: nat, text: bytes)
    reads stream
  {
    from + |text| < stream.Length && Holds(stream, from, text) && stream[from + |text|] == 0 && NoNul(text)
  }

  /** Every known field points to its text, and the text ends before `limit`. */
  ghost predicate FieldsHold(stream: array<byte>, fields: map<bytes, nat>, texts: map<bytes, bytes>, limit: nat)
    reads stream
  {
    fields.Keys == texts.Keys &&
    forall name :: name in texts ==>
      fields[name] + |texts[name]| < limit && HoldsString(stream, fields[name], texts[name])
  }

  /** The first colon of the string at `from`, or its terminator. */
  method FindColon(stream: array<byte>, from: nat, ghost text: bytes) returns (k: nat)
    requires HoldsString(stream, from, text)
    ensures k == from + ColonIn(text)
  {
    k := from;
    assert text[0..] == text;
    while stream[k] != 0 && stream[k] != COLON
      invariant from <= k <= from + |text| && ColonIn(text) == k - from + ColonIn(text[k - from..])
      decreases from + |text| - k
    {
      assert text[k - from..][1..] == text[k + 1 - from..];
      k := k + 1;
    }
  }

  /** `to_upper` on the name, whose terminator is already in place at `k`. */
  method UpperName(stream: array<byte>, from: nat, k: nat, ghost text: bytes)
    requires Holds(stream, from, text) && k == from + |text| < stream.Length && stream[k] == 0
    requires forall i :: 0 <= i < |text| ==> text[i] != 0
    modifies stream
    ensures Holds(stream, from, UpperCase(text))
    ensures forall i :: 0 <= i < stream.Length && !(from <= i < k) ==> stream[i] == old(stream[i])
  {
    var i := from;
    while stream[i] != 0
      invariant from <= i <= k
      invariant forall j :: from <= j < i ==> stream[j] == Upper(text[j - from])
      invariant forall j :: i <= j < k ==> stream[j] == text[j - from]
      invariant forall j :: 0 <= j < stream.Length && !(from <= j < k) ==> stream[j] == old(stream[j])
      decreases k - i
    {
      stream[i] := Upper(stream[i]);
      i := i + 1;
    }
  }

  method SkipBlanks(stream: array<byte>, from: nat, ghost text: bytes) returns (value: nat)
    requires HoldsString(stream, from, text)
    ensures value == from + Blanks(text)
  {
    value := from;
    assert text[0..] == text;
    while stream[value] != 0 && (stream[value] == SPACE || stream[value] == TAB)
      invariant from <= value <= from + |text| && Blanks(text) == value - from + Blanks(text[value - from..])
      decreases from + |text| - value
    {
      assert text[value - from..][1..] == text[value + 1 - from..];
      value := value + 1;
    }
  }

  /** The C string at `from`. */
  method StringAt(stream: array<byte>, from: nat, ghost text: bytes) returns (s: bytes)
    requires HoldsString(stream, from, text)
    ensures s == text
  {
    var k := from;
    while stream[k] != 0
      invariant from <= k <= from + |text|
      decreases from + |text| - k
    {
      k := k + 1;
    }
    s := stream[from..k];
  }

  /** Cuts the line at its colon; the value starts at `value`. */
  method SplitLine(stream: array<byte>, from: nat, k: nat, ghost text: bytes) returns (value: nat)
    requires HoldsString(stream, from, text) && ColonIn(text) < |text| && k == from + ColonIn(text)
    modifies stream
    ensures HoldsString(stream, from, NameOf(text)) && k < value && HoldsString(stream, value, ValueOf(text))
    ensures value + |ValueOf(text)| == from + |text|
    ensures forall i :: 0 <= i < stream.Length && !(from <= i <= k) ==> stream[i] == old(stream[i])
    ensures forall i :: 0 <= i < stream.Length ==> (stream[i] == 0 <==> old(stream[i]) == 0 || i == k)
  {
    hide ColonIn, Blanks, UpperCase, NameOf, ValueOf, Holds;
    UpperFirst(stream, from, k, text);
    value := SkipBlanks(stream, k + 1, text[ColonIn(text) + 1..]);
    AfterBlanks(stream, k + 1, text);
  }

  /** The colon becomes a terminator, and what stands before it upper case. */
  method UpperFirst(stream: array<byte>, from: nat, k: nat, ghost text: bytes)
    requires HoldsString(stream, from, text) && ColonIn(text) < |text| && k == from + ColonIn(text)
    modifies stream
    ensures HoldsString(stream, from, NameOf(text)) && HoldsString(stream, k + 1, text[ColonIn(text) + 1..])
    ensures forall i :: 0 <= i < stream.Length && !(from <= i <= k) ==> stream[i] == old(stream[i])
    ensures forall i :: 0 <= i < stream.Length ==> (stream[i] == 0 <==> old(stream[i]) == 0 || i == k)
  {
    hide ColonIn, UpperCase, NameOf;
    stream[k] := 0;
    ghost var name, rest := text[..ColonIn(text)], text[ColonIn(text) + 1..];
    UpperName(stream, from, k, name);
    UpperIsName(stream, from, text);
    RestHolds(stream, k + 1, rest);
  }

  lemma RestHolds(stream: array<byte>, from: nat, rest: bytes)
    requires from + |rest| < stream.Length && stream[from + |rest|] == 0 && NoNul(rest)
    requires forall i :: 0 <= i < |rest| ==> stream[from + i] == rest[i]
    ensures HoldsString(stream, from, rest)
  {
  }

  lemma UpperIsName(stream: array<byte>, from: nat, text: bytes)
    requires Holds(stream, from, UpperCase(text[..ColonIn(text)])) && NoNul(text)
    requires from + ColonIn(text) < stream.Length && stream[from + ColonIn(text)] == 0
    ensures HoldsString(stream, from, NameOf(text))
  {
    hide ColonIn;
    NameHasNoNul(text);
  }

  lemma AfterBlanks(stream: array<byte>, from: nat, text: bytes)
    requires ColonIn(text) < |text| && HoldsString(stream, from, text[ColonIn(text) + 1..])
    ensures var value := from + Blanks(text[ColonIn(text) + 1..]);
      HoldsString(stream, value, ValueOf(text)) && value + |ValueOf(text)| == from + |text| - ColonIn(text) - 1
  {
    hide ColonIn, Blanks;
  }

  lemma NameHasNoNul(text: bytes)
    requires NoNul(text)
    ensures NoNul(NameOf(text))
  {
  }

  /** The text of a line that is still in the stream, once its end is marked. */
  lemma LineIsString(stream: array<byte>, from: nat, line: bytes)
    requires Holds(stream, from, line) && from + |line| < stream.Length && stream[from + |line|] == 0
    ensures HoldsString(stream, from, Cut(line))
  {
  }

  class Reader {
    const stream: array<byte>       // client_stream
    const body: array<byte>         // buffer
    const ka: bool
    const judge: bytes -> Judgement
    var client_stream_pos: nat
    var header_line: nat
    var header_end: nat
    var status: Status
    var logline: bool
    var post: bool
    var fields: map<bytes, nat>
    var env: seq<(bytes, bytes)>
    var squashed: bool
    var filesize: int
    var filepos: nat
    var cgi_close: bool
    ghost var raw: bytes            // everything received
    ghost var opts: Options         // what the option lines have said
    ghost var request: bytes        // the request line, once there is one

    constructor (size: nat, ka: bool, judge: bytes -> Judgement)
      requires size > 0
      ensures Scanned(0) && fresh(stream) && fresh(body) && raw == [] && stream.Length == size
      ensures this.ka == ka && this.judge == judge && client_stream_pos == 0 && status == ReadHeader && !logline
    {
      stream, body, this.ka, this.judge := new byte[size], new byte[size + 1], ka, judge;
      client_stream_pos, header_line, header_end, status, logline, post := 0, 0, 0, ReadHeader, false, false;
      fields, env, squashed, filesize, filepos, cgi_close := map[], [], false, 0, 0, false;
      raw, opts, request := [], NONE, [];
    }

    /** The request line is still at the start of the stream. */
    ghost predicate Requested(limit: nat)
      reads this`logline, this`request, stream
    {
      logline ==> |request| < limit && HoldsString(stream, 0, request)
    }

    /** The recorded fields and variables are those of the option lines so far. */
    ghost predicate Known(limit: nat)
      reads this`logline, this`request, this`fields, this`env, this`squashed, this`opts, stream
    {
      FieldsHold(stream, fields, opts.fields, limit) && env == opts.env && squashed == opts.squashed && Requested(limit)
    }

    /** The stream from the current line on is what was received from that line on. */
    ghost predicate InStep(start: nat)
      reads this`client_stream_pos, this`header_line, this`raw, stream
    {
      header_line <= client_stream_pos <= stream.Length && start + (client_stream_pos - header_line) == |raw| &&
      forall i :: header_line <= i < client_stream_pos ==> stream[i] == raw[start + (i - header_line)]
    }

    /** How many of the received bytes lie before `check`. */
    ghost function Done(check: nat): int
      reads this`client_stream_pos, this`raw
    {
      |raw| - (client_stream_pos - check)
    }

    /** The scanner stands at `check` as `s` says. */
    ghost predicate Stands(check: nat, s: Scan)
      reads this, stream
    {
      body.Length == stream.Length + 1 && header_line <= check <= client_stream_pos && 0 <= Done(check) <= |raw| &&
      status == s.status && InStep(s.start) && check - header_line == Done(check) - s.start &&
      (status == OneCr ==> header_end - header_line == s.end - s.start) &&
      (logline <==> s.lines != []) && (!logline ==> header_line == 0 && s.start == 0) &&
      (logline ==> request == Cut(s.lines[0]) && Accepted()) &&
      filesize == 0 && !cgi_close && client_stream_pos == |raw| - EatenBytes(s.lines, ka) &&
      opts == OptionsOf(s.lines, ka) && Known(header_line)
    }

    /** The request line was accepted, and its method noted. */
    ghost predicate Accepted()
      reads this`request, this`post
    {
      Ruling(request, judge) == Full && (post <==> HasPrefix(request, POST))
    }

    ghost predicate Scanned(check: nat)
      reads this, stream
    {
      0 <= Done(check) <= |raw| && Stands(check, ScanTo(raw, Done(check)))
    }

    /** A line has just been completed: it is still in the stream, and `check` is behind its terminator. */
    ghost predicate LineEnded(check: nat, s: Scan, line: bytes)
      reads this, stream
    {
      Stands(check, s) && s.status == OneLf && Holds(stream, header_line, line) &&
      header_line + |line| == header_end < check
    }

    /** `process_option_line`: the number of bytes thrown away. */
    method ProcessOptionLine(ghost line: bytes) returns (count: nat)
      requires Known(header_line) && header_line + |line| == header_end < client_stream_pos <= stream.Length
      requires HoldsString(stream, header_line, Cut(line))
      modifies this`fields, this`env, this`squashed, this`opts, this`client_stream_pos, stream
      ensures opts == Absorb(old(opts), line, ka) && client_stream_pos == old(client_stream_pos) - count
      ensures count == if IsEaten(old(opts), line, ka) then |line| + 1 else 0
      ensures Known(header_end + 1 - count)
      ensures forall i :: header_end + 1 - count <= i < client_stream_pos ==> stream[i] == old(stream[i + count])
      ensures count == 0 ==> forall i :: 0 <= i < stream.Length ==>
        (stream[i] == 0 <==> old(stream[i]) == 0 || ZeroedAt(line, i - header_line))
    {
      hide FieldsHold, HoldsString, ColonIn, Judge, AddCgiEnv, Cut, FieldOf, ZeroedAt, NameOf, ValueOf, Reader.Requested;
      ghost var text := Cut(line);
      var k := FindColon(stream, header_line, text);
      AtColon(stream, header_line, text, k);
      NoColonZeroes(line);
      if stream[k] == 0 {
        KnownFurther(header_line, header_end + 1);
        return 0;
      }
      var value, name, word := SplitOption(k, line);
      SameKeys(stream, fields, opts.fields, header_line);
      count := TakeOut(line, Judge(fields.Keys, squashed, name, word, ka), name, word, value);
    }

    /** The line is recorded as a field, ignored, or made a variable and eaten. */
    method TakeOut(ghost line: bytes, verdict: Verdict, name: bytes, word: bytes, value: nat) returns (count: nat)
      requires Known(header_line) && header_line <= header_end < client_stream_pos <= stream.Length
      requires header_line <= value && value + |word| <= header_end && HoldsString(stream, value, word)
      requires header_end == header_line + |line| && ColonIn(Cut(line)) < |Cut(line)|
      requires verdict == Judge(opts.fields.Keys, opts.squashed, name, word, ka)
      requires name == NameOf(Cut(line)) && word == ValueOf(Cut(line))
      modifies this`fields, this`env, this`squashed, this`opts, this`client_stream_pos, stream
      ensures opts == Absorb(old(opts), line, ka) && client_stream_pos == old(client_stream_pos) - count
      ensures count == if IsEaten(old(opts), line, ka) then |line| + 1 else 0
      ensures Known(header_end + 1 - count)
      ensures forall i :: header_end + 1 - count <= i < client_stream_pos ==> stream[i] == old(stream[i + count])
      ensures count == 0 ==> forall i :: 0 <= i < stream.Length ==> stream[i] == old(stream[i])
    {
      hide FieldsHold, HoldsString, ColonIn, Judge, AddCgiEnv, Cut, FieldOf, NameOf, ValueOf;
      match verdict {
        case Keep =>
          Record(FieldOf(name), word, value);
          count := 0;
        case Ignore =>
          squashed := true;
          opts := opts.(squashed := true);
          KnownFurther(header_line, header_end + 1);
          count := 0;
        case Eat =>
          env := AddCgiEnv(env, name, word);
          opts := opts.(env := AddCgiEnv(opts.env, name, word));
          count := Compact();
      }
    }

    lemma KnownFurther(limit: nat, limit': nat)
      requires Known(limit) && limit <= limit'
      ensures Known(limit')
    {
    }

    /** Cuts the current line into name and value. */
    method SplitOption(k: nat, ghost line: bytes) returns (value: nat, name: bytes, word: bytes)
      requires Known(header_line) && header_line + |line| == header_end < stream.Length
      requires HoldsString(stream, header_line, Cut(line)) && ColonIn(Cut(line)) < |Cut(line)|
      requires k == header_line + ColonIn(Cut(line))
      modifies stream
      ensures Known(header_line) && name == NameOf(Cut(line)) && word == ValueOf(Cut(line))
      ensures header_line <= value && value + |word| <= header_end && HoldsString(stream, value, word)
      ensures forall i :: header_end < i < stream.Length ==> stream[i] == old(stream[i])
      ensures forall i :: 0 <= i < stream.Length ==>
        (stream[i] == 0 <==> old(stream[i]) == 0 || ZeroedAt(line, i - header_line))
    {
      hide ColonIn, Blanks, HoldsString, FieldsHold, NameOf, ValueOf, Holds, Cut;
      ghost var text := Cut(line);
      value := CutOption(k, text);
      name := StringAt(stream, header_line, NameOf(text));
      word := StringAt(stream, value, ValueOf(text));
    }

    method CutOption(k: nat, ghost text: bytes) returns (value: nat)
      requires Known(header_line) && HoldsString(stream, header_line, text)
      requires ColonIn(text) < |text| && k == header_line + ColonIn(text)
      modifies stream
      ensures Known(header_line) && HoldsString(stream, header_line, NameOf(text)) && k < value
      ensures HoldsString(stream, value, ValueOf(text)) && value + |ValueOf(text)| == header_line + |text|
      ensures forall i :: k < i < stream.Length ==> stream[i] == old(stream[i])
      ensures forall i :: 0 <= i < stream.Length ==> (stream[i] == 0 <==> old(stream[i]) == 0 || i == k)
    {
      hide ColonIn, Blanks, NameOf, ValueOf;
      value := SplitLine(stream, header_line, k, text);
    }

    /** A known field: a pointer to its value. */
    method Record(name: bytes, word: bytes, value: nat)
      requires Known(header_line) && header_line <= value && value + |word| <= header_end
      requires HoldsString(stream, value, word)
      modifies this`fields, this`opts
      ensures Known(header_end + 1) && opts == old(opts).(fields := old(opts).fields[name := word])
    {
      fields := fields[name := value];
      opts := opts.(fields := opts.fields[name := word]);
    }

    /** The `memmove` that eats a line. */
    method Compact() returns (count: nat)
      requires Known(header_line) && header_line <= header_end < client_stream_pos <= stream.Length
      modifies this`client_stream_pos, stream
      ensures Known(header_line) && count == header_end - header_line + 1
      ensures client_stream_pos == old(client_stream_pos) - count
      ensures forall i :: header_line <= i < client_stream_pos ==> stream[i] == old(stream[i + count])
    {
      count := header_end - header_line + 1;
      MoveDown(header_line, count);
      client_stream_pos := client_stream_pos - count;
    }

    /** `memmove` down to `to` of everything that stands `count` bytes behind it. */
    method MoveDown(to: nat, count: nat)
      requires to + count <= stream.Length
      modifies stream
      ensures forall i :: 0 <= i < to ==> stream[i] == old(stream[i])
      ensures forall i :: to <= i < stream.Length - count ==> stream[i] == old(stream[i + count])
    {
      forall i | to <= i < stream.Length - count {
        stream[i] := stream[i + count];
      }
    }

    /** The cases of the switch on the status. */
    method NextStatus(c: byte, check: nat)
      modifies this`status, this`header_end
      ensures status == Next(old(status), c)
      ensures header_end == if old(status) == ReadHeader && status != ReadHeader then check else old(header_end)
    {
      match status {
        case ReadHeader =>
          if c == CR {
            status, header_end := OneCr, check;
          } else if c == LF {
            status, header_end := OneLf, check;
          }
        case OneCr => status := if c == LF then OneLf else ReadHeader;
        case OneLf => status := if c == CR then TwoCr else if c == LF then BodyRead else ReadHeader;
        case TwoCr => status := if c == LF then BodyRead else ReadHeader;
        case BodyRead =>
      }
    }

    /** The switch on the status, for the byte at `check`. */
    method Switch(check: nat) returns (ghost s: Scan, ghost line: bytes)
      requires Scanned(check) && check < client_stream_pos && status != BodyRead
      modifies this`status, this`header_end
      ensures 0 <= Done(check) && Done(check + 1) == Done(check) + 1 <= |raw|
      ensures s == ScanTo(raw, Done(check)) && s.status != BodyRead
      ensures status == Next(s.status, raw[Done(check)])
      ensures status != OneLf ==> Scanned(check + 1)
      ensures status == OneLf ==> LineEnded(check + 1, s.(status := OneLf), line)
      ensures status == OneLf ==> Follows(ScanTo(raw, Done(check + 1)), s, line, Done(check + 1))
      ensures status == OneLf ==> ScanTo(raw, Done(check + 1)).spans == s.spans + [(s.start, s.start + |line|)]
    {
      hide OptionsOf, ScanTo, Reader.Known, EatenBytes, Reader.Accepted, Cut;
      ScanStep(raw, Done(check));
      s := ScanTo(raw, Done(check));
      NextStatus(stream[check], check);
      line := [];
      if status == OneLf {
        line := raw[s.start..s.start + (header_end - header_line)];
      }
    }

    /** A completed line: the request line is judged, an option line processed and perhaps eaten. */
    method EndLine(check: nat, ghost s: Scan, ghost line: bytes) returns (check': nat, ending: Ending)
      requires LineEnded(check, s, line) && Follows(ScanTo(raw, Done(check)), s, line, Done(check))
      modifies this, stream
      ensures raw == old(raw) && status == OneLf && filesize == old(filesize) && filepos == old(filepos)
      ensures ending == if s.lines != [] then MoreLater else LineEnding(Ruling(Cut(line), judge))
      ensures ending == MoreLater ==> Scanned(check') && client_stream_pos - check' == old(client_stream_pos) - check
      ensures ending == MoreLater ==>
        check - check' == if s.lines != [] && IsEaten(OptionsOf(s.lines, ka), line, ka) then |line| + 1 else 0
      ensures ending == MoreLater && check' == check ==> forall i :: 0 <= i < check ==>
        (stream[i] == 0 <==> old(stream[i]) == 0 || i == old(header_end) ||
                             (s.lines != [] && ZeroedAt(line, i - old(header_line))))
    {
      hide OptionsOf, ScanTo, Holds, Reader.Known, ZeroedAt, IsEaten, Reader.Scanned, Follows, Ruling;
      check', ending := check, MoreLater;
      if logline {
        check' := EndOption(check, s, line);
      } else {
        ending := EndRequestLine(check, s, line);
      }
    }

    method EndOption(check: nat, ghost s: Scan, ghost line: bytes) returns (check': nat)
      requires LineEnded(check, s, line) && logline && Follows(ScanTo(raw, Done(check)), s, line, Done(check))
      modifies this`fields, this`env, this`squashed, this`opts, this`client_stream_pos, this`header_line, stream
      ensures Scanned(check') && client_stream_pos - check' == old(client_stream_pos) - check
      ensures check - check' == if IsEaten(OptionsOf(s.lines, ka), line, ka) then |line| + 1 else 0
      ensures check' == check ==> forall i :: 0 <= i < check ==>
        (stream[i] == 0 <==> old(stream[i]) == 0 || i == header_end || ZeroedAt(line, i - old(header_line)))
    {
      hide OptionsOf, ScanTo, Holds, Reader.Known, Absorb, Cut, EatenBytes, IsEaten, ZeroedAt, Reader.Accepted;
      OptionsMore(s.lines, line, ka);
      EatenMore(s.lines, line, ka);
      check' := TakeOption(check, line);
    }

    /** Ends the line in the stream, processes it, and moves on to what follows. */
    method TakeOption(check: nat, ghost line: bytes) returns (check': nat)
      requires Known(header_line) && Holds(stream, header_line, line)
      requires header_line + |line| == header_end < check <= client_stream_pos <= stream.Length
      modifies this`fields, this`env, this`squashed, this`opts, this`client_stream_pos, this`header_line, stream
      ensures opts == Absorb(old(opts), line, ka) && Known(check') && header_line == check'
      ensures check - check' == if IsEaten(old(opts), line, ka) then |line| + 1 else 0
      ensures client_stream_pos - check' == old(client_stream_pos) - check
      ensures forall i :: check' <= i < client_stream_pos ==> stream[i] == old(stream[i + (check - check')])
      ensures check' == check ==> forall i :: 0 <= i < check ==>
        (stream[i] == 0 <==> old(stream[i]) == 0 || i == header_end || ZeroedAt(line, i - old(header_line)))
    {
      hide Holds, HoldsString, Reader.Known, Absorb, Cut, IsEaten, ZeroedAt;
      MarkEnd(line);
      var count := ProcessOptionLine(line);
      check' := check - count;
      KnownFurther(header_end + 1 - count, check');
      header_line := check';
    }

    method EndRequestLine(check: nat, ghost s: Scan, ghost line: bytes) returns (ending: Ending)
      requires LineEnded(check, s, line) && !logline && Follows(ScanTo(raw, Done(check)), s, line, Done(check))
      modifies this`logline, this`post, this`header_line, this`request, stream
      ensures ending == LineEnding(Ruling(Cut(line), judge))
      ensures ending == MoreLater ==> Scanned(check)
      ensures forall i :: 0 <= i < stream.Length ==> (stream[i] == 0 <==> old(stream[i]) == 0 || i == header_end)
    {
      hide FieldsHold, OptionsOf, ScanTo, Holds, HoldsString, Absorb, Cut, EatenBytes, IsEaten, Reader.Known;
      MarkEnd(line);
      OptionsMore(s.lines, line, ka);
      EatenMore(s.lines, line, ka);
      ending := JudgeLine(check, line);
    }

    /** `process_logline` */
    method JudgeLine(check: nat, ghost line: bytes) returns (ending: Ending)
      requires Known(header_line) && header_line == 0 && |line| == header_end < check && header_line <= check && !logline
      requires HoldsString(stream, header_line, Cut(line))
      modifies this`logline, this`post, this`header_line, this`request
      ensures ending == LineEnding(Ruling(Cut(line), judge))
      ensures ending == MoreLater ==> logline && request == Cut(line) && Accepted() && header_line == check && Known(check)
    {
      hide FieldsHold, HoldsString, Cut;
      var text := StringAt(stream, header_line, Cut(line));
      var verdict := Ruling(text, judge);
      ending := LineEnding(verdict);
      if verdict == Full {
        logline, post := true, HasPrefix(text, POST);
        request := text;
        FieldsFurther(stream, fields, opts.fields, header_line, check);
        header_line := check;
      }
    }

    /** `*req->header_end = '\0'` */
    method MarkEnd(ghost line: bytes)
      requires Known(header_line) && Holds(stream, header_line, line) &&
        header_line + |line| == header_end < stream.Length
      modifies stream
      ensures Known(header_line) && HoldsString(stream, header_line, Cut(line)) && |Cut(line)| <= |line|
      ensures forall i :: 0 <= i < stream.Length && i != header_end ==> stream[i] == old(stream[i])
      ensures stream[header_end] == 0
    {
      stream[header_end] := 0;
      LineIsString(stream, header_line, line);
    }

    /** The end of the header: `ok` is what `process_header_end` returns. What lies behind `check` is the body so far. */
    method HandOff(check: nat, ok: bool)
      requires Scanned(check)
      modifies this`filesize, this`filepos, this`cgi_close, body
      ensures ok && post ==> filepos == |raw| - Done(check) < body.Length == stream.Length + 1
      ensures ok && post ==> Holds(body, 0, raw[Done(check)..])
      ensures ok && post ==> filesize == LengthOf(opts) && (cgi_close <==> filepos >= filesize)
    {
      hide FieldsHold, HoldsString, OptionsOf, ScanTo, Atoi, EatenBytes, Reader.Accepted, Cut, Holds, Reader.Scanned;
      if ok && post {
        Rest(check);
        FieldIs(CONTENT_LENGTH, header_line);
        if CONTENT_LENGTH in fields {
          var text := StringAt(stream, fields[CONTENT_LENGTH], opts.fields[CONTENT_LENGTH]);
          filesize := Atoi(text);
        }
        filepos := client_stream_pos - check;
        CopyBody(check);
        if filepos >= filesize {
          cgi_close := true;
        }
      }
    }

    lemma Rest(check: nat)
      requires Scanned(check)
      ensures body.Length == stream.Length + 1 && check <= client_stream_pos <= stream.Length && 0 <= Done(check)
      ensures forall i :: check <= i < client_stream_pos ==> stream[i] == raw[Done(check) + (i - check)]
      ensures Known(header_line) && filesize == 0 && !cgi_close
    {
      hide FieldsHold, OptionsOf, EatenBytes, Reader.Accepted, Cut, ScanTo, Reader.Known;
      ghost var start := ScanTo(raw, Done(check)).start;
      forall i | check <= i < client_stream_pos ensures stream[i] == raw[Done(check) + (i - check)] {
        assert stream[i] == raw[start + (i - header_line)];
      }
    }

    lemma FieldIs(name: bytes, limit: nat)
      requires Known(limit)
      ensures name in fields <==> name in opts.fields
      ensures name in fields ==> HoldsString(stream, fields[name], opts.fields[name])
    {
    }

    /** `memcpy(req->buffer, check, req->filepos)` */
    method CopyBody(check: nat)
      requires body.Length == stream.Length + 1 && check <= client_stream_pos <= stream.Length
      requires 0 <= Done(check) && filepos == client_stream_pos - check
      requires forall i :: check <= i < client_stream_pos ==> stream[i] == raw[Done(check) + (i - check)]
      modifies body
      ensures Holds(body, 0, raw[Done(check)..])
    {
      assert body != stream;
      forall i | 0 <= i < filepos {
        body[i] := stream[check + i];
      }
    }

    /** The header ended at `at`: behind the first empty line, with an accepted request line. The fields, the method
        and the body so far are those received. */
    ghost predicate HandedOff(at: nat, ok: bool)
      reads this, stream, body
    {
      at <= |raw| && EndsBlank(raw, at) && (forall j :: 0 <= j < at ==> !EndsBlank(raw, j)) &&
      var lines := ScanTo(raw, at).lines;
      lines != [] && Ruling(Cut(lines[0]), judge) == Full && (post <==> HasPrefix(Cut(lines[0]), POST)) &&
      opts == OptionsOf(lines, ka) && Known(header_line) &&
      (ok && post ==>
        filepos == |raw| - at < body.Length == stream.Length + 1 && Holds(body, 0, raw[at..]) &&
        filesize == LengthOf(opts) &&
        (cgi_close <==> filepos >= filesize))
    }

    /** What the chunk loop has done with the chunk's first byte, as long as no line was eaten. */
    ghost predicate FirstByte(buffer: nat, check: nat, p: nat)
      reads this`client_stream_pos, this`raw, stream
      requires 0 <= Done(check) <= |raw| && p < |raw|
    {
      buffer < stream.Length && (stream[buffer] == 0 <==> Zeroed(raw, ScanTo(raw, Done(check)), p))
    }

    /** What is decided about the request so far. */
    ghost predicate Decided(ending: Ending)
      reads this`raw
    {
      var s := ScanTo(raw, |raw|);
      (ending == Refuses <==> s.lines != [] && Ruling(Cut(s.lines[0]), judge) == Refused) &&
      (ending == Answers <==> s.lines != [] && Ruling(Cut(s.lines[0]), judge) == Simple) &&
      (ending == Complete ==> s.status == BodyRead) && (ending == MoreLater ==> s.status != BodyRead)
    }

    /** One byte: the switch, and the line it may have ended. */
    method ScanByte(buffer: nat, check: nat, ghost p: nat, ghost restart: bool) returns (ending: Ending, check': nat)
      requires Scanned(check) && check < client_stream_pos && status != BodyRead && 0 <= Done(check) <= |raw| && p < |raw|
      requires !restart ==> buffer <= check && Done(buffer) == p && FirstByte(buffer, check, p)
      modifies this, stream
      ensures raw == old(raw) && ending in {MoreLater, Refuses, Answers, Complete}
      ensures ending in {Refuses, Answers} ==> Decided(ending)
      ensures ending in {MoreLater, Complete} ==> Scanned(check') && check' <= check + 1
      ensures ending in {MoreLater, Complete} ==> client_stream_pos == old(client_stream_pos) - (check + 1 - check')
      ensures ending == MoreLater ==> status != BodyRead && 0 <= Done(check') <= |raw|
      ensures ending == MoreLater && !restart && check' == check + 1 ==> FirstByte(buffer, check', p)
      ensures ending == Complete ==> status == BodyRead && 0 <= Done(check') - 1 < |raw|
      ensures ending == Complete ==> ScanTo(raw, Done(check') - 1).status != BodyRead
    {
      hide Reader.Known, OptionsOf, ScanTo, Reader.Scanned, Zeroed, Ruling, EatenBytes, Reader.Decided,
        ZeroedAt, Reader.Stands, IsEaten;
      WithinStream(check);
      ghost var k := Done(check);
      ghost var s, line := Switch(check);
      check' := check + 1;
      if status == OneLf {
        Offsets(check + 1, s.(status := OneLf), line);
        ghost var from, t := header_line, ScanTo(raw, k + 1);
        ghost var before := if buffer < stream.Length then stream[buffer] else 1;
        check', ending := EndLine(check + 1, s.(status := OneLf), line);
        if ending != MoreLater {
          FirstLineDecides(k + 1, s, line, ending);
          return;
        }
        WithinStream(check');
        if !restart && check' == check + 1 {
          ZeroedAfterLine(raw, s, line, t, p, from, buffer, before == 0, stream[buffer] == 0);
        }
      } else {
        ScanStep(raw, k);
        SameZeroes(raw, k, p);
        ending := if status == BodyRead then Complete else MoreLater;
      }
    }

    /** The scanning loop over one chunk, which starts at `buffer`. */
    method ScanChunk(buffer: nat, count: nat, ok: bool) returns (ending: Ending, restart: bool, ghost at: nat)
      requires Scanned(buffer) && status != BodyRead && buffer + count == client_stream_pos && 0 < count < stream.Length
      modifies this, stream, body
      ensures raw == old(raw) && |raw| > 0
      ensures ending in {MoreLater, Refuses, Answers, Complete} && Decided(ending)
      ensures ending == MoreLater ==> Scanned(client_stream_pos) && status != BodyRead
      ensures ending == MoreLater ==> (restart <==> client_stream_pos < buffer + count)
      ensures ending == MoreLater && !restart ==> 0 <= |raw| - count < |raw| && buffer < stream.Length
      ensures ending == MoreLater && !restart ==>
        (stream[buffer] == 0 <==> Zeroed(raw, ScanTo(raw, |raw|), |raw| - count))
      ensures ending == Complete ==> HandedOff(at, ok)
    {
      hide Reader.Known, OptionsOf, ScanTo, EndsBlank, Reader.Scanned, Holds, Zeroed, Ruling, Reader.Decided, EatenBytes;
      var check: nat := buffer;
      var n: int := count;
      restart, at := false, 0;
      ghost var p := Done(buffer);
      WithinStream(check);
      FirstIs(buffer);
      while check < buffer + n
        invariant raw == old(raw) && Scanned(check) && status != BodyRead && buffer + n == client_stream_pos
        invariant 0 <= Done(check) <= |raw| && 0 <= p < |raw| && p == |raw| - count
        invariant n <= count && check <= client_stream_pos && (restart <==> n < count)
        invariant !restart ==> buffer <= check && FirstByte(buffer, check, p)
        decreases client_stream_pos - check
      {
        WithinStream(check);
        assert check - buffer < stream.Length - 1; // the chunk does not fill the whole stream
        var ending', check' := ScanByte(buffer, check, p, restart);
        if ending' == Complete {
          BodyReached(check');
          WithinStream(check');
          at := Done(check');
          HandOff(check', ok);
          return Complete, restart, at;
        }
        if ending' != MoreLater {
          return ending', restart, 0;
        }
        WithinStream(check');
        n := n - (check + 1 - check');
        check, restart := check', restart || check' <= check;
      }
      WithinStream(check);
      LogDecides(check);
      ending := MoreLater;
    }

    lemma WithinStream(check: nat)
      requires Scanned(check)
      ensures check <= client_stream_pos <= stream.Length && 0 <= Done(check) <= |raw| && body != stream
    {
    }

    lemma Offsets(check: nat, s: Scan, line: bytes)
      requires LineEnded(check, s, line)
      ensures header_line + |line| == header_end < check <= client_stream_pos <= stream.Length
      ensures check - header_line == Done(check) - s.start && (logline <==> s.lines != [])
    {
    }

    lemma FirstIs(buffer: nat)
      requires Scanned(buffer) && buffer < client_stream_pos
      ensures FirstByte(buffer, buffer, Done(buffer))
    {
      NotYetZeroed(raw, Done(buffer), Done(buffer));
    }

    lemma LogDecides(check: nat)
      requires Scanned(check) && check == client_stream_pos && status != BodyRead
      ensures Decided(MoreLater)
    {
    }

    /** A refused or simple request line decides, whatever was received behind it. */
    lemma FirstLineDecides(k: nat, s: Scan, line: bytes, ending: Ending)
      requires k <= |raw| && s.lines == [] && ScanTo(raw, k).lines == s.lines + [line]
      requires ending in {Refuses, Answers} && ending == LineEnding(Ruling(Cut(line), judge))
      ensures Decided(ending)
    {
      LinesStay(raw, k, |raw|);
    }

    lemma BodyReached(check: nat)
      requires Scanned(check) && status == BodyRead
      requires 0 <= Done(check) - 1 < |raw| && ScanTo(raw, Done(check) - 1).status != BodyRead
      ensures 0 <= Done(check) <= |raw| && EndsBlank(raw, Done(check)) && Decided(Complete)
      ensures forall j :: 0 <= j < Done(check) ==> !EndsBlank(raw, j)
      ensures var lines := ScanTo(raw, Done(check)).lines;
        lines != [] && Ruling(Cut(lines[0]), judge) == Full && (post <==> HasPrefix(Cut(lines[0]), POST)) &&
        opts == OptionsOf(lines, ka) && Known(header_line)
    {
      hide Reader.Known, OptionsOf, Ruling, EatenBytes, EndsBlank, ScanTo;
      BodyIsBehindFirstBlank(raw, Done(check));
      HasALine(raw, Done(check));
      LinesStay(raw, Done(check), |raw|);
    }

    /** `client_stream_pos` and what follows from it, once everything received has been scanned. */
    lemma Position(check: nat)
      requires Scanned(check) && check == client_stream_pos
      ensures var s := ScanTo(raw, |raw|);
        status == s.status && (logline <==> s.lines != []) && client_stream_pos == |raw| - EatenBytes(s.lines, ka)
    {
    }

    /** `read`: the bytes go behind those already there. */
    method Receive(data: bytes)
      requires Scanned(client_stream_pos) && client_stream_pos + |data| <= stream.Length
      modifies this`raw, this`client_stream_pos, stream
      ensures raw == old(raw) + data && client_stream_pos == old(client_stream_pos) + |data|
      ensures Scanned(old(client_stream_pos)) && ScanTo(raw, |old(raw)|) == old(ScanTo(raw, |raw|))
    {
      hide ScanTo, OptionsOf, EatenBytes, Reader.Accepted, Cut, FieldsHold, HoldsString;
      ScanStays(raw, data, |raw|);
      Store(data);
      client_stream_pos := client_stream_pos + |data|;
      raw := raw + data;
    }

    method Store(data: bytes)
      requires Known(header_line) && header_line <= client_stream_pos && client_stream_pos + |data| <= stream.Length
      modifies stream
      ensures Known(header_line) && Holds(stream, client_stream_pos, data)
      ensures forall i :: 0 <= i < client_stream_pos ==> stream[i] == old(stream[i])
    {
      forall i | 0 <= i < |data| {
        stream[client_stream_pos + i] := data[i];
      }
    }

    /** `memcmp` against the start of the stream. */
    method StartsWith(name: bytes) returns (same: bool)
      requires |name| <= client_stream_pos <= stream.Length
      ensures same <==> HasPrefix(stream[..client_stream_pos], name)
    {
      var i := 0;
      while i < |name| && stream[i] == name[i]
        invariant i <= |name| && forall j :: 0 <= j < i ==> stream[j] == name[j]
      {
        i := i + 1;
      }
      same := i == |name|;
      if !same {
        assert stream[..client_stream_pos][..|name|][i] != name[i];
      }
    }

    /** `request_type` says neither that the stream starts with a method nor that it is too short for one. */
    method InvalidMethod() returns (invalid: bool)
      requires client_stream_pos <= stream.Length
      ensures invalid <==> client_stream_pos >= 5 && !KnownMethod(stream[..client_stream_pos])
    {
      var i, short := 0, false;
      while i < |METHODS|
        invariant i <= |METHODS| && (short <==> exists j :: 0 <= j < i && |METHODS[j]| > client_stream_pos)
        invariant forall j :: 0 <= j < i ==> !HasPrefix(stream[..client_stream_pos], METHODS[j])
      {
        if client_stream_pos < |METHODS[i]| {
          short := true;
        } else {
          var same := StartsWith(METHODS[i]);
          if same {
            assert METHODS[i] in METHODS;
            return false;
          }
        }
        i := i + 1;
      }
      assert METHODS[0] == GET && METHODS[1] == POST && METHODS[2] == HEAD;
      invalid := !short;
    }

    /** Which method the stream starts with, before and after the request line is known. */
    lemma MethodOf(check: nat)
      requires Scanned(check) && check == client_stream_pos
      ensures logline ==> KnownMethod(stream[..client_stream_pos])
      ensures !logline ==> stream[..client_stream_pos] == raw
    {
      hide OptionsOf, ScanTo, FieldsHold, Cut;
      if logline {
        StartKnown(request, stream[..client_stream_pos]);
      }
    }

    /** One round behind `read`: the received chunk is scanned, and what is left in the middle of a line is judged. */
    method Round(data: bytes, ok: bool) returns (ending: Ending, ghost at: nat)
      requires Scanned(client_stream_pos) && status != BodyRead
      requires 0 < |data| < stream.Length && client_stream_pos + |data| <= stream.Length
      modifies this, stream, body
      ensures raw == old(raw) + data && ending == RoundEnding(raw, |old(raw)|, judge, ka)
      ensures ending in {Again, MoreLater} ==> Scanned(client_stream_pos) && status != BodyRead
      ensures ending == Complete ==> HandedOff(at, ok)
    {
      hide Reader.Scanned, Reader.HandedOff, ScanTo, EatenBytes, Zeroed, Ruling, KnownMethod;
      var buffer := client_stream_pos;
      Position(buffer);
      Receive(data);
      var restart;
      ending, restart, at := ScanChunk(buffer, |data|, ok);
      if ending == MoreLater {
        Position(client_stream_pos);
        MethodOf(client_stream_pos);
        WithinStream(client_stream_pos);
        var invalid := InvalidMethod();
        if status == ReadHeader && invalid {
          ending := BadMethod;
        } else if restart {
          ending := Again;
        } else if status == ReadHeader && stream[buffer] != 0 {
          ending := CutLine;
        }
      }
    }

    /** `read_header`. Each round reads once; lines that were eaten make it read again. What `read` does is given round
        by round, cut down to the room that is left; at the end of `inputs` nothing more has arrived. */
    method Read(inputs: seq<Input>, ok: bool) returns (ending: Ending, ghost at: nat)
      requires Scanned(client_stream_pos) && status != BodyRead
      requires forall i :: 0 <= i < |inputs| && inputs[i].Got? ==> |inputs[i].data| < stream.Length
      modifies this, stream, body
      ensures (ending, raw) == CallEnding(old(raw), inputs, judge, ka, stream.Length)
      ensures ending == Complete ==> HandedOff(at, ok)
      ensures ending in {MoreLater, Blocked} ==> Scanned(client_stream_pos) && status != BodyRead && !BlankBy(raw, |raw|)
    {
      hide Reader.Scanned, Reader.HandedOff, BlankBy, RoundEnding, EatenBytes, ScanTo;
      var round := 0;
      while round < |inputs|
        invariant round <= |inputs| && Scanned(client_stream_pos) && status != BodyRead
        invariant CallEnding(old(raw), inputs, judge, ka, stream.Length)
          == CallEnding(raw, inputs[round..], judge, ka, stream.Length)
        decreases |inputs| - round
      {
        NoBlankYet();
        Position(client_stream_pos);
        WithinStream(client_stream_pos);
        assert inputs[round..][0] == inputs[round] && inputs[round..][1..] == inputs[round + 1..];
        var left, input := stream.Length - client_stream_pos, inputs[round];
        round := round + 1;
        if input.Got? && |input.data| > left { input := Got(input.data[..left]); }
        match input {
          case NotYet => return Blocked, 0;
          case ReadError => return Failed, 0;
          case Got(data) =>
            if data == [] { return PeerClosed, 0; }
            ending, at := Round(data, ok);
            if ending != Again {
              if ending == MoreLater { NoBlankYet(); }
              return;
            }
        }
      }
      NoBlankYet();
      return Blocked, 0;
    }

    lemma NoBlankYet()
      requires Scanned(client_stream_pos) && status != BodyRead
      ensures !BlankBy(raw, |raw|)
    {
      StatusSays(raw, |raw|);
    }
  }

  lemma StartKnown(request: bytes, all: bytes)
    requires KnownMethod(request) && |request| <= |all| && forall i :: 0 <= i < |request| ==> all[i] == request[i]
    ensures KnownMethod(all)
  {
    assert all[..|request|] == request;
    forall p: bytes | HasPrefix(request, p) ensures HasPrefix(all, p) {
      assert all[..|p|] == request[..|p|];
    }
  }

  /** The NULs that a line leaves, in the stream and in the received bytes. */
  lemma ZeroedAfterLine(raw: bytes, s: Scan, line: bytes, t: Scan, p: nat, from: nat, i: nat, before: bool, after: bool)
    requires p < |raw| && |s.lines| == |s.spans| && |t.lines| == |t.spans| && p as int - s.start == i - from
    requires t.lines == s.lines + [line] && t.spans == s.spans + [(s.start, s.start + |line|)]
    requires before <==> Zeroed(raw, s, p)
    requires after <==> before || i == from + |line| || (s.lines != [] && ZeroedAt(line, i - from))
    ensures after <==> Zeroed(raw, t, p)
  {
    hide Zeroed;
    ZeroedMore(raw, s, line, (s.start, s.start + |line|), t, p);
  }

  lemma SameZeroes(raw: bytes, k: nat, p: nat)
    requires k < |raw| && p < |raw| && ScanTo(raw, k + 1).status != OneLf
    ensures Zeroed(raw, ScanTo(raw, k + 1), p) <==> Zeroed(raw, ScanTo(raw, k), p)
  {
    ScanStep(raw, k);
  }

  function LengthOf(o: Options): int { if CONTENT_LENGTH in o.fields then Atoi(o.fields[CONTENT_LENGTH]) else 0 }

  lemma AtColon(stream: array<byte>, from: nat, text: bytes, k: nat)
    requires HoldsString(stream, from, text) && k == from + ColonIn(text)
    ensures k < stream.Length && (stream[k] == 0 <==> ColonIn(text) == |text|)
    ensures ColonIn(text) <= |text|
  {
  }

  /** The scan after a line: the same lines and one more. */
  ghost predicate Follows(t: Scan, s: Scan, line: bytes, k: int) {
    t.status == OneLf && t.start == k && t.lines == s.lines + [line]
  }

  /** What a judged request line means for the reading loop. */
  function LineEnding(j: Judgement): Ending {
    match j case Refused => Refuses case Simple => Answers case Full => MoreLater
  }

  lemma FieldsFurther(stream: array<byte>, fields: map<bytes, nat>, texts: map<bytes, bytes>, limit: nat, limit': nat)
    requires FieldsHold(stream, fields, texts, limit) && limit <= limit'
    ensures FieldsHold(stream, fields, texts, limit')
  {
  }

  /** A line that stays in the stream gets a NUL in the place of its colon. */
  ghost predicate ZeroedAt(line: bytes, i: int) { ColonIn(Cut(line)) < |Cut(line)| && i == ColonIn(Cut(line)) }

  lemma NoColonZeroes(line: bytes)
    ensures ColonIn(Cut(line)) == |Cut(line)| ==> forall i: int :: !ZeroedAt(line, i)
  {
  }

  lemma SameKeys(stream: array<byte>, fields: map<bytes, nat>, texts: map<bytes, bytes>, limit: nat)
    requires FieldsHold(stream, fields, texts, limit)
    ensures fields.Keys == texts.Keys
  {
  }
}
