/** Request headers as a function of the bytes received: where lines and the header end, and what the options say. */
module HeaderScan {
  import opened Bytes

  datatype Status = ReadHeader | OneCr | OneLf | TwoCr | BodyRead

  /** The scanner's state machine. */
  function Next(s: Status, c: byte): Status {
    match s
    case ReadHeader => if c == CR then OneCr else if c == LF then OneLf else ReadHeader
    case OneCr => if c == LF then OneLf else ReadHeader
    case OneLf => if c == CR then TwoCr else if c == LF then BodyRead else ReadHeader
    case TwoCr => if c == LF then BodyRead else ReadHeader
    case BodyRead => BodyRead
  }

  /** After `k` bytes: the status, the bounds of the current line, and the lines completed, as texts and as bounds. */
  datatype Scan = Scan(status: Status, start: nat, end: nat, lines: seq<bytes>, spans: seq<(nat, nat)>)

  ghost function ScanTo(raw: bytes, k: nat): (r: Scan)
    requires k <= |raw|
    ensures r.start <= k && r.end <= k && (r.status == OneCr ==> r.start <= r.end < k) && |r.spans| == |r.lines|
  {
    if k == 0 then Scan(ReadHeader, 0, 0, [], [])
    else
      var s, c := ScanTo(raw, k - 1), raw[k - 1];
      var status := Next(s.status, c);
      var end := if s.status == ReadHeader && status != ReadHeader then k - 1 else s.end;
      if status == OneLf then Scan(status, k, end, s.lines + [raw[s.start..end]], s.spans + [(s.start, end)])
      else Scan(status, s.start, end, s.lines, s.spans)
  }

  lemma ScanStep(raw: bytes, k: nat)
    requires k < |raw|
    ensures var s, t := ScanTo(raw, k), ScanTo(raw, k + 1);
      t.status == Next(s.status, raw[k]) &&
      (t.status != OneLf ==> t.start == s.start && t.lines == s.lines && t.spans == s.spans) &&
      t.end == if s.status == ReadHeader && t.status != ReadHeader then k else s.end
    ensures var s, t := ScanTo(raw, k), ScanTo(raw, k + 1);
      t.status == OneLf ==> t.start == k + 1 && s.start <= t.end <= k && t.lines == s.lines + [raw[s.start..t.end]]
    ensures var s, t := ScanTo(raw, k), ScanTo(raw, k + 1);
      t.status == OneLf ==> t.spans == s.spans + [(s.start, t.end)]
  {
  }

  /** The first `k` bytes end with an empty line. */
  ghost predicate EndsBlank(raw: bytes, k: nat)
    requires k <= |raw|
  {
    (k >= 2 && raw[k - 2] == LF && raw[k - 1] == LF) ||
    (k >= 3 && raw[k - 3] == LF && raw[k - 2] == CR && raw[k - 1] == LF)
  }

  ghost predicate BlankBy(raw: bytes, k: nat)
    requires k <= |raw|
  {
    exists j :: 0 <= j <= k && EndsBlank(raw, j)
  }

  /** The status between the ends of lines, as long as no empty line has been seen. */
  lemma {:induction false} StatusSays(raw: bytes, k: nat)
    requires k <= |raw|
    ensures ScanTo(raw, k).status == BodyRead <==> BlankBy(raw, k)
    ensures !BlankBy(raw, k) ==> (ScanTo(raw, k).status == OneLf <==> k >= 1 && raw[k - 1] == LF)
    ensures !BlankBy(raw, k) ==>
      (ScanTo(raw, k).status == TwoCr <==> k >= 2 && raw[k - 2] == LF && raw[k - 1] == CR)
  {
    if k > 0 {
      StatusSays(raw, k - 1);
      BlankGrows(raw, k);
    }
  }

  lemma BlankGrows(raw: bytes, k: nat)
    requires 0 < k <= |raw|
    ensures BlankBy(raw, k) <==> BlankBy(raw, k - 1) || EndsBlank(raw, k)
  {
  }

  /** The scanner reaches the body exactly behind the first empty line. */
  lemma BodyIsBehindFirstBlank(raw: bytes, k: nat)
    requires k <= |raw|
    ensures ScanTo(raw, k).status == BodyRead && (k == 0 || ScanTo(raw, k - 1).status != BodyRead)
      <==> EndsBlank(raw, k) && forall j :: 0 <= j < k ==> !EndsBlank(raw, j)
  {
    StatusSays(raw, k);
    if k > 0 {
      StatusSays(raw, k - 1);
      BlankGrows(raw, k);
    }
  }

  /** Receiving more does not change what was scanned. */
  lemma {:induction false} ScanStays(raw: bytes, more: bytes, k: nat)
    requires k <= |raw|
    ensures ScanTo(raw + more, k) == ScanTo(raw, k)
    decreases k
  {
    if k > 0 {
      ScanStays(raw, more, k - 1);
      var s := ScanTo(raw, k - 1);
      SliceStays(raw, more, s.start, if s.status == ReadHeader then k - 1 else s.end);
    }
  }

  lemma SliceStays(raw: bytes, more: bytes, i: nat, j: nat)
    ensures i <= j <= |raw| ==> (raw + more)[i..j] == raw[i..j]
  {
  }

  /** The completed lines lie behind the current one's start. */
  lemma {:induction false} LinesBehind(raw: bytes, k: nat, i: nat)
    requires k <= |raw| && i < |ScanTo(raw, k).lines|
    ensures var s := ScanTo(raw, k); s.spans[i].0 + |s.lines[i]| == s.spans[i].1 < s.start
    decreases k
  {
    ScanStep(raw, k - 1);
    if i < |ScanTo(raw, k - 1).lines| { LinesBehind(raw, k - 1, i); }
  }

  /** What has been completed stays. */
  lemma {:induction false} LinesStay(raw: bytes, j: nat, k: nat)
    requires j <= k <= |raw|
    ensures ScanTo(raw, j).lines <= ScanTo(raw, k).lines
    ensures ScanTo(raw, j).status == BodyRead ==> ScanTo(raw, k) == ScanTo(raw, j)
    decreases k
  {
    if j < k {
      LinesStay(raw, j, k - 1);
      ScanStep(raw, k - 1);
    }
  }

  /** Behind a line end there is a completed line. */
  lemma {:induction false} HasALine(raw: bytes, k: nat)
    requires k <= |raw| && ScanTo(raw, k).status in {OneLf, TwoCr, BodyRead}
    ensures ScanTo(raw, k).lines != []
    decreases k
  {
    ScanStep(raw, k - 1);
    if ScanTo(raw, k).status != OneLf { HasALine(raw, k - 1); }
  }

  // ----- the lines of a header that is written out

  /** A line and its end: LF, perhaps with a CR before it. */
  datatype Written = Written(line: bytes, cr: bool)

  predicate IsLine(w: Written) { w.line != [] && forall i :: 0 <= i < |w.line| ==> w.line[i] != 13 && w.line[i] != 10 }

  function LineEndOf(cr: bool): bytes { if cr then [13, 10] else [10] }

  function HeaderText(ws: seq<Written>): bytes {
    if ws == [] then []
    else HeaderText(ws[..|ws| - 1]) + ws[|ws| - 1].line + LineEndOf(ws[|ws| - 1].cr)
  }

  function LinesOf(ws: seq<Written>): seq<bytes> {
    if ws == [] then [] else LinesOf(ws[..|ws| - 1]) + [ws[|ws| - 1].line]
  }

  ghost function ScanOf(raw: bytes): Scan { ScanTo(raw, |raw|) }

  lemma OneByte(raw: bytes, c: byte)
    ensures var s, t := ScanOf(raw), ScanOf(raw + [c]);
      t.status == Next(s.status, c) &&
      (t.status != OneLf ==> t.start == s.start && t.lines == s.lines) &&
      t.end == (if s.status == ReadHeader && t.status != ReadHeader then |raw| else s.end) &&
      (t.status == OneLf ==> t.start == |raw| + 1 && s.start <= t.end <= |raw| && t.lines == s.lines + [raw[s.start..t.end]])
  {
    hide ScanTo, Next;
    ScanStays(raw, [c], |raw|);
    ScanStep(raw + [c], |raw|);
    var s, t := ScanOf(raw), ScanOf(raw + [c]);
    if s.start <= t.end <= |raw| { SliceStays(raw, [c], s.start, t.end); }
  }

  lemma {:induction false} InsideLine(raw: bytes, w: bytes)
    requires w != [] && forall i :: 0 <= i < |w| ==> w[i] != 13 && w[i] != 10
    requires ScanOf(raw).status == ReadHeader || ScanOf(raw).status == OneLf
    ensures var s, t := ScanOf(raw), ScanOf(raw + w);
      t.status == ReadHeader && t.start == s.start && t.lines == s.lines
    decreases |w|
  {
    hide ScanOf;
    var init, last := w[..|w| - 1], w[|w| - 1];
    assert raw + w == raw + init + [last];
    if init == [] {
      assert raw + init == raw;
    } else {
      InsideLine(raw, init);
    }
    OneByte(raw + init, last);
  }

  lemma LineEnds(raw: bytes, cr: bool)
    requires ScanOf(raw).status == ReadHeader
    ensures var s, t := ScanOf(raw), ScanOf(raw + LineEndOf(cr));
      t.status == OneLf && t.start == |raw| + |LineEndOf(cr)| && s.start <= |raw| && t.lines == s.lines + [raw[s.start..]]
  {
    hide ScanOf;
    var s := ScanOf(raw);
    if cr {
      OneByte(raw, 13);
      OneByte(raw + [13], 10);
      assert raw + [13] + [10] == raw + [13, 10];
      assert s.start <= |raw| ==> (raw + [13])[s.start..|raw|] == raw[s.start..];
    } else {
      OneByte(raw, 10);
      assert s.start <= |raw| ==> raw[s.start..|raw|] == raw[s.start..];
    }
  }

  /** The lines of a header are scanned as they are written, and behind an empty line the header is complete. */
  lemma {:induction false} WrittenLines(ws: seq<Written>, cr: bool)
    requires forall i :: 0 <= i < |ws| ==> IsLine(ws[i])
    ensures var s := ScanOf(HeaderText(ws));
      s.status == (if ws == [] then ReadHeader else OneLf) && s.start == |HeaderText(ws)| && s.lines == LinesOf(ws)
    ensures ws != [] ==>
      var s := ScanOf(HeaderText(ws) + LineEndOf(cr)); s.status == BodyRead && s.lines == LinesOf(ws)
    decreases |ws|
  {
    hide ScanOf, LineEndOf;
    if ws == [] {
      NothingScanned();
    } else {
      var init, last := ws[..|ws| - 1], ws[|ws| - 1];
      var before := HeaderText(init);
      WrittenLines(init, cr);
      InsideLine(before, last.line);
      LineEnds(before + last.line, last.cr);
      assert (before + last.line)[|before|..] == last.line;
      EmptyLine(HeaderText(ws), cr);
    }
  }

  lemma NothingScanned()
    ensures ScanOf([]) == Scan(ReadHeader, 0, 0, [], [])
  {
  }

  lemma EmptyLine(raw: bytes, cr: bool)
    requires ScanOf(raw).status == OneLf
    ensures var t := ScanOf(raw + LineEndOf(cr)); t.status == BodyRead && t.lines == ScanOf(raw).lines
  {
    hide ScanOf;
    if cr {
      OneByte(raw, 13);
      OneByte(raw + [13], 10);
      assert raw + [13] + [10] == raw + [13, 10];
    } else {
      OneByte(raw, 10);
    }
  }
}
