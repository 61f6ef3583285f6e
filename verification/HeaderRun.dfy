/** How reading a header ends, as a function of the bytes received and of how they were cut into reads. */
module HeaderRun {
  import opened Bytes
  import opened Transfers
  import opened HeaderScan
  import opened HeaderOptions

  /** What `process_logline` makes of a request line that starts with a known method. */
  datatype Judgement = Refused | Simple | Full

  // "GET ", "POST " and "HEAD "
  const GET: bytes := [71, 69, 84, 32]
  const POST: bytes := [80, 79, 83, 84, 32]
  const HEAD: bytes := [72, 69, 65, 68, 32]

  predicate KnownMethod(s: bytes) { HasPrefix(s, GET) || HasPrefix(s, POST) || HasPrefix(s, HEAD) }

  function Ruling(text: bytes, judge: bytes -> Judgement): Judgement {
    if KnownMethod(text) then judge(text) else Refused
  }

  /** What the lines say: the first is the request line, the others are options. */
  ghost function OptionsOf(lines: seq<bytes>, ka: bool): Options {
    if lines == [] then NONE else AbsorbAll(lines[1..], ka)
  }

  lemma OptionsMore(lines: seq<bytes>, line: bytes, ka: bool)
    ensures OptionsOf([], ka) == NONE
    ensures OptionsOf(lines + [line], ka) == if lines == [] then NONE else Absorb(OptionsOf(lines, ka), line, ka)
  {
    if lines == [] {
      assert (lines + [line])[1..] == [];
    } else {
      assert (lines + [line])[1..] == lines[1..] + [line];
      AbsorbMore(lines[1..], line, ka);
    }
  }

  /** How many bytes the eaten lines took out of the stream, each with its first terminator. */
  ghost function EatenBytes(lines: seq<bytes>, ka: bool): nat {
    if |lines| <= 1 then 0
    else
      var init, last := lines[..|lines| - 1], lines[|lines| - 1];
      EatenBytes(init, ka) + if IsEaten(OptionsOf(init, ka), last, ka) then |last| + 1 else 0
  }

  lemma EatenMore(lines: seq<bytes>, line: bytes, ka: bool)
    ensures EatenBytes(lines + [line], ka) ==
      EatenBytes(lines, ka) + if lines != [] && IsEaten(OptionsOf(lines, ka), line, ka) then |line| + 1 else 0
  {
    assert (lines + [line])[..|lines|] == lines;
  }

  /** The `i`th line leaves a NUL at position `p`: in the place of its terminator, or of its colon. */
  ghost predicate ZeroedBy(i: nat, line: bytes, span: (nat, nat), p: nat) {
    span.1 == p || (i > 0 && ColonIn(Cut(line)) < |Cut(line)| && span.0 + ColonIn(Cut(line)) == p)
  }

  /** The byte received at position `p` reads as a NUL in the stream, as long as no line was eaten. */
  ghost predicate Zeroed(raw: bytes, s: Scan, p: nat)
    requires p < |raw| && |s.lines| == |s.spans|
  {
    raw[p] == 0 || exists i :: 0 <= i < |s.lines| && ZeroedBy(i, s.lines[i], s.spans[i], p)
  }

  lemma ZeroedMore(raw: bytes, s: Scan, line: bytes, span: (nat, nat), t: Scan, p: nat)
    requires p < |raw| && |s.lines| == |s.spans| && t.lines == s.lines + [line] && t.spans == s.spans + [span]
    ensures Zeroed(raw, t, p) <==> Zeroed(raw, s, p) || ZeroedBy(|s.lines|, line, span, p)
  {
    if ZeroedBy(|s.lines|, line, span, p) {
      assert ZeroedBy(|s.lines|, t.lines[|s.lines|], t.spans[|s.lines|], p);
    }
    forall i | 0 <= i < |s.lines| && ZeroedBy(i, s.lines[i], s.spans[i], p) ensures Zeroed(raw, t, p) {
      assert ZeroedBy(i, t.lines[i], t.spans[i], p);
    }
  }

  /** Nothing behind the current line's start has been touched. */
  lemma NotYetZeroed(raw: bytes, k: nat, p: nat)
    requires k <= |raw| && ScanTo(raw, k).start <= p < |raw|
    ensures Zeroed(raw, ScanTo(raw, k), p) <==> raw[p] == 0
  {
    var s := ScanTo(raw, k);
    forall i | 0 <= i < |s.lines| ensures !ZeroedBy(i, s.lines[i], s.spans[i], p) {
      LinesBehind(raw, k, i);
    }
  }

  /** How a read of the header ends. `Again` is for a round that is followed by another one in the same call. */
  datatype Ending =
    | MoreLater   // 1: nothing to complain about, the rest may come later
    | Blocked     // -1: nothing to read
    | PeerClosed  // 0: end of the connection, or no room left
    | Failed      // 0: a read error
    | Refuses     // 0: the request line was refused
    | Answers     // the request line was that of a simple request, which has no header
    | BadMethod   // 0: the stream does not start with a method
    | CutLine   // 0: the round ended inside a line
    | Complete    // the empty line has been read
    | Again

  /** What a round ends with that has received `raw[p..]`. */
  ghost function RoundEnding(raw: bytes, p: nat, judge: bytes -> Judgement, ka: bool): (r: Ending)
    requires p < |raw|
    ensures r !in {Blocked, PeerClosed, Failed}
  {
    var s := ScanTo(raw, |raw|);
    if s.lines != [] && Ruling(Cut(s.lines[0]), judge) == Refused then Refuses
    else if s.lines != [] && Ruling(Cut(s.lines[0]), judge) == Simple then Answers
    else if s.status == BodyRead then Complete
    else if s.status == ReadHeader && s.lines == [] && |raw| >= 5 && !KnownMethod(raw) then BadMethod
    else if EatenBytes(s.lines, ka) > EatenBytes(ScanTo(raw, p).lines, ka) then Again
    else if s.status == ReadHeader && !Zeroed(raw, s, p) then CutLine
    else MoreLater
  }

  /** What a call ends with that starts with `raw` received, and everything received by then. */
  ghost function CallEnding(raw: bytes, inputs: seq<Input>, judge: bytes -> Judgement, ka: bool, size: nat)
    : (r: (Ending, bytes))
    ensures raw <= r.1 && r.0 != Again
    decreases |inputs|
  {
    if inputs == [] then (Blocked, raw)
    else
      match inputs[0]
      case NotYet => (Blocked, raw)
      case ReadError => (Failed, raw)
      case Got(all) =>
        var room := size - (|raw| - EatenBytes(ScanTo(raw, |raw|).lines, ka));
        var data := if 0 <= room < |all| then all[..room] else all;
        if data == [] then (PeerClosed, raw)
        else
          var ending := RoundEnding(raw + data, |raw|, judge, ka);
          if ending == Again then CallEnding(raw + data, inputs[1..], judge, ka, size) else (ending, raw + data)
  }

  // ----- when a header is refused because of how it was cut

  /** A round that ends with a line end is never refused for its cut. */
  lemma LineEndsAreSafe(raw: bytes, p: nat, judge: bytes -> Judgement, ka: bool)
    requires p < |raw| && raw[|raw| - 1] == LF
    ensures RoundEnding(raw, p, judge, ka) !in {CutLine, BadMethod}
  {
    StatusSays(raw, |raw|);
  }

  /** Exactly which rounds are refused: no refusal and no empty line so far, no line eaten in the round, the round ends
      inside a line, and its first byte does not read as a NUL. */
  lemma CutLineExactly(raw: bytes, p: nat, judge: bytes -> Judgement, ka: bool)
    requires p < |raw|
    ensures var s := ScanTo(raw, |raw|);
      RoundEnding(raw, p, judge, ka) in {CutLine, BadMethod} <==>
        (s.lines != [] ==> Ruling(Cut(s.lines[0]), judge) == Full) && s.status == ReadHeader && !BlankBy(raw, |raw|) &&
        ((s.lines == [] && |raw| >= 5 && !KnownMethod(raw)) ||
         (EatenBytes(s.lines, ka) <= EatenBytes(ScanTo(raw, p).lines, ka) && !Zeroed(raw, s, p)))
  {
    StatusSays(raw, |raw|);
  }

  /** Exactly which rounds complete the header, and which end with the request line. */
  lemma CompleteExactly(raw: bytes, p: nat, judge: bytes -> Judgement, ka: bool)
    requires p < |raw|
    ensures var lines, ending := ScanTo(raw, |raw|).lines, RoundEnding(raw, p, judge, ka);
      (ending == Complete <==>
        BlankBy(raw, |raw|) && lines != [] && KnownMethod(Cut(lines[0])) && judge(Cut(lines[0])) == Full) &&
      (ending == Answers <==> lines != [] && KnownMethod(Cut(lines[0])) && judge(Cut(lines[0])) == Simple) &&
      (ending == Refuses <==> lines != [] && (!KnownMethod(Cut(lines[0])) || judge(Cut(lines[0])) == Refused))
  {
    hide EatenBytes, Zeroed, KnownMethod;
    StatusSays(raw, |raw|);
    if ScanTo(raw, |raw|).status == BodyRead { HasALine(raw, |raw|); }
  }

  /** What successive rounds end with, over any number of calls, when each reads one of the chunks. */
  ghost function ChunksEnding(raw: bytes, chunks: seq<bytes>, judge: bytes -> Judgement, ka: bool): Ending
    requires forall i :: 0 <= i < |chunks| ==> chunks[i] != []
    decreases |chunks|
  {
    if chunks == [] then MoreLater
    else
      var next := raw + chunks[0];
      var ending := RoundEnding(next, |raw|, judge, ka);
      if ending in {Again, MoreLater} then ChunksEnding(next, chunks[1..], judge, ka) else ending
  }

  function Joined(chunks: seq<bytes>): bytes {
    if chunks == [] then [] else chunks[0] + Joined(chunks[1..])
  }

  /** What `read` gives when every chunk fits. */
  function Arriving(chunks: seq<bytes>): (r: seq<Input>)
    ensures |r| == |chunks| && forall i :: 0 <= i < |chunks| ==> r[i] == Got(chunks[i])
  {
    if chunks == [] then [] else [Got(chunks[0])] + Arriving(chunks[1..])
  }

  lemma ArrivingTail(chunks: seq<bytes>)
    requires chunks != []
    ensures Arriving(chunks) == [Got(chunks[0])] + Arriving(chunks[1..]) && Arriving(chunks)[1..] == Arriving(chunks[1..])
  {
  }

  /** A call takes some of the arriving chunks, and the rest is for the next call. */
  lemma {:induction false} CallsAreRounds(raw: bytes, chunks: seq<bytes>, judge: bytes -> Judgement, ka: bool, size: nat)
    returns (n: nat)
    requires forall i :: 0 <= i < |chunks| ==> chunks[i] != []
    requires |raw| + |Joined(chunks)| <= size
    ensures n <= |chunks|
    ensures var call := CallEnding(raw, Arriving(chunks), judge, ka, size);
      call.1 == raw + Joined(chunks[..n]) &&
      ChunksEnding(raw, chunks, judge, ka) ==
        if call.0 in {MoreLater, Blocked} then ChunksEnding(call.1, chunks[n..], judge, ka) else call.0
    decreases |chunks|
  {
    hide RoundEnding, EatenBytes, ScanTo, Arriving;
    if chunks == [] {
      n := 0;
      assert raw + Joined(chunks[..0]) == raw && chunks[0..] == chunks;
    } else {
      var next := raw + chunks[0];
      ArrivingTail(chunks);
      if RoundEnding(next, |raw|, judge, ka) == Again {
        var m := CallsAreRounds(next, chunks[1..], judge, ka, size);
        n := m + 1;
        assert chunks[..n][1..] == chunks[1..][..m] && chunks[n..] == chunks[1..][m..];
        assert raw + Joined(chunks[..n]) == next + Joined(chunks[1..][..m]);
      } else {
        n := 1;
        assert chunks[..1][1..] == [] && chunks[0] + [] == chunks[0];
      }
    }
  }

  /** The ending that only the bytes decide. */
  ghost function WholeEnding(raw: bytes, judge: bytes -> Judgement): Ending {
    var s := ScanTo(raw, |raw|);
    if s.lines != [] && Ruling(Cut(s.lines[0]), judge) == Refused then Refuses
    else if s.lines != [] && Ruling(Cut(s.lines[0]), judge) == Simple then Answers
    else if BlankBy(raw, |raw|) then Complete
    else MoreLater
  }

  lemma WholeEndingStays(raw: bytes, more: bytes, judge: bytes -> Judgement)
    requires WholeEnding(raw, judge) != MoreLater
    ensures WholeEnding(raw + more, judge) == WholeEnding(raw, judge)
  {
    var all := raw + more;
    ScanStays(raw, more, |raw|);
    LinesStay(all, |raw|, |all|);
    StatusSays(raw, |raw|);
    StatusSays(all, |all|);
  }

  lemma RoundOfLines(raw: bytes, p: nat, judge: bytes -> Judgement, ka: bool)
    requires p < |raw| && raw[|raw| - 1] == LF
    ensures var e := RoundEnding(raw, p, judge, ka);
      if e in {Again, MoreLater} then WholeEnding(raw, judge) == MoreLater else e == WholeEnding(raw, judge) != MoreLater
  {
    StatusSays(raw, |raw|);
  }

  /** However a header is cut into chunks, as long as each ends with a line end, only its bytes decide how it ends. */
  lemma {:induction false} LineChunksAreFine(raw: bytes, chunks: seq<bytes>, judge: bytes -> Judgement, ka: bool)
    requires forall i :: 0 <= i < |chunks| ==> chunks[i] != [] && chunks[i][|chunks[i]| - 1] == LF
    requires WholeEnding(raw, judge) == MoreLater
    ensures ChunksEnding(raw, chunks, judge, ka) == WholeEnding(raw + Joined(chunks), judge)
    decreases |chunks|
  {
    if chunks == [] {
      assert raw + Joined(chunks) == raw;
    } else {
      var next, rest := raw + chunks[0], Joined(chunks[1..]);
      assert raw + Joined(chunks) == next + rest;
      assert next[|next| - 1] == LF;
      RoundOfLines(next, |raw|, judge, ka);
      if RoundEnding(next, |raw|, judge, ka) in {Again, MoreLater} {
        LineChunksAreFine(next, chunks[1..], judge, ka);
      } else {
        WholeEndingStays(next, rest, judge);
      }
    }
  }

  /** A first round that ends inside the request line is refused. */
  lemma CutRequestLine(cut: bytes, judge: bytes -> Judgement, ka: bool)
    requires cut != [] && cut[0] != 0 && forall i :: 0 <= i < |cut| ==> cut[i] != LF && cut[i] != CR
    ensures RoundEnding(cut, 0, judge, ka) in {CutLine, BadMethod}
  {
    PlainStart(cut, |cut|);
    NotYetZeroed(cut, |cut|, 0);
  }

  /** A request line and an empty line. */
  lemma WholeRequest(line: bytes, judge: bytes -> Judgement)
    requires NoNul(line) && forall i :: 0 <= i < |line| ==> line[i] != LF && line[i] != CR
    requires Ruling(line, judge) == Full
    ensures WholeEnding(line + [LF, LF], judge) == Complete
  {
    hide ScanTo;
    var all, n := line + [LF, LF], |line|;
    PlainStart(all, n);
    ScanStep(all, n);
    assert all[0..n] == line;
    LinesStay(all, n + 1, n + 2);
    assert ScanTo(all, n + 2).lines[0] == line;
    NoNulInside(line);
    assert EndsBlank(all, n + 2);
  }

  /** The same request, read at once and read in two parts cut anywhere inside its first line. */
  lemma CutsMatter(line: bytes, n: nat, judge: bytes -> Judgement, ka: bool)
    requires 0 < n < |line| && NoNul(line) && forall i :: 0 <= i < |line| ==> line[i] != LF && line[i] != CR
    requires Ruling(line, judge) == Full
    ensures ChunksEnding([], [line + [LF, LF]], judge, ka) == Complete
    ensures ChunksEnding([], [line[..n], line[n..] + [LF, LF]], judge, ka) in {CutLine, BadMethod}
  {
    hide RoundEnding;
    WholeRequest(line, judge);
    NothingYet(judge);
    LineChunksAreFine([], [line + [LF, LF]], judge, ka);
    var all: bytes, none: bytes := line + [LF, LF], [];
    assert [all][1..] == [] && all + none == all && none + all == all;
    assert [] + line[..n] == line[..n];
    CutRequestLine(line[..n], judge, ka);
  }

  lemma NothingYet(judge: bytes -> Judgement)
    ensures WholeEnding([], judge) == MoreLater
  {
  }

  lemma {:induction false} PlainStart(raw: bytes, k: nat)
    requires k <= |raw| && forall i :: 0 <= i < k ==> raw[i] != LF && raw[i] != CR
    ensures ScanTo(raw, k).status == ReadHeader && ScanTo(raw, k).start == 0 && ScanTo(raw, k).lines == []
    decreases k
  {
    if k > 0 { PlainStart(raw, k - 1); }
  }

  lemma {:induction false} NoNulInside(s: bytes)
    requires NoNul(s)
    ensures Cut(s) == s
  {
    if s != [] { NoNulInside(s[1..]); }
  }
}
