/** A POST request from its first byte to the file that holds its body: `read_header`, then `read_body` and `write_body`. */
module PostBody {
  import opened Bytes
  import opened Transfers
  import opened HeaderScan
  import opened HeaderOptions
  import opened HeaderRun
  import opened HeaderReader
  import opened ContentLength
  import B = BodySpool

  /** A length that is known is not negative: a negative one is not recorded. */
  lemma {:induction false} LengthIsNat(lines: seq<bytes>, ka: bool)
    ensures var o := AbsorbAll(lines, ka); CONTENT_LENGTH in o.fields ==> Atoi(o.fields[CONTENT_LENGTH]) >= 0
    decreases |lines|
  {
    if lines != [] { LengthIsNat(lines[..|lines| - 1], ka); }
  }

  lemma LengthOfLines(lines: seq<bytes>, ka: bool)
    ensures LengthOf(OptionsOf(lines, ka)) >= 0
  {
    if lines != [] { LengthIsNat(lines[1..], ka); }
  }

  /** The body behind the header: `spool` holds `first` and what came later, and once it has handed the file over, the
      file holds all of that, unless the upload limit was passed. */
  ghost predicate Spooled(spool: B.Spool, first: bytes, length: int)
    reads spool, spool.buffer
  {
    spool.Valid() && spool.filesize == length && first <= spool.received &&
    (spool.status == B.HandedOver && |spool.received| <= spool.g_max_upload_size ==>
      spool.spooled == spool.received && first <= spool.spooled) &&
    (0 < length && |first| <= length ==> |spool.received| <= length) &&
    (spool.status == B.HandedOver && !spool.eof ==> |spool.received| >= length)
  }

  /** The header ends at `at`, behind the first empty line, and its first line is a POST request. */
  ghost predicate PostHeader(raw: bytes, at: nat) {
    at <= |raw| && EndsBlank(raw, at) && (forall j :: 0 <= j < at ==> !EndsBlank(raw, j)) &&
    ScanTo(raw, at).lines != [] && HasPrefix(Cut(ScanTo(raw, at).lines[0]), POST)
  }

  /** What the header says the length of the body is. */
  ghost function Announced(raw: bytes, at: nat, ka: bool): int
    requires at <= |raw|
  {
    LengthOf(OptionsOf(ScanTo(raw, at).lines, ka))
  }

  /** The length announced is the number that the first line naming a length begins with, and 0 without such a line. */
  lemma AnnouncedIs(raw: bytes, at: nat, ka: bool)
    requires at <= |raw|
    ensures forall n :: FirstLengthIs(ScanTo(raw, at).lines, n) ==> Announced(raw, at, ka) == n
    ensures (forall j :: 0 < j < |ScanTo(raw, at).lines| ==> !NamesLength(ScanTo(raw, at).lines[j])) ==>
      Announced(raw, at, ka) == 0
  {
    hide OptionsOf, FirstLengthIs, NamesLength, ScanTo;
    var lines := ScanTo(raw, at).lines;
    forall n | FirstLengthIs(lines, n) ensures Announced(raw, at, ka) == n {
      FirstLengthCounts(lines, ka, n);
    }
    if forall j :: 0 < j < |lines| ==> !NamesLength(lines[j]) {
      NoLengthCounts(lines, ka);
    }
  }

  /** The bounds for the body: the buffer is as long as the stream, and the header announces the length. */
  ghost function BodyLimits(raw: bytes, at: nat, ka: bool, size: nat, max: int): B.Limits
    requires at <= |raw|
  {
    LengthOfLines(ScanTo(raw, at).lines, ka);
    B.Limits(size, Announced(raw, at, ka), max)
  }

  /** The body behind the header at `at`, after the calls that `more` and `outputs` stand for. */
  ghost function BodyRun(raw: bytes, at: nat, more: seq<Input>, outputs: seq<Output>, l: B.Limits): B.Body
    requires at <= |raw| && |more| == |outputs|
  {
    B.BodyAfter(B.Start(raw[at..], l.length), more, outputs, l)
  }

  /** Reads the header, and for a POST the body too; `inputs` and `ok` as for `Read`, `more` and `outputs` as for `Run`. */
  method Receive(reader: Reader, inputs: seq<Input>, ok: bool, max: int, more: seq<Input>, outputs: seq<Output>)
    returns (ending: Ending, spool: B.Spool?, retval: int, ghost at: nat)
    requires reader.Scanned(reader.client_stream_pos) && reader.status != BodyRead && |more| == |outputs|
    requires forall i :: 0 <= i < |inputs| && inputs[i].Got? ==> |inputs[i].data| < reader.stream.Length
    modifies reader, reader.stream, reader.body
    ensures (ending, reader.raw) == CallEnding(old(reader.raw), inputs, reader.judge, reader.ka, reader.stream.Length)
    ensures spool != null ==> ending == Complete && PostHeader(reader.raw, at)
    ensures spool != null ==> Spooled(spool, reader.raw[at..], Announced(reader.raw, at, reader.ka))
    ensures spool != null ==> (
      spool.Now(retval) ==
        BodyRun(reader.raw, at, more, outputs, BodyLimits(reader.raw, at, reader.ka, reader.stream.Length, max)))
    ensures ending == Complete && ok && PostHeader(reader.raw, at) ==> spool != null
    ensures spool != null ==> (
      forall n :: FirstLengthIs(ScanTo(reader.raw, at).lines, n) ==> spool.filesize == n)
  {
    hide ScanTo, FirstLengthIs, CallEnding, Reader.HandedOff, Reader.Scanned, PostHeader, BodyRun, BodyLimits, Announced, Spooled;
    spool, retval := null, 0;
    ending, at := reader.Read(inputs, ok);
    if ending == Complete {
      IsPost(reader, at, ok);
      if ok && reader.post {
        spool, retval := SpoolBody(reader, max, more, outputs, at);
        FilesizeIs(spool, reader.raw, at, reader.ka);
      }
    }
  }

  lemma FilesizeIs(spool: B.Spool, raw: bytes, at: nat, ka: bool)
    requires at <= |raw| && Spooled(spool, raw[at..], Announced(raw, at, ka))
    ensures forall n :: FirstLengthIs(ScanTo(raw, at).lines, n) ==> spool.filesize == n
  {
    hide ScanTo, FirstLengthIs, Announced;
    AnnouncedIs(raw, at, ka);
  }

  lemma IsPost(reader: Reader, at: nat, ok: bool)
    requires reader.HandedOff(at, ok)
    ensures at <= |reader.raw| && (PostHeader(reader.raw, at) <==> reader.post)
  {
    hide ScanTo, OptionsOf, EndsBlank, Reader.Known, Cut, Ruling, Holds;
  }

  /** The buffer that the header's last chunk left goes on as the body's buffer. */
  method SpoolBody(reader: Reader, max: int, more: seq<Input>, outputs: seq<Output>, ghost at: nat)
    returns (spool: B.Spool, retval: int)
    requires reader.HandedOff(at, true) && reader.post && |more| == |outputs|
    modifies reader.body
    ensures at <= |reader.raw| && Spooled(spool, reader.raw[at..], Announced(reader.raw, at, reader.ka))
    ensures spool.Now(retval) ==
      BodyRun(reader.raw, at, more, outputs, BodyLimits(reader.raw, at, reader.ka, reader.stream.Length, max))
  {
    hide ScanTo, OptionsOf, EndsBlank, Reader.Known, LengthOf, Cut, Ruling, B.BodyAfter;
    LengthOfLines(ScanTo(reader.raw, at).lines, reader.ka);
    spool := new B.Spool.TakeOver(reader.body, reader.stream.Length, reader.filesize, max, reader.filepos,
      reader.raw[at..]);
    retval := spool.Run(more, outputs);
  }

  /** A POST with an announced length: once the file is handed over, what was received is exactly the body, the bytes
      behind the empty line and then the next ones of the connection up to that length, or to its end; up to the upload
      limit the file holds all of it. At any time the body so far is a part of that, the bytes behind the empty line
      followed by what was taken from the connection since. */
  lemma FileIsTheBody(raw: bytes, at: nat, source: bytes, more: seq<Input>, outputs: seq<Output>, l: B.Limits)
    requires at <= |raw| && |more| == |outputs| && 0 < l.length
    requires B.Supplies(source, B.Start(raw[at..], l.length), more, outputs, l)
    ensures var r := BodyRun(raw, at, more, outputs, l);
      r.received <= raw[at..] + source &&
      r.received == raw[at..] + B.Taken(B.Start(raw[at..], l.length), more, outputs, l) &&
      (r.status == B.HandedOver && |raw[at..]| < l.length ==> r.received == B.FirstOf(raw[at..] + source, l.length)) &&
      (r.status == B.HandedOver && |r.received| <= l.max ==> r.spooled == r.received)
  {
    hide B.BodyAfter, B.Taken, B.Supplies;
    B.FileHoldsTheBody(source, raw[at..], more, outputs, l);
    B.RunReceives(B.Start(raw[at..], l.length), more, outputs, l);
  }

  /** When reads and writes neither block nor fail, the body is handed over, after so many calls at the latest: what
      stands behind the header and then the next bytes of the connection, up to the announced length or to its end. */
  lemma BodyArrives(raw: bytes, at: nat, source: bytes, more: seq<Input>, outputs: seq<Output>, l: B.Limits)
    requires at <= |raw| && |more| == |outputs| && 0 < l.length && l.size > 0
    requires B.Cooperates(source, B.Start(raw[at..], l.length), more, outputs, l)
    requires |more| >= 4 * |source| + 3 * (|raw| - at) + 4
    ensures var r := BodyRun(raw, at, more, outputs, l);
      r.status == B.HandedOver && (|r.received| <= l.max ==> r.spooled == r.received) &&
      r.received == if |raw| - at >= l.length then raw[at..] else B.FirstOf(raw[at..] + source, l.length)
  {
    B.BodyArrives(source, raw[at..], more, outputs, l);
  }
}
