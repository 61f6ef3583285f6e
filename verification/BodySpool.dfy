/** A POST body on its way from the socket through a buffer into a temporary file. */
module BodySpool {
  import opened Bytes
  import opened Transfers

  datatype Status = BodyRead | BodyWrite | HandedOver

  // ----- the body on values

  /** The body so far, how much of it is where, and what the last call returned; `dropped` counts the bytes thrown away
      because the body is too long. */
  datatype Body = Body(status: Status, closing: bool, pending: bytes, received: bytes, spooled: bytes, dropped: nat,
    eof: bool, retval: int)

  /** The size of the buffer, the Content-Length (0 when none was given), and the upload limit. */
  datatype Limits = Limits(size: nat, length: nat, max: int)

  /** What `read_header` leaves behind. */
  function Start(first: bytes, length: nat): Body { Body(BodyRead, |first| >= length, first, first, [], 0, false, 1) }

  function WantedOf(s: Body, l: Limits): int {
    var room := l.size - |s.pending|;
    if l.length != 0 && l.length - |s.received| < room then l.length - |s.received| else room
  }

  /** `read_body` */
  function ReadStep(s: Body, input: Input, l: Limits): Body
    requires s.status == BodyRead
  {
    var wanted := WantedOf(s, l);
    if wanted <= 0 then s.(status := BodyWrite, retval := 1)
    else
      match CutInput(input, wanted)
      case ReadError => s.(retval := 0)
      case NotYet => if l.length != 0 then s.(retval := -1) else s.(status := BodyWrite, retval := 1)
      case Got(data) =>
        s.(status := if data == [] || |data| == wanted then BodyWrite else BodyRead,
           closing := s.closing || data == [], eof := s.eof || data == [],
           pending := s.pending + data, received := s.received + data, retval := 1)
  }

  /** `write_body` */
  function WriteStep(s: Body, output: Output, l: Limits): Body
    requires s.status == BodyWrite
  {
    if s.pending == [] then
      if s.closing || |s.received| >= l.length then s.(status := HandedOver, retval := 1)
      else s.(status := BodyRead, retval := 1)
    else if |s.received| > l.max then s.(dropped := s.dropped + |s.pending|, pending := [], retval := 1)
    else
      match CutOutput(output, |s.pending|)
      case WouldBlock => s.(retval := -1)
      case WriteError => s.(retval := -2)
      case Wrote(n) => s.(spooled := s.spooled + s.pending[..n], pending := s.pending[n..], retval := 1)
  }

  lemma ReadCut(s: Body, input: Input, l: Limits)
    requires s.status == BodyRead
    ensures forall r :: s.(retval := r).status == BodyRead ==> ReadStep(s.(retval := r), input, l) == ReadStep(s, input, l)
    ensures WantedOf(s, l) > 0 ==> ReadStep(s, CutInput(input, WantedOf(s, l)), l) == ReadStep(s, input, l)
  {
  }

  lemma WriteCut(s: Body, output: Output, l: Limits)
    requires s.status == BodyWrite
    ensures forall r :: WriteStep(s.(retval := r), output, l) == WriteStep(s, output, l)
    ensures WriteStep(s, CutOutput(output, |s.pending|), l) == WriteStep(s, output, l)
  {
  }

  /** The request is closed, or the body handed over. */
  predicate IsOver(s: Body) { s.status == HandedOver || s.retval in {0, -2} }

  /** The call that the status asks for. */
  function Step(s: Body, input: Input, output: Output, l: Limits): Body
    requires !IsOver(s)
  {
    if s.status == BodyRead then ReadStep(s, input, l) else WriteStep(s, output, l)
  }

  /** Any run: calls until it is over, or until `inputs` and `outputs` are used up. */
  function BodyAfter(s: Body, inputs: seq<Input>, outputs: seq<Output>, l: Limits): Body
    requires |inputs| == |outputs|
    decreases |inputs|
  {
    if inputs == [] || IsOver(s) then s
    else BodyAfter(Step(s, inputs[0], outputs[0], l), inputs[1..], outputs[1..], l)
  }

  /** What one call takes from the socket. */
  function TakenBy(s: Body, input: Input, l: Limits): bytes {
    if s.status == BodyRead && WantedOf(s, l) > 0 && input.Got? then CutInput(input, WantedOf(s, l)).data else []
  }

  /** What a run takes from the socket, in order. */
  function Taken(s: Body, inputs: seq<Input>, outputs: seq<Output>, l: Limits): bytes
    requires |inputs| == |outputs|
    decreases |inputs|
  {
    if inputs == [] || IsOver(s) then []
    else TakenBy(s, inputs[0], l) + Taken(Step(s, inputs[0], outputs[0], l), inputs[1..], outputs[1..], l)
  }

  /** What is received is what was there at first and what was taken since. */
  lemma {:induction false} RunReceives(s: Body, inputs: seq<Input>, outputs: seq<Output>, l: Limits)
    requires |inputs| == |outputs|
    ensures BodyAfter(s, inputs, outputs, l).received == s.received + Taken(s, inputs, outputs, l)
    decreases |inputs|
  {
    hide Step, TakenBy, IsOver;
    if inputs == [] || IsOver(s) {
      assert s.received + [] == s.received;
    } else {
      var data, next := TakenBy(s, inputs[0], l), Step(s, inputs[0], outputs[0], l);
      OneReceives(s, inputs[0], outputs[0], l);
      RunReceives(next, inputs[1..], outputs[1..], l);
      Concat3(s.received, data, Taken(next, inputs[1..], outputs[1..], l));
    }
  }

  lemma OneReceives(s: Body, input: Input, output: Output, l: Limits)
    requires !IsOver(s)
    ensures Step(s, input, output, l).received == s.received + TakenBy(s, input, l)
    ensures Step(s, input, output, l).eof ==> s.eof || TakenBy(s, input, l) == []
  {
    assert s.received + [] == s.received;
  }

  /** What holds of every body on its way: nothing is lost up to the upload limit, and the body is handed over only when it
      is complete or the peer has closed, with nothing pending. */
  ghost predicate Sound(s: Body, l: Limits) {
    |s.received| == |s.spooled| + s.dropped + |s.pending| &&
    (|s.received| <= l.max ==> s.spooled + s.pending == s.received) && (s.dropped > 0 ==> |s.received| > l.max) &&
    (s.closing ==> s.eof || |s.received| >= l.length) &&
    (s.status == HandedOver ==> s.pending == [] && (|s.received| >= l.length || s.eof))
  }

  lemma StartIsSound(first: bytes, l: Limits)
    ensures Sound(Start(first, l.length), l)
  {
    assert [] + first == first;
  }

  lemma StepIsSound(s: Body, input: Input, output: Output, l: Limits)
    requires Sound(s, l) && !IsOver(s)
    ensures Sound(Step(s, input, output, l), l) && s.spooled <= Step(s, input, output, l).spooled
  {
    if s.status == BodyRead {
      if WantedOf(s, l) > 0 && input.Got? {
        var data := CutInput(input, WantedOf(s, l)).data;
        assert s.spooled + (s.pending + data) == s.spooled + s.pending + data;
      }
    } else if s.pending != [] && output.Wrote? {
      var n := CutOutput(output, |s.pending|).n;
      assert s.spooled + s.pending[..n] + s.pending[n..] == s.spooled + s.pending;
    }
  }

  lemma {:induction false} RunIsSound(s: Body, inputs: seq<Input>, outputs: seq<Output>, l: Limits)
    requires |inputs| == |outputs| && Sound(s, l)
    ensures Sound(BodyAfter(s, inputs, outputs, l), l) && s.spooled <= BodyAfter(s, inputs, outputs, l).spooled
    decreases |inputs|
  {
    hide Step, Sound, IsOver;
    if inputs != [] && !IsOver(s) {
      StepIsSound(s, inputs[0], outputs[0], l);
      RunIsSound(Step(s, inputs[0], outputs[0], l), inputs[1..], outputs[1..], l);
    }
  }

  /** A known length is not passed; a body that has it is left alone. */
  lemma {:induction false} NoMoreThanAnnounced(s: Body, inputs: seq<Input>, outputs: seq<Output>, l: Limits)
    requires |inputs| == |outputs| && 0 < l.length
    ensures |s.received| >= l.length ==> Taken(s, inputs, outputs, l) == []
    ensures |s.received| <= l.length ==> |BodyAfter(s, inputs, outputs, l).received| <= l.length
    decreases |inputs|
  {
    hide Step, IsOver;
    if inputs != [] && !IsOver(s) {
      OneReceives(s, inputs[0], outputs[0], l);
      NoMoreThanAnnounced(Step(s, inputs[0], outputs[0], l), inputs[1..], outputs[1..], l);
    }
  }

  /** The reads of a run get `source`, in portions, and an empty read comes only at its end. */
  ghost predicate Supplies(source: bytes, s: Body, inputs: seq<Input>, outputs: seq<Output>, l: Limits)
    requires |inputs| == |outputs|
    decreases |inputs|
  {
    inputs == [] || IsOver(s) ||
    var data, next := TakenBy(s, inputs[0], l), Step(s, inputs[0], outputs[0], l);
    data <= source && (next.eof ==> s.eof || source == []) &&
    Supplies(source[|data|..], next, inputs[1..], outputs[1..], l)
  }

  lemma {:induction false} TakesFromSource(source: bytes, s: Body, inputs: seq<Input>, outputs: seq<Output>, l: Limits)
    requires |inputs| == |outputs| && Supplies(source, s, inputs, outputs, l) && (s.eof ==> source == [])
    ensures var taken := Taken(s, inputs, outputs, l);
      taken <= source && (BodyAfter(s, inputs, outputs, l).eof ==> taken == source)
    decreases |inputs|
  {
    hide Step, TakenBy, IsOver;
    if inputs != [] && !IsOver(s) {
      var data, next := TakenBy(s, inputs[0], l), Step(s, inputs[0], outputs[0], l);
      TakesFromSource(source[|data|..], next, inputs[1..], outputs[1..], l);
      assert data + source[|data|..] == source;
    }
  }

  /** The first `n` bytes, or all if there are not so many. */
  function FirstOf(s: bytes, n: nat): bytes { if n <= |s| then s[..n] else s }

  /** A body of announced length that has been handed over is exactly what the peer sent, up to that length: what came with
      the header, and then the next bytes of the connection. Up to the upload limit the file holds all of it. */
  lemma FileHoldsTheBody(source: bytes, first: bytes, inputs: seq<Input>, outputs: seq<Output>, l: Limits)
    requires |inputs| == |outputs| && 0 < l.length
    requires Supplies(source, Start(first, l.length), inputs, outputs, l)
    ensures var r := BodyAfter(Start(first, l.length), inputs, outputs, l);
      r.received <= first + source &&
      (r.status == HandedOver ==>
        r.received == (if |first| >= l.length then first else FirstOf(first + source, l.length)) &&
        (|r.received| <= l.max ==> r.spooled == r.received))
  {
    hide BodyAfter, Taken, Supplies;
    var s := Start(first, l.length);
    StartIsSound(first, l);
    RunIsSound(s, inputs, outputs, l);
    RunReceives(s, inputs, outputs, l);
    NoMoreThanAnnounced(s, inputs, outputs, l);
    TakesFromSource(source, s, inputs, outputs, l);
    var r, taken := BodyAfter(s, inputs, outputs, l), Taken(s, inputs, outputs, l);
    assert first + source == first + taken + source[|taken|..];
    assert r.pending == [] ==> r.spooled + r.pending == r.spooled;
    assert first + [] == first;
  }

  // ----- progress

  /** Reads and writes that neither block nor fail: a read gets at least one byte of `source`, or nothing at its end, and
      a write moves at least one byte. */
  ghost predicate Cooperates(source: bytes, s: Body, inputs: seq<Input>, outputs: seq<Output>, l: Limits)
    requires |inputs| == |outputs|
    decreases |inputs|
  {
    inputs == [] || IsOver(s) ||
    var data := TakenBy(s, inputs[0], l);
    (s.status == BodyRead && WantedOf(s, l) > 0 ==> inputs[0].Got? && data <= source && (data == [] ==> source == [])) &&
    (s.status == BodyWrite && s.pending != [] ==> outputs[0].Wrote? && outputs[0].n > 0) &&
    Cooperates(source[|data|..], Step(s, inputs[0], outputs[0], l), inputs[1..], outputs[1..], l)
  }

  /** How many calls are enough, with `left` bytes still to come. */
  function CallsLeft(s: Body, left: nat, l: Limits): nat {
    if s.status == BodyRead then 4 * left + 3 * |s.pending| + 4
    else if s.closing || |s.received| >= l.length then |s.pending| + 1
    else 4 * left + |s.pending| + 5
  }

  lemma FewerCallsLeft(source: bytes, s: Body, input: Input, output: Output, l: Limits)
    requires !IsOver(s) && l.size > 0 && Cooperates(source, s, [input], [output], l)
    ensures var next := Step(s, input, output, l);
      |TakenBy(s, input, l)| <= |source| &&
      if IsOver(next) then next.status == HandedOver
      else CallsLeft(next, |source| - |TakenBy(s, input, l)|, l) < CallsLeft(s, |source|, l)
  {
  }

  /** With such reads and writes the body is handed over, after so many calls at the latest. */
  lemma {:induction false} Ends(source: bytes, s: Body, inputs: seq<Input>, outputs: seq<Output>, l: Limits)
    requires |inputs| == |outputs| && !IsOver(s) && l.size > 0
    requires Cooperates(source, s, inputs, outputs, l) && |inputs| >= CallsLeft(s, |source|, l)
    ensures BodyAfter(s, inputs, outputs, l).status == HandedOver
    decreases |inputs|
  {
    hide Step, TakenBy, WantedOf;
    FirstCooperates(source, s, inputs, outputs, l);
    FewerCallsLeft(source, s, inputs[0], outputs[0], l);
    var data, next := TakenBy(s, inputs[0], l), Step(s, inputs[0], outputs[0], l);
    if !IsOver(next) {
      Ends(source[|data|..], next, inputs[1..], outputs[1..], l);
    }
  }

  lemma FirstCooperates(source: bytes, s: Body, inputs: seq<Input>, outputs: seq<Output>, l: Limits)
    requires |inputs| == |outputs| && inputs != [] && Cooperates(source, s, inputs, outputs, l)
    ensures Cooperates(source, s, [inputs[0]], [outputs[0]], l)
  {
    hide Step, TakenBy, WantedOf, IsOver;
  }

  lemma {:induction false} CooperatesSupplies(source: bytes, s: Body, inputs: seq<Input>, outputs: seq<Output>, l: Limits)
    requires |inputs| == |outputs| && Cooperates(source, s, inputs, outputs, l)
    ensures Supplies(source, s, inputs, outputs, l)
    decreases |inputs|
  {
    if inputs != [] && !IsOver(s) {
      var data := TakenBy(s, inputs[0], l);
      CooperatesSupplies(source[|data|..], Step(s, inputs[0], outputs[0], l), inputs[1..], outputs[1..], l);
    }
  }

  /** A body of announced length is handed over, exactly as it was sent. */
  lemma BodyArrives(source: bytes, first: bytes, inputs: seq<Input>, outputs: seq<Output>, l: Limits)
    requires |inputs| == |outputs| && 0 < l.length && l.size > 0
    requires Cooperates(source, Start(first, l.length), inputs, outputs, l)
    requires |inputs| >= 4 * |source| + 3 * |first| + 4
    ensures var r := BodyAfter(Start(first, l.length), inputs, outputs, l);
      r.status == HandedOver &&
      r.received == (if |first| >= l.length then first else FirstOf(first + source, l.length)) &&
      (|r.received| <= l.max ==> r.spooled == r.received)
  {
    Ends(source, Start(first, l.length), inputs, outputs, l);
    CooperatesSupplies(source, Start(first, l.length), inputs, outputs, l);
    FileHoldsTheBody(source, first, inputs, outputs, l);
  }

  /** Such runs exist, of any length and for whatever is still to come. */
  lemma {:induction false} RunsCooperate(source: bytes, s: Body, l: Limits, n: nat)
      returns (inputs: seq<Input>, outputs: seq<Output>)
    ensures |inputs| == |outputs| == n && Cooperates(source, s, inputs, outputs, l)
    decreases n
  {
    if n == 0 {
      inputs, outputs := [], [];
    } else if IsOver(s) {
      inputs, outputs := seq(n, _ => NotYet), seq(n, _ => WouldBlock);
    } else {
      var input := Got(if source == [] then [] else source[..1]);
      var data := TakenBy(s, input, l);
      var more, more' := RunsCooperate(source[|data|..], Step(s, input, Wrote(1), l), l, n - 1);
      inputs, outputs := [input] + more, [Wrote(1)] + more';
      assert inputs[1..] == more && outputs[1..] == more';
    }
  }

  // ----- the body in its buffer

  lemma NotCut(input: Input, n: int)
    ensures n > 0 && (input.Got? ==> |input.data| <= n) ==> CutInput(input, n) == input
  {
  }

  class Spool {
    const buffer: array<byte>
    const buffer_size: nat
    const filesize: nat          // the Content-Length, or 0 when none was given
    const g_max_upload_size: int
    var header_line: nat
    var header_end: nat
    var filepos: nat
    var status: Status
    var cgi_close: bool
    ghost var pending: bytes     // [header_line, header_end)
    ghost var received: bytes    // the body so far
    ghost var spooled: bytes     // what has reached the file
    ghost var dropped: nat       // what was thrown away because the body is too long
    ghost var eof: bool          // the peer has closed

    /** The body as a value. */
    ghost function Now(retval: int): Body
      reads this
    {
      Body(status, cgi_close, pending, received, spooled, dropped, eof, retval)
    }

    function Bounds(): Limits { Limits(buffer_size, filesize, g_max_upload_size) }

    ghost predicate Valid()
      reads this, buffer
    {
      buffer.Length == buffer_size + 1 && header_line <= header_end <= buffer_size &&
      |pending| == header_end - header_line &&
      (forall i :: header_line <= i < header_end ==> buffer[i] == pending[i - header_line]) &&
      filepos == |received| == |spooled| + dropped + |pending| &&
      (filepos <= g_max_upload_size ==> spooled + pending == received) &&
      (dropped > 0 ==> filepos > g_max_upload_size) &&
      (status == BodyRead ==> header_line == 0) &&
      (cgi_close ==> eof || filepos >= filesize) &&
      (status == HandedOver ==> pending == [] && (filepos >= filesize || eof))
    }

    /** What `read_header` leaves behind: the body bytes that came with the header are already in the buffer. */
    constructor (buffer_size: nat, filesize: nat, g_max_upload_size: int, first: bytes)
      requires |first| <= buffer_size
      ensures Valid() && fresh(buffer) && Now(1) == Start(first, filesize)
      ensures Bounds() == Limits(buffer_size, filesize, g_max_upload_size)
    {
      var b := new byte[buffer_size + 1];
      forall i | 0 <= i < |first| { b[i] := first[i]; }
      buffer, this.buffer_size, this.filesize, this.g_max_upload_size := b, buffer_size, filesize, g_max_upload_size;
      header_line, header_end, filepos, status := 0, |first|, |first|, BodyRead;
      cgi_close := |first| >= filesize;
      pending, received, spooled, dropped, eof := first, first, [], 0, false;
    }

    /** The same, with the buffer that `read_header` filled. */
    constructor TakeOver(buffer: array<byte>, buffer_size: nat, filesize: nat, g_max_upload_size: int, filepos: nat,
        ghost first: bytes)
      requires buffer.Length == buffer_size + 1 && filepos == |first| <= buffer_size
      requires forall i :: 0 <= i < |first| ==> buffer[i] == first[i]
      ensures Valid() && this.buffer == buffer && Now(1) == Start(first, filesize)
      ensures Bounds() == Limits(buffer_size, filesize, g_max_upload_size)
    {
      this.buffer, this.buffer_size, this.filesize, this.g_max_upload_size := buffer, buffer_size, filesize, g_max_upload_size;
      header_line, header_end, this.filepos, status := 0, filepos, filepos, BodyRead;
      cgi_close := filepos >= filesize;
      pending, received, spooled, dropped, eof := first, first, [], 0, false;
    }

    function Wanted(): int
      reads this
    {
      var room := buffer_size - (header_end - header_line);
      if filesize != 0 && filesize - filepos < room then filesize - filepos else room
    }

    lemma AsWanted()
      requires Valid()
      ensures WantedOf(Now(1), Bounds()) == Wanted() && |pending| == header_end - header_line
    {
    }

    lemma WantedFits()
      requires Valid() && status == BodyRead
      ensures Wanted() <= buffer_size - header_end && (filesize != 0 ==> Wanted() <= filesize - filepos)
    {
    }

    /** `read_body`, given what `read` will do with up to `Wanted()` bytes. */
    method ReadBody(input: Input) returns (retval: int)
      requires Valid() && status == BodyRead
      requires input.Got? && Wanted() > 0 ==> |input.data| <= Wanted()
      modifies this, buffer
      ensures Now(retval) == ReadStep(old(Now(1)), input, Bounds())
      ensures Valid() && spooled == old(spooled) && dropped == old(dropped) && status != HandedOver
      ensures received == old(received) + if input.Got? && old(Wanted()) > 0 then input.data else []
      ensures eof == (old(eof) || (old(Wanted()) > 0 && input == Got([])))
      ensures filesize != 0 && old(filepos) <= filesize ==> filepos <= filesize
      ensures retval == 0 <==> input == ReadError && old(Wanted()) > 0
      ensures retval == -1 <==> input == NotYet && old(Wanted()) > 0 && filesize != 0
    {
      hide WantedOf, CutInput;
      AsWanted();
      WantedFits();
      NotCut(input, Wanted());
      var bytes_to_read := Wanted();
      if bytes_to_read <= 0 {
        status := BodyWrite;
        return 1;
      }
      match input
      case ReadError => retval := 0;
      case NotYet =>
        if filesize != 0 {
          return -1;
        }
        status := BodyWrite;
        retval := 1;
      case Got(data) =>
        if |data| == 0 {
          status, cgi_close, eof := BodyWrite, true, true;
        }
        Store(data);
        if |data| == bytes_to_read {
          status := BodyWrite;
        }
        retval := 1;
    }

    method Store(data: bytes)
      requires Valid() && status != HandedOver && header_end + |data| <= buffer_size
      modifies buffer, this`header_end, this`filepos, this`pending, this`received
      ensures Valid() && received == old(received) + data && filepos == old(filepos) + |data|
      ensures pending == old(pending) + data
    {
      forall i | 0 <= i < |data| { buffer[header_end + i] := data[i]; }
      header_end, filepos := header_end + |data|, filepos + |data|;
      assert spooled + (pending + data) == spooled + pending + data;
      pending, received := pending + data, received + data;
    }

    /** `write_body`; the hand-over to the form handler is the last step. */
    method WriteBody(output: Output) returns (retval: int)
      requires Valid() && status == BodyWrite
      requires output.Wrote? ==> output.n <= header_end - header_line
      modifies this
      ensures Now(retval) == WriteStep(old(Now(1)), output, Bounds())
      ensures Valid() && received == old(received) && eof == old(eof) && filepos == old(filepos)
      ensures status == HandedOver ==> |spooled| + dropped == |received| && (filepos >= filesize || eof)
      ensures status == HandedOver && filepos <= g_max_upload_size ==> spooled == received
      ensures old(spooled) <= spooled
      ensures old(filepos) <= g_max_upload_size ==> spooled == old(spooled) + if output.Wrote? then old(pending)[..output.n] else []
      ensures old(filepos) > g_max_upload_size ==> spooled == old(spooled)
      ensures retval == -1 <==> output == WouldBlock && old(pending) != [] && filepos <= g_max_upload_size
      ensures retval == -2 <==> output == WriteError && old(pending) != [] && filepos <= g_max_upload_size
    {
      var bytes_to_write := header_end - header_line;
      if bytes_to_write == 0 {
        header_line, header_end := 0, 0;
        if cgi_close || filepos >= filesize {
          status := HandedOver;
          return 1;
        }
        status := BodyRead;
        return 1;
      }
      if filepos <= g_max_upload_size {
        match output {
          case WouldBlock => return -1;
          case WriteError => return -2;
          case Wrote(n) =>
            header_line := header_line + n;
            assert spooled + pending[..n] + pending[n..] == spooled + pending;
            spooled, pending := spooled + pending[..n], pending[n..];
        }
      } else {
        header_line := header_line + bytes_to_write;
        dropped, pending := dropped + |pending|, [];
      }
      retval := 1;
    }

    /** Any run up to the hand-over, over any portions that `read` and `write` choose. */
    method Run(inputs: seq<Input>, outputs: seq<Output>) returns (retval: int)
      requires Valid() && status != HandedOver && |inputs| == |outputs|
      modifies this, buffer
      ensures Valid() && Now(retval) == BodyAfter(old(Now(1)), inputs, outputs, Bounds())
      ensures received == old(received) + Taken(old(Now(1)), inputs, outputs, Bounds())
      ensures filesize != 0 && old(filepos) <= filesize ==> filepos <= filesize
      ensures status == HandedOver ==> pending == [] && (filepos >= filesize || eof)
      ensures status == HandedOver && |received| <= g_max_upload_size ==> spooled == received
    {
      hide Step, Taken;
      retval := 1;
      ghost var s := Now(1);
      RunReceives(s, inputs, outputs, Bounds());
      if filesize != 0 { NoMoreThanAnnounced(s, inputs, outputs, Bounds()); }
      assert inputs[0..] == inputs && outputs[0..] == outputs;
      var i := 0;
      while i < |inputs| && status != HandedOver && retval !in {0, -2}
        invariant i <= |inputs| && Valid()
        invariant BodyAfter(Now(retval), inputs[i..], outputs[i..], Bounds()) == BodyAfter(s, inputs, outputs, Bounds())
      {
        retval := OneCall(inputs[i], outputs[i], retval);
        assert inputs[i..][1..] == inputs[i + 1..] && outputs[i..][1..] == outputs[i + 1..];
        i := i + 1;
      }
    }

    /** The call that the status asks for. */
    method OneCall(input: Input, output: Output, ghost before: int) returns (retval: int)
      requires Valid() && !IsOver(Now(before))
      modifies this, buffer
      ensures Valid() && Now(retval) == Step(old(Now(before)), input, output, Bounds())
    {
      hide ReadStep, WriteStep, WantedOf, CutInput, CutOutput;
      AsWanted();
      if status == BodyRead {
        var wanted := Wanted();
        ReadCut(Now(1), input, Bounds());
        retval := ReadBody(if wanted > 0 then CutInput(input, wanted) else input);
      } else {
        WriteCut(Now(1), output, Bounds());
        retval := WriteBody(CutOutput(output, header_end - header_line));
      }
    }
  }
}
