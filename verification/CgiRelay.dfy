/** The CGI pipe relay: bytes read from a pipe into a buffer and written on to the client, in any portions. */
module CgiRelay {
  import opened Bytes
  import opened Transfers

  datatype PipeStatus = PipeRead | PipeWrite
  datatype CgiStatus = CgiWrite | CgiClose

  // ----- the relay on values

  /** The bytes on their way, the bytes sent, and what the last call returned. */
  datatype Flow = Flow(status: PipeStatus, closing: bool, pending: bytes, sent: bytes, eof: bool, retval: int)

  /** A buffer of `size` bytes holds what is pending. */
  predicate Fits(s: Flow, size: nat) { |s.pending| <= size && (s.closing ==> s.eof) }

  /** `read_from_pipe` */
  function ReadStep(s: Flow, input: Input, size: nat): (r: Flow)
    requires Fits(s, size) && s.status == PipeRead
    ensures Fits(r, size)
  {
    if |s.pending| == size then s.(status := PipeWrite, retval := 1)
    else
      match CutInput(input, size - |s.pending|)
      case NotYet => s.(retval := -1)
      case ReadError => s.(retval := 0)
      case Got(data) =>
        if data == [] then s.(status := PipeWrite, closing := true, eof := true, retval := 1)
        else s.(pending := s.pending + data, retval := 1)
  }

  /** `write_from_pipe` */
  function WriteStep(s: Flow, output: Output): Flow {
    if s.pending == [] then
      if s.closing then s.(retval := 0) else s.(status := PipeRead, retval := 1)
    else
      match CutOutput(output, |s.pending|)
      case WouldBlock => s.(retval := -1)
      case WriteError => s.(retval := 0)
      case Wrote(n) => s.(sent := s.sent + s.pending[..n], pending := s.pending[n..], retval := 1)
  }

  /** The call that the status asks for. */
  function Step(s: Flow, input: Input, output: Output, size: nat): (r: Flow)
    requires Fits(s, size)
    ensures Fits(r, size)
  {
    if s.status == PipeRead then ReadStep(s, input, size) else WriteStep(s, output)
  }

  /** Any run: calls until one returns 0, or until `inputs` and `outputs` are used up. */
  function FlowAfter(s: Flow, inputs: seq<Input>, outputs: seq<Output>, size: nat): (r: Flow)
    requires |inputs| == |outputs| && Fits(s, size)
    ensures Fits(r, size)
    decreases |inputs|
  {
    if inputs == [] || s.retval == 0 then s
    else FlowAfter(Step(s, inputs[0], outputs[0], size), inputs[1..], outputs[1..], size)
  }

  /** What one call takes from the pipe. */
  function TakenBy(s: Flow, input: Input, size: nat): bytes
    requires Fits(s, size)
  {
    if s.status == PipeRead && |s.pending| < size && input.Got? then CutInput(input, size - |s.pending|).data else []
  }

  /** What a run takes from the pipe, in order. */
  function Taken(s: Flow, inputs: seq<Input>, outputs: seq<Output>, size: nat): bytes
    requires |inputs| == |outputs| && Fits(s, size)
    decreases |inputs|
  {
    if inputs == [] || s.retval == 0 then []
    else TakenBy(s, inputs[0], size) + Taken(Step(s, inputs[0], outputs[0], size), inputs[1..], outputs[1..], size)
  }

  /** The relay has been closed because everything was sent. */
  predicate ClosedNormally(s: Flow) { s.retval == 0 && s.status == PipeWrite && s.pending == [] && s.closing }

  /** The reads of a run get `source`, in portions, and an empty read comes only at its end. */
  ghost predicate Supplies(source: bytes, s: Flow, inputs: seq<Input>, outputs: seq<Output>, size: nat)
    requires |inputs| == |outputs| && Fits(s, size)
    decreases |inputs|
  {
    inputs == [] || s.retval == 0 ||
    var data := TakenBy(s, inputs[0], size);
    var next := Step(s, inputs[0], outputs[0], size);
    data <= source && (next.eof ==> s.eof || source == []) &&
    Supplies(source[|data|..], next, inputs[1..], outputs[1..], size)
  }

  /** A run returns 0 only for a read error, for a write error, or when it closes normally. */
  lemma {:induction false} ZeroMeans(s: Flow, inputs: seq<Input>, outputs: seq<Output>, size: nat)
    requires |inputs| == |outputs| && Fits(s, size) && (s.retval == 0 ==> s.status == PipeRead || s.pending != [] || s.closing)
    ensures var r := FlowAfter(s, inputs, outputs, size);
      r.retval == 0 ==> r.status == PipeRead || r.pending != [] || ClosedNormally(r)
    decreases |inputs|
  {
    if inputs != [] && s.retval != 0 {
      ZeroMeans(Step(s, inputs[0], outputs[0], size), inputs[1..], outputs[1..], size);
    }
  }

  lemma StepForwards(s: Flow, input: Input, output: Output, size: nat)
    requires Fits(s, size)
    ensures var r := Step(s, input, output, size);
      s.sent <= r.sent && r.sent + r.pending == s.sent + s.pending + TakenBy(s, input, size)
  {
    if s.status == PipeWrite && s.pending != [] {
      var n := CutOutput(output, |s.pending|);
      if n.Wrote? { assert s.sent + s.pending[..n.n] + s.pending[n.n..] == s.sent + s.pending; }
    }
  }

  /** Nothing is lost, doubled or reordered: what was sent and what is pending are the bytes that were pending at first and
      those taken since. */
  lemma {:induction false} RunForwards(s: Flow, inputs: seq<Input>, outputs: seq<Output>, size: nat)
    requires |inputs| == |outputs| && Fits(s, size)
    ensures var r := FlowAfter(s, inputs, outputs, size);
      s.sent <= r.sent && r.sent + r.pending == s.sent + s.pending + Taken(s, inputs, outputs, size)
    decreases |inputs|
  {
    hide Step, TakenBy;
    if inputs != [] && s.retval != 0 {
      var next := Step(s, inputs[0], outputs[0], size);
      StepForwards(s, inputs[0], outputs[0], size);
      RunForwards(next, inputs[1..], outputs[1..], size);
      Concat3(s.sent + s.pending, TakenBy(s, inputs[0], size), Taken(next, inputs[1..], outputs[1..], size));
    }
  }

  /** Of a pipe that holds `source`, a run takes a prefix, and all of it if it has seen the end. */
  lemma {:induction false} TakesFromSource(source: bytes, s: Flow, inputs: seq<Input>, outputs: seq<Output>, size: nat)
    requires |inputs| == |outputs| && Fits(s, size) && Supplies(source, s, inputs, outputs, size)
    requires s.eof ==> source == []
    ensures var taken := Taken(s, inputs, outputs, size);
      taken <= source && (FlowAfter(s, inputs, outputs, size).eof ==> taken == source)
    decreases |inputs|
  {
    hide Step, TakenBy;
    if inputs != [] && s.retval != 0 {
      var data, next := TakenBy(s, inputs[0], size), Step(s, inputs[0], outputs[0], size);
      if source == [] { assert data == []; }
      TakesFromSource(source[|data|..], next, inputs[1..], outputs[1..], size);
      assert data + source[|data|..] == source;
    }
  }

  /** The client gets the bytes of the first buffer and then those of the pipe: a prefix at any time, and exactly all of
      them when the relay closes normally. */
  lemma ClientGetsThePipe(source: bytes, s: Flow, inputs: seq<Input>, outputs: seq<Output>, size: nat)
    requires |inputs| == |outputs| && Fits(s, size) && Supplies(source, s, inputs, outputs, size) && !s.eof && s.retval != 0
    ensures var r := FlowAfter(s, inputs, outputs, size);
      r.sent <= s.sent + s.pending + source && (ClosedNormally(r) ==> r.sent == s.sent + s.pending + source)
  {
    hide FlowAfter, Taken, Supplies;
    RunForwards(s, inputs, outputs, size);
    TakesFromSource(source, s, inputs, outputs, size);
    var r, taken := FlowAfter(s, inputs, outputs, size), Taken(s, inputs, outputs, size);
    assert r.sent <= r.sent + r.pending == s.sent + s.pending + taken;
    assert s.sent + s.pending + source == s.sent + s.pending + taken + source[|taken|..];
    assert r.pending == [] ==> r.sent + r.pending == r.sent;
  }

  // ----- progress

  /** Reads and writes that neither block nor fail: a read gets at least one byte of `source`, or nothing at its end, and
      a write moves at least one byte. */
  ghost predicate Cooperates(source: bytes, s: Flow, inputs: seq<Input>, outputs: seq<Output>, size: nat)
    requires |inputs| == |outputs| && Fits(s, size)
    decreases |inputs|
  {
    inputs == [] || s.retval == 0 ||
    var data := TakenBy(s, inputs[0], size);
    (s.status == PipeRead && |s.pending| < size ==> inputs[0].Got? && data <= source && (data == [] ==> source == [])) &&
    (s.status == PipeWrite && s.pending != [] ==> outputs[0].Wrote? && outputs[0].n > 0) &&
    Cooperates(source[|data|..], Step(s, inputs[0], outputs[0], size), inputs[1..], outputs[1..], size)
  }

  /** How many calls are enough, with `left` bytes in the pipe. */
  function CallsLeft(s: Flow, left: nat): nat {
    if s.status == PipeRead then 4 * left + 3 * |s.pending| + 2
    else if s.closing then |s.pending| + 1
    else 4 * left + |s.pending| + 3
  }

  lemma FewerCallsLeft(source: bytes, s: Flow, input: Input, output: Output, size: nat)
    requires Fits(s, size) && size > 0 && s.retval != 0 && (s.status == PipeRead ==> !s.closing)
    requires Cooperates(source, s, [input], [output], size)
    ensures var next := Step(s, input, output, size);
      |TakenBy(s, input, size)| <= |source| && (next.status == PipeRead ==> !next.closing) &&
      if next.retval == 0 then ClosedNormally(next)
      else CallsLeft(next, |source| - |TakenBy(s, input, size)|) < CallsLeft(s, |source|)
  {
  }

  /** With such reads and writes the relay closes normally, after so many calls at the latest. */
  lemma {:induction false} Ends(source: bytes, s: Flow, inputs: seq<Input>, outputs: seq<Output>, size: nat)
    requires |inputs| == |outputs| && Fits(s, size) && size > 0 && (s.status == PipeRead ==> !s.closing)
    requires Cooperates(source, s, inputs, outputs, size) && |inputs| >= CallsLeft(s, |source|)
    requires s.retval == 0 ==> ClosedNormally(s)
    ensures ClosedNormally(FlowAfter(s, inputs, outputs, size))
    decreases |inputs|
  {
    hide Step, TakenBy;
    if s.retval != 0 {
      FirstCooperates(source, s, inputs, outputs, size);
      FewerCallsLeft(source, s, inputs[0], outputs[0], size);
      var data, next := TakenBy(s, inputs[0], size), Step(s, inputs[0], outputs[0], size);
      if next.retval != 0 {
        Ends(source[|data|..], next, inputs[1..], outputs[1..], size);
      }
    }
  }

  lemma FirstCooperates(source: bytes, s: Flow, inputs: seq<Input>, outputs: seq<Output>, size: nat)
    requires |inputs| == |outputs| && inputs != [] && Fits(s, size) && Cooperates(source, s, inputs, outputs, size)
    ensures Cooperates(source, s, [inputs[0]], [outputs[0]], size)
  {
    hide Step, TakenBy;
  }

  lemma {:induction false} CooperatesSupplies(source: bytes, s: Flow, inputs: seq<Input>, outputs: seq<Output>, size: nat)
    requires |inputs| == |outputs| && Fits(s, size) && Cooperates(source, s, inputs, outputs, size)
    ensures Supplies(source, s, inputs, outputs, size)
    decreases |inputs|
  {
    if inputs != [] && s.retval != 0 {
      var data := TakenBy(s, inputs[0], size);
      CooperatesSupplies(source[|data|..], Step(s, inputs[0], outputs[0], size), inputs[1..], outputs[1..], size);
    }
  }

  /** Then the client has got everything: the bytes of the first buffer and all of the pipe. */
  lemma ClientGetsEverything(source: bytes, s: Flow, inputs: seq<Input>, outputs: seq<Output>, size: nat)
    requires |inputs| == |outputs| && Fits(s, size) && size > 0 && !s.eof && s.retval != 0
    requires Cooperates(source, s, inputs, outputs, size) && |inputs| >= 4 * |source| + 3 * |s.pending| + 3
    ensures var r := FlowAfter(s, inputs, outputs, size);
      ClosedNormally(r) && r.sent == s.sent + s.pending + source
  {
    Ends(source, s, inputs, outputs, size);
    CooperatesSupplies(source, s, inputs, outputs, size);
    ClientGetsThePipe(source, s, inputs, outputs, size);
  }

  lemma EverythingGets(s: Flow, inputs: seq<Input>, outputs: seq<Output>, size: nat)
    requires |inputs| == |outputs| && Fits(s, size)
    ensures size > 0 && !s.eof && s.retval != 0 ==> (
      forall source :: Cooperates(source, s, inputs, outputs, size) && |inputs| >= 4 * |source| + 3 * |s.pending| + 3 ==>
        var r := FlowAfter(s, inputs, outputs, size);
        ClosedNormally(r) && r.sent == s.sent + s.pending + source)
  {
    hide Cooperates, FlowAfter;
    if size > 0 && !s.eof && s.retval != 0 {
      forall source | Cooperates(source, s, inputs, outputs, size) && |inputs| >= 4 * |source| + 3 * |s.pending| + 3
        ensures var r := FlowAfter(s, inputs, outputs, size);
          ClosedNormally(r) && r.sent == s.sent + s.pending + source
      {
        ClientGetsEverything(source, s, inputs, outputs, size);
      }
    }
  }

  /** Such runs exist, of any length and for whatever the pipe holds. */
  lemma {:induction false} RunsCooperate(source: bytes, s: Flow, size: nat, n: nat)
      returns (inputs: seq<Input>, outputs: seq<Output>)
    requires Fits(s, size)
    ensures |inputs| == |outputs| == n && Cooperates(source, s, inputs, outputs, size)
    decreases n
  {
    if n == 0 {
      inputs, outputs := [], [];
    } else {
      var input := Got(if source == [] then [] else source[..1]);
      var data := TakenBy(s, input, size);
      var more, more' := RunsCooperate(source[|data|..], Step(s, input, Wrote(1), size), size, n - 1);
      inputs, outputs := [input] + more, [Wrote(1)] + more';
      assert inputs[1..] == more && outputs[1..] == more';
    }
  }

  // ----- the relay in its buffer

  /** A request whose CGI header has been dealt with. */
  class Relay {
    const buffer: array<byte>
    const max_buffer_size: nat
    var header_line: nat
    var header_end: nat
    var status: PipeStatus
    var cgi_status: CgiStatus
    var filepos: nat
    ghost var pending: bytes  // [header_line, header_end)
    ghost var received: bytes // everything read from the pipe
    ghost var sent: bytes     // everything the client has been sent
    ghost var eof: bool       // the pipe's other end is closed

    /** The relay as a value. */
    ghost function Now(retval: int): Flow
      reads this
    {
      Flow(status, cgi_status == CgiClose, pending, sent, eof, retval)
    }

    ghost predicate Valid()
      reads this, buffer
    {
      buffer.Length == max_buffer_size + 1 && header_line <= header_end <= max_buffer_size &&
      |pending| == header_end - header_line &&
      (forall i :: header_line <= i < header_end ==> buffer[i] == pending[i - header_line]) &&
      sent + pending == received && filepos == |sent| &&
      (status == PipeRead ==> header_line == 0) && (cgi_status == CgiClose ==> eof)
    }

    /** The rest of the first buffer, behind the header, is still to be sent. */
    constructor (max_buffer_size: nat, skipped: nat, rest: bytes)
      requires skipped + |rest| <= max_buffer_size
      ensures Valid() && fresh(buffer) && received == rest && Now(1) == Flow(PipeWrite, false, rest, [], false, 1)
      ensures this.max_buffer_size == max_buffer_size
    {
      var b := new byte[max_buffer_size + 1];
      forall i | 0 <= i < |rest| { b[skipped + i] := rest[i]; }
      buffer, this.max_buffer_size := b, max_buffer_size;
      header_line, header_end, status, cgi_status, filepos := skipped, skipped + |rest|, PipeWrite, CgiWrite, 0;
      pending, received, sent, eof := rest, rest, [], false;
    }

    /** `read_from_pipe`, given what `read` will do with up to `bytes_to_read` bytes. */
    method ReadFromPipe(input: Input) returns (retval: int)
      requires Valid() && status == PipeRead
      requires input.Got? ==> |input.data| <= max_buffer_size - header_end
      modifies this, buffer
      ensures Fits(old(Now(1)), max_buffer_size) && Now(retval) == ReadStep(old(Now(1)), input, max_buffer_size)
      ensures Valid() && sent == old(sent)
      ensures retval == 0 <==> input == ReadError && old(header_end) < max_buffer_size
      ensures retval == -1 <==> input == NotYet && old(header_end) < max_buffer_size
      ensures received == old(received) + if input.Got? && old(header_end) < max_buffer_size then input.data else []
      ensures eof == (old(eof) || (input == Got([]) && old(header_end) < max_buffer_size))
      ensures cgi_status == old(cgi_status) || eof
    {
      var bytes_to_read := max_buffer_size - header_end;
      if bytes_to_read == 0 {
        status := PipeWrite;
        return 1;
      }
      match input
      case NotYet => retval := -1;
      case ReadError => retval := 0;
      case Got(data) =>
        if |data| == 0 {
          status, cgi_status, eof := PipeWrite, CgiClose, true;
          return 1;
        }
        Store(data);
        retval := 1;
    }

    method Store(data: bytes)
      requires Valid() && |data| <= max_buffer_size - header_end
      modifies buffer, this`header_end, this`pending, this`received
      ensures Valid() && received == old(received) + data && pending == old(pending) + data
    {
      forall i | 0 <= i < |data| { buffer[header_end + i] := data[i]; }
      header_end := header_end + |data|;
      pending, received := pending + data, received + data;
    }

    /** `write_from_pipe`; a result of 0 without a write error is the normal close. */
    method WriteFromPipe(output: Output) returns (retval: int)
      requires Valid() && status == PipeWrite
      requires output.Wrote? ==> output.n <= header_end - header_line
      modifies this
      ensures Now(retval) == WriteStep(old(Now(1)), output)
      ensures Valid() && received == old(received) && eof == old(eof)
      ensures sent == old(sent) + if output.Wrote? then old(pending)[..output.n] else []
      ensures retval == 0 && old(pending) == [] ==> sent == received && eof && cgi_status == CgiClose
      ensures retval == 0 <==> if old(pending) == [] then cgi_status == CgiClose else output == WriteError
      ensures retval == -1 <==> old(pending) != [] && output == WouldBlock
    {
      var bytes_to_write := header_end - header_line;
      if bytes_to_write == 0 {
        if cgi_status == CgiClose {
          return 0;
        }
        status := PipeRead;
        header_line, header_end := 0, 0;
        return 1;
      }
      match output
      case WouldBlock => retval := -1;
      case WriteError => retval := 0;
      case Wrote(n) =>
        header_line, filepos := header_line + n, filepos + n;
        assert sent + pending[..n] + pending[n..] == sent + pending;
        sent, pending := sent + pending[..n], pending[n..];
        retval := 1;
    }

    /** Any run: what `read` and `write` do is given for each step, cut down to what was asked for. */
    method Run(inputs: seq<Input>, outputs: seq<Output>) returns (retval: int)
      requires Valid() && |inputs| == |outputs|
      modifies this, buffer
      ensures Valid()
      ensures Now(retval) == FlowAfter(old(Now(1)), inputs, outputs, max_buffer_size)
      ensures received == old(received) + Taken(old(Now(1)), inputs, outputs, max_buffer_size)
      ensures sent <= received && (retval == 0 && status == PipeWrite && pending == [] ==> sent == received && eof)
      ensures max_buffer_size > 0 && !old(eof) ==> (
        forall source :: (Cooperates(source, old(Now(1)), inputs, outputs, max_buffer_size) &&
          |inputs| >= 4 * |source| + 3 * |old(pending)| + 3) ==>
          ClosedNormally(Now(retval)) && sent == old(sent + pending) + source)
    {
      hide Step, Taken, Cooperates;
      retval := 1;
      ghost var s := Now(1);
      FitsNow(1);
      RunForwards(s, inputs, outputs, max_buffer_size);
      ZeroMeans(s, inputs, outputs, max_buffer_size);
      EverythingGets(s, inputs, outputs, max_buffer_size);
      var i := 0;
      assert inputs[0..] == inputs && outputs[0..] == outputs;
      while i < |inputs| && retval != 0
        invariant i <= |inputs| && Valid() && Fits(Now(retval), max_buffer_size) && Fits(s, max_buffer_size)
        invariant FlowAfter(Now(retval), inputs[i..], outputs[i..], max_buffer_size)
          == FlowAfter(s, inputs, outputs, max_buffer_size)
      {
        retval := OneCall(inputs[i], outputs[i], retval);
        assert inputs[i..][1..] == inputs[i + 1..] && outputs[i..][1..] == outputs[i + 1..];
        i := i + 1;
      }
    }

    /** The call that the status asks for. */
    method OneCall(input: Input, output: Output, ghost before: int) returns (retval: int)
      requires Valid()
      modifies this, buffer
      ensures Valid() && Fits(old(Now(before)), max_buffer_size) && Fits(Now(retval), max_buffer_size)
      ensures Now(retval) == Step(old(Now(before)), input, output, max_buffer_size)
    {
      if status == PipeRead {
        retval := ReadFromPipe(CutInput(input, max_buffer_size - header_end));
      } else {
        retval := WriteFromPipe(CutOutput(output, header_end - header_line));
      }
    }

    lemma FitsNow(retval: int)
      requires Valid()
      ensures Fits(Now(retval), max_buffer_size) && received == sent + pending
    {
    }
  }
}
