/** The `<% … %>` expansion of a page into a buffer that doubles when it is full. */
module PageExpansion {
  import opened Bytes
  import opened Buffers

  const OPEN: bytes := [60, 37]
  const CLOSE: bytes := [37, 62]

  lemma MarksAre()
    ensures OPEN == Ascii("<%") && CLOSE == Ascii("%>")
  {
  }

  // ----- pages as sequences of static text and script regions

  datatype Segment = Text(text: bytes) | Script(region: bytes)

  predicate IsAt(s: bytes, i: nat, mark: bytes)
    requires |mark| == 2
  {
    i + 2 <= |s| && s[i] == mark[0] && s[i + 1] == mark[1]
  }

  /** The least index at which a two-byte mark starts, or -1. */
  function IndexOf(s: bytes, mark: bytes): (k: int)
    requires |mark| == 2
    ensures k == -1 || (k >= 0 && IsAt(s, k, mark))
  {
    if |s| < 2 then -1
    else if IsAt(s, 0, mark) then 0
    else
      var k := IndexOf(s[1..], mark);
      if k == -1 then -1 else k + 1
  }

  lemma {:induction false} IndexIsLeast(s: bytes, mark: bytes, i: nat)
    requires |mark| == 2 && IsAt(s, i, mark)
    ensures 0 <= IndexOf(s, mark) <= i
  {
    if i > 0 && !IsAt(s, 0, mark) {
      IndexIsLeast(s[1..], mark, i - 1);
    }
  }

  /** The first region: from the first "<%" to the end of the first "%>" not before it. */
  function RegionStart(s: bytes): int { IndexOf(s, OPEN) }

  function RegionEnd(s: bytes): (j: int)
    ensures j == -1 || (0 <= RegionStart(s) && RegionStart(s) + 3 <= j <= |s|)
  {
    var i := RegionStart(s);
    if i == -1 then -1
    else
      var k := IndexOf(s[i..], CLOSE);
      if k == -1 then -1
      else
        assert IsAt(s[i..], 0, OPEN);
        i + k + 2
  }

  function Segments(s: bytes): seq<Segment> {
    if s == [] then []
    else if RegionEnd(s) == -1 then [Text(s)]
    else
      var i, j := RegionStart(s), RegionEnd(s);
      [Text(s[..i]), Script(s[i..j])] + Segments(s[j..])
  }

  function Source(segments: seq<Segment>): bytes {
    if segments == [] then []
    else (match segments[0] case Text(t) => t case Script(r) => r) + Source(segments[1..])
  }

  lemma SourceOfTwo(text: bytes, region: bytes, rest: seq<Segment>)
    ensures Source([Text(text), Script(region)] + rest) == text + (region + Source(rest))
  {
    var all := [Text(text), Script(region)] + rest;
    assert all[1..] == [Script(region)] + rest && all[1..][1..] == rest;
  }

  lemma SourceOfOne(text: bytes)
    ensures Source([Text(text)]) == text
  {
    assert [Text(text)][1..] == [];
  }

  /** Nothing of the page is lost or reordered. */
  lemma {:induction false} SegmentsAreThePage(s: bytes)
    ensures Source(Segments(s)) == s
  {
    hide Source, RegionStart, RegionEnd, IndexOf;
    if s == [] {
      SourceOfNone();
    } else if RegionEnd(s) == -1 {
      SourceOfOne(s);
    } else {
      var i, j := RegionStart(s), RegionEnd(s);
      SegmentsAreThePage(s[j..]);
      SourceOfTwo(s[..i], s[i..j], Segments(s[j..]));
      ThreeParts(s, i, j);
    }
  }

  lemma SourceOfNone()
    ensures Source([]) == []
  {
  }

  lemma ThreeParts(s: bytes, i: nat, j: nat)
    requires i <= j <= |s|
    ensures s[..i] + (s[i..j] + s[j..]) == s
  {
  }

  predicate IsRegion(r: bytes) {
    |r| >= 3 && IsAt(r, 0, OPEN) && IsAt(r, |r| - 2, CLOSE) && forall i :: 0 <= i < |r| - 2 ==> !IsAt(r, i, CLOSE)
  }

  /** No complete region is left in the static text. */
  lemma {:induction false} SegmentsAreProper(s: bytes, n: nat)
    requires n < |Segments(s)|
    ensures match Segments(s)[n] case Text(t) => RegionEnd(t) == -1 case Script(r) => IsRegion(r)
    decreases |s|
  {
    if RegionEnd(s) != -1 {
      var i, j := RegionStart(s), RegionEnd(s);
      if n == 0 {
        NoOpenBefore(s, i);
      } else if n == 1 {
        FirstRegionIsProper(s);
      } else {
        SegmentsAreProper(s[j..], n - 2);
      }
    }
  }

  lemma NoOpenBefore(s: bytes, i: nat)
    requires i == RegionStart(s)
    ensures RegionEnd(s[..i]) == -1
  {
    var k := IndexOf(s[..i], OPEN);
    if k != -1 {
      IndexIsLeast(s, OPEN, k);
    }
  }

  lemma FirstRegionIsProper(s: bytes)
    requires RegionEnd(s) != -1
    ensures IsRegion(s[RegionStart(s)..RegionEnd(s)])
  {
    var i, j := RegionStart(s), RegionEnd(s);
    var r, t := s[i..j], s[i..];
    var k := IndexOf(t, CLOSE);
    assert r == t[..k + 2];
    forall m | 0 <= m < |r| - 2 ensures !IsAt(r, m, CLOSE) {
      if IsAt(t, m, CLOSE) { IndexIsLeast(t, CLOSE, m); }
    }
  }

  /** The output: static text as it is, and for the `n`th region what its handler writes. */
  function Render(segments: seq<Segment>, handle: (nat, bytes) -> bytes, n: nat): bytes {
    if segments == [] then []
    else
      match segments[0]
      case Text(t) => t + Render(segments[1..], handle, n)
      case Script(r) => handle(n, r) + Render(segments[1..], handle, n + 1)
  }

  function Scripts(segments: seq<Segment>): seq<bytes> {
    if segments == [] then []
    else (match segments[0] case Text(_) => [] case Script(r) => [r]) + Scripts(segments[1..])
  }

  // ----- the expansion loop

  class Page {
    const data: bytes            // data_mem, a mapped file
    var buffer: array<byte>
    var max_buffer_size: nat
    var buffer_end: nat
    var filepos: nat
    ghost var scripts: seq<bytes> // the regions handed to handleScript

    constructor (data: bytes, max_buffer_size: nat)
      requires max_buffer_size > 0
      ensures Emitted([]) && fresh(buffer) && filepos == 0 && scripts == [] && this.data == data
    {
      this.data, this.max_buffer_size := data, max_buffer_size;
      buffer := new byte[max_buffer_size + 1];
      buffer_end, filepos, scripts := 0, 0, [];
    }

    /** The buffer holds exactly `out`, and leaves a byte for a terminator. */
    ghost predicate Emitted(out: bytes)
      reads this`buffer, this`max_buffer_size, this`buffer_end, buffer
    {
      max_buffer_size > 0 && buffer.Length == max_buffer_size + 1 && buffer_end == |out| <= max_buffer_size &&
      Wrote(buffer, out)
    }

    /** `allocNewBuffer`: twice the size. */
    method AllocNewBuffer(ghost out: bytes)
      requires Emitted(out)
      modifies this`buffer, this`max_buffer_size
      ensures Emitted(out) && fresh(buffer) && max_buffer_size == 2 * old(max_buffer_size)
    {
      var newBuffer := new byte[max_buffer_size * 2 + 1];
      forall i | 0 <= i < max_buffer_size {
        newBuffer[i] := buffer[i];
      }
      max_buffer_size := max_buffer_size * 2;
      buffer := newBuffer;
    }

    /** `boaWriteBlock`, and the copying of static text: doubles until the text fits. */
    method WriteBlock(text: bytes, ghost out: bytes)
      requires Emitted(out)
      modifies this`buffer, this`max_buffer_size, this`buffer_end, buffer
      ensures Emitted(out + text) && (buffer == old(buffer) || fresh(buffer))
    {
      while |text| + buffer_end > max_buffer_size
        invariant Emitted(out) && (buffer == old(buffer) || fresh(buffer))
        decreases |text| + |out| - max_buffer_size
      {
        AllocNewBuffer(out);
      }
      Put(buffer, buffer_end, text, out);
      buffer_end := buffer_end + |text|;
    }

    /** `memmem(data + from, length to the end, mark)` */
    method Find(from: nat, mark: bytes) returns (at: int)
      requires from <= |data| && |mark| == 2
      ensures at == if IndexOf(data[from..], mark) == -1 then -1 else from + IndexOf(data[from..], mark)
    {
      var i := from;
      while i + 2 <= |data| && !IsAt(data, i, mark)
        invariant from <= i <= |data|
        invariant IndexOf(data[from..], mark) ==
          if IndexOf(data[i..], mark) == -1 then -1 else i - from + IndexOf(data[i..], mark)
        decreases |data| - i
      {
        assert data[i..][1..] == data[i + 1..];
        i := i + 1;
      }
      at := if i + 2 <= |data| then i else -1;
    }

    /** The next region: `right` is the position of its closing mark. */
    method FindRegion(from: nat) returns (left: int, right: int)
      requires from <= |data|
      ensures left == -1 || right == -1 <==> RegionEnd(data[from..]) == -1
      ensures left != -1 && right != -1 ==>
        left == from + RegionStart(data[from..]) && right + 2 == from + RegionEnd(data[from..])
    {
      right := -1;
      left := Find(from, OPEN);
      if left != -1 {
        assert data[from..][left - from..] == data[left..];
        right := Find(left, CLOSE);
      }
    }

    /** The expansion of the whole page behind what the buffer already holds. */
    method Expand(handle: (nat, bytes) -> bytes, ghost out: bytes)
      requires Emitted(out) && filepos == 0 && scripts == []
      modifies this, buffer
      ensures filepos == |data| && Emitted(out + Render(Segments(data), handle, 0))
      ensures scripts == Scripts(Segments(data))
    {
      hide IndexOf, RegionStart, RegionEnd, Segments, Render, Scripts, Expanded;
      var last_right, n := 0, 0;
      ghost var done := out;
      Begin(data, handle, out);
      while last_right < |data|
        invariant last_right == filepos <= |data| && Emitted(done) && (buffer == old(buffer) || fresh(buffer))
        invariant Expanded(data, done, scripts, last_right, n, handle, out)
        decreases |data| - last_right
      {
        var left, right := FindRegion(last_right);
        if left != -1 && right != -1 {
          filepos := filepos + (left - last_right) + (right + 2 - left);
          var region := data[left..right + 2];
          ghost var text := data[last_right..left];
          RegionStep(data, done, scripts, last_right, left, right + 2, n, handle, out);
          scripts := scripts + [region];
          WriteBlock(data[last_right..left], done);
          WriteBlock(handle(n, region), done + text);
          done := done + text + handle(n, region);
          n, last_right := n + 1, right + 2;
        } else {
          LastStep(data, done, scripts, last_right, n, handle, out);
          WriteBlock(data[last_right..], done);
          filepos := filepos + |data| - last_right;
          done := done + data[last_right..];
          last_right := |data|;
        }
      }
      End(data, done, scripts, n, handle, out);
    }
  }

  /** After `n` regions: what has been emitted and handed over, and what is still to come. */
  ghost predicate Expanded(data: bytes, done: bytes, handed: seq<bytes>, from: nat, n: nat,
      handle: (nat, bytes) -> bytes, out: bytes)
  {
    from <= |data| &&
    done + Render(Segments(data[from..]), handle, n) == out + Render(Segments(data), handle, 0) &&
    handed + Scripts(Segments(data[from..])) == Scripts(Segments(data))
  }

  lemma Begin(data: bytes, handle: (nat, bytes) -> bytes, out: bytes)
    ensures Expanded(data, out, [], 0, 0, handle, out)
  {
    assert data[0..] == data;
  }

  lemma End(data: bytes, done: bytes, handed: seq<bytes>, n: nat, handle: (nat, bytes) -> bytes, out: bytes)
    requires Expanded(data, done, handed, |data|, n, handle, out)
    ensures done == out + Render(Segments(data), handle, 0) && handed == Scripts(Segments(data))
  {
    assert data[|data|..] == [];
  }

  /** One region and the text before it. */
  lemma RegionStep(data: bytes, done: bytes, handed: seq<bytes>, from: nat, left: nat, end: nat, n: nat,
      handle: (nat, bytes) -> bytes, out: bytes)
    requires Expanded(data, done, handed, from, n, handle, out) && from < |data| && RegionEnd(data[from..]) != -1
    requires left == from + RegionStart(data[from..]) && end == from + RegionEnd(data[from..])
    ensures from <= left < end <= |data| &&
      Expanded(data, done + data[from..left] + handle(n, data[left..end]), handed + [data[left..end]], end, n + 1, handle, out)
  {
    hide Segments, Render, Scripts, RegionStart, RegionEnd;
    var s := data[from..];
    Unfold(s, handle, n);
    assert s[..left - from] == data[from..left] && s[left - from..end - from] == data[left..end];
    assert s[end - from..] == data[end..];
    var text, script := data[from..left], handle(n, data[left..end]);
    var rest := Render(Segments(data[end..]), handle, n + 1);
    Concat3(text, script, rest);
    Concat3(done + text, script, rest);
    Concat3(done, text, script + rest);
  }

  /** The text behind the last region. */
  lemma LastStep(data: bytes, done: bytes, handed: seq<bytes>, from: nat, n: nat, handle: (nat, bytes) -> bytes, out: bytes)
    requires Expanded(data, done, handed, from, n, handle, out) && from < |data| && RegionEnd(data[from..]) == -1
    ensures Expanded(data, done + data[from..], handed, |data|, n, handle, out)
  {
    Unfold(data[from..], handle, n);
    assert data[|data|..] == [] && done + data[from..] + [] == done + data[from..];
  }

  /** One turn of the loop, on what is left of the page. */
  lemma Unfold(s: bytes, handle: (nat, bytes) -> bytes, n: nat)
    requires s != []
    ensures RegionEnd(s) == -1 ==> Render(Segments(s), handle, n) == s && Scripts(Segments(s)) == []
    ensures RegionEnd(s) != -1 ==>
      Render(Segments(s), handle, n) ==
        s[..RegionStart(s)] + (handle(n, s[RegionStart(s)..RegionEnd(s)]) + Render(Segments(s[RegionEnd(s)..]), handle, n + 1))
    ensures RegionEnd(s) != -1 ==>
      Scripts(Segments(s)) == [s[RegionStart(s)..RegionEnd(s)]] + Scripts(Segments(s[RegionEnd(s)..]))
  {
    if RegionEnd(s) != -1 {
      var i, j := RegionStart(s), RegionEnd(s);
      var rest := Segments(s[j..]);
      var all := [Text(s[..i]), Script(s[i..j])] + rest;
      assert all[1..] == [Script(s[i..j])] + rest && all[1..][1..] == rest;
    } else {
      assert [Text(s)][1..] == [];
    }
  }
}
