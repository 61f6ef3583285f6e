/** `strmatch`: globs with '*' and '?'. */
module GlobMatch {
  import opened Bytes

  // ----- the language of a pattern

  /** What one pattern byte may stand for. */
  predicate StandsFor(p: byte, piece: bytes) {
    if p == STAR then true
    else if p == QUESTION then |piece| == 1
    else piece == [p]
  }

  function Joined(pieces: seq<bytes>): bytes {
    if pieces == [] then [] else pieces[0] + Joined(pieces[1..])
  }

  /** `s` can be cut into pieces, one for each byte of the pattern. */
  ghost predicate InGlob(p: bytes, s: bytes) {
    exists pieces: seq<bytes> :: Pieces(p, pieces) && Joined(pieces) == s
  }

  predicate Pieces(p: bytes, pieces: seq<bytes>) {
    |pieces| == |p| && forall i :: 0 <= i < |p| ==> StandsFor(p[i], pieces[i])
  }

  /** The same, byte by byte. */
  ghost predicate Matches(p: bytes, s: bytes) {
    if p == [] then s == []
    else if p[0] == STAR then exists k :: 0 <= k <= |s| && Matches(p[1..], s[k..])
    else s != [] && (p[0] == QUESTION || s[0] == p[0]) && Matches(p[1..], s[1..])
  }

  lemma {:induction false} MatchGivesPieces(p: bytes, s: bytes) returns (pieces: seq<bytes>)
    requires Matches(p, s)
    ensures Pieces(p, pieces) && Joined(pieces) == s
  {
    if p == [] {
      pieces := [];
    } else {
      var k := 1;
      if p[0] == STAR {
        k :| 0 <= k <= |s| && Matches(p[1..], s[k..]);
      }
      var rest := MatchGivesPieces(p[1..], s[k..]);
      pieces := [s[..k]] + rest;
      assert pieces[1..] == rest && s[..k] + s[k..] == s;
    }
  }

  lemma {:induction false} PiecesGiveMatch(p: bytes, pieces: seq<bytes>)
    requires Pieces(p, pieces)
    ensures Matches(p, Joined(pieces))
  {
    if p != [] {
      PiecesGiveMatch(p[1..], pieces[1..]);
      var s, k := Joined(pieces), |pieces[0]|;
      assert StandsFor(p[0], pieces[0]);
      assert s[k..] == Joined(pieces[1..]);
    }
  }

  lemma MatchesIsGlob(p: bytes, s: bytes)
    ensures Matches(p, s) <==> InGlob(p, s)
  {
    if Matches(p, s) {
      var pieces := MatchGivesPieces(p, s);
    }
    if InGlob(p, s) {
      var pieces :| Pieces(p, pieces) && Joined(pieces) == s;
      PiecesGiveMatch(p, pieces);
    }
  }

  /** Two stars are one. */
  lemma StarStar(p: bytes, s: bytes)
    requires |p| >= 2 && p[0] == STAR && p[1] == STAR
    ensures Matches(p, s) <==> Matches(p[1..], s)
  {
    if Matches(p, s) {
      var k :| 0 <= k <= |s| && Matches(p[1..], s[k..]);
      var m :| 0 <= m <= |s[k..]| && Matches(p[1..][1..], s[k..][m..]);
      assert s[k..][m..] == s[k + m..];
    }
    if Matches(p[1..], s) {
      assert s[0..] == s;
    }
  }

  // ----- the program

  /** `strmatch(str, s2)` on two C strings; `si` and `pi` are the pointers into them. */
  method StrMatch(s: bytes, si: nat, p: bytes, pi: nat) returns (b: bool)
    requires si <= |s| && pi <= |p| && NoNul(s) && NoNul(p)
    ensures b <==> InGlob(p[pi..], s[si..])
    decreases |p| - pi
  {
    hide InGlob;
    MatchesIsGlob(p[pi..], s[si..]);
    var str, s2 := si, pi;
    while At(p, s2) != 0
      invariant si <= str <= |s| && pi <= s2 <= |p|
      invariant Matches(p[s2..], s[str..]) <==> Matches(p[pi..], s[si..])
      decreases |p| - s2
    {
      assert p[s2..][1..] == p[s2 + 1..];
      if p[s2] == STAR {
        b := MatchStar(s, str, p, s2);
        return;
      }
      if p[s2] != QUESTION {
        if At(s, str) != p[s2] { return false; }
      } else if At(s, str) == 0 {
        return false;
      }
      assert s[str..][1..] == s[str + 1..];
      str, s2 := str + 1, s2 + 1;
    }
    b := At(s, str) == 0;
  }

  /** The branch for a star. */
  method MatchStar(s: bytes, si: nat, p: bytes, pi: nat) returns (b: bool)
    requires si <= |s| && pi < |p| && p[pi] == STAR && NoNul(s) && NoNul(p)
    ensures b <==> Matches(p[pi..], s[si..])
    decreases |p| - pi, 0
  {
    var str, s2 := si, pi;
    if At(p, s2 + 1) == 0 {
      StarAtEnd(p[s2..], s[str..]);
      return true;
    }
    while At(p, s2 + 1) == STAR
      invariant pi <= s2 < |p| && p[s2] == STAR
      invariant Matches(p[s2..], s[si..]) <==> Matches(p[pi..], s[si..])
      decreases |p| - s2
    {
      StarStar(p[s2..], s[si..]);
      assert p[s2..][1..] == p[s2 + 1..];
      s2 := s2 + 1;
    }
    assert p[s2..][1..] == p[s2 + 1..];
    while At(s, str) != 0
      invariant si <= str <= |s|
      invariant forall k :: si <= k < str ==> !Matches(p[s2 + 1..], s[k..])
      decreases |s| - str
    {
      b := StrMatch(s, str, p, s2 + 1);
      MatchesIsGlob(p[s2 + 1..], s[str..]);
      if b {
        StarTakes(p[s2..], s, si, str);
        return true;
      }
      str := str + 1;
    }
    b := StrMatch(s, str, p, s2 + 1);
    MatchesIsGlob(p[s2 + 1..], s[str..]);
    if b {
      StarTakes(p[s2..], s, si, str);
    } else {
      StarFails(p[s2..], s, si);
    }
  }

  lemma StarAtEnd(p: bytes, s: bytes)
    requires p == [STAR]
    ensures Matches(p, s)
  {
    assert s[|s|..] == [] && Matches(p[1..], s[|s|..]);
  }

  lemma StarTakes(p: bytes, s: bytes, from: nat, k: nat)
    requires p != [] && p[0] == STAR && from <= k <= |s| && Matches(p[1..], s[k..])
    ensures Matches(p, s[from..])
  {
    assert s[from..][k - from..] == s[k..];
  }

  lemma StarFails(p: bytes, s: bytes, from: nat)
    requires p != [] && p[0] == STAR && from <= |s|
    requires forall k :: from <= k <= |s| ==> !Matches(p[1..], s[k..])
    ensures !Matches(p, s[from..])
  {
    forall m | 0 <= m <= |s[from..]| ensures !Matches(p[1..], s[from..][m..]) {
      assert s[from..][m..] == s[from + m..];
    }
  }
}
