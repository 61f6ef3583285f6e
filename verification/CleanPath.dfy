/** `clean_pathname`: removes doubled slashes and dot segments from a path, in place. */
module CleanPath {
  import opened Bytes
  import opened Buffers

  /** Behind a slash: slashes, "./" and "../" are skipped. */
  function SkipDots(s: bytes): (r: bytes)
    ensures |r| <= |s|
  {
    if At(s, 0) == SLASH then SkipDots(s[1..])
    else if At(s, 0) == DOT && At(s, 1) == SLASH then SkipDots(s[2..])
    else if At(s, 0) == DOT && At(s, 1) == DOT && At(s, 2) == SLASH then SkipDots(s[3..])
    else s
  }

  /** `cgiarg` is set once a '?' has been seen. */
  function Clean(s: bytes, cgiarg: bool): (r: bytes)
    ensures |r| <= |s|
    decreases |s|
  {
    if s == [] then []
    else if s[0] == SLASH && !cgiarg then [SLASH] + Clean(SkipDots(s[1..]), false)
    else [s[0]] + Clean(s[1..], cgiarg || s[0] == QUESTION)
  }

  // ----- what a clean path is

  /** "//", "/./" or "/../" at position `i`. */
  predicate Unsafe(s: bytes, i: nat) {
    At(s, i) == SLASH &&
    (At(s, i + 1) == SLASH || (At(s, i + 1) == DOT && At(s, i + 2) == SLASH) ||
     (At(s, i + 1) == DOT && At(s, i + 2) == DOT && At(s, i + 3) == SLASH))
  }

  predicate NoQuestion(s: bytes) { forall i :: 0 <= i < |s| ==> s[i] != QUESTION }

  /** No unsafe place before the first '?'. */
  ghost predicate IsClean(s: bytes) {
    forall i :: 0 <= i < |s| && NoQuestion(s[..i]) ==> !Unsafe(s, i)
  }

  lemma {:induction false} SkipDotsStops(s: bytes)
    ensures !Unsafe([SLASH] + SkipDots(s), 0)
  {
    if At(s, 0) == SLASH {
      SkipDotsStops(s[1..]);
    } else if At(s, 0) == DOT && At(s, 1) == SLASH {
      SkipDotsStops(s[2..]);
    } else if At(s, 0) == DOT && At(s, 1) == DOT && At(s, 2) == SLASH {
      SkipDotsStops(s[3..]);
    }
  }

  /** Cleaning keeps the first byte. */
  lemma FirstStays(s: bytes, cgiarg: bool)
    ensures At(Clean(s, cgiarg), 0) == At(s, 0)
  {
  }

  /** Cleaning a text that is safe behind a slash keeps it safe behind a slash. */
  lemma StaysSafe(u: bytes)
    requires !Unsafe([SLASH] + u, 0)
    ensures !Unsafe([SLASH] + Clean(u, false), 0)
  {
    var r := Clean(u, false);
    FirstStays(u, false);
    if At(u, 0) == DOT {
      FirstStays(u[1..], false);
      var v := u[1..];
      assert r == [DOT] + Clean(v, false);
      if At(v, 0) == DOT {
        FirstStays(v[1..], false);
        assert Clean(v, false) == [DOT] + Clean(v[1..], false);
      }
    }
  }

  lemma UnsafeLater(c: byte, s: bytes, i: nat)
    ensures Unsafe([c] + s, i + 1) <==> Unsafe(s, i)
  {
  }

  /** The result has no "//", "/./" or "/../" before the first '?'. */
  lemma {:induction false} CleanIsClean(s: bytes)
    ensures IsClean(Clean(s, false))
    decreases |s|
  {
    var r := Clean(s, false);
    forall i | 0 <= i < |r| && NoQuestion(r[..i]) ensures !Unsafe(r, i) {
      var rest := if s[0] == SLASH then SkipDots(s[1..]) else s[1..];
      if i == 0 {
        if s[0] == SLASH {
          SkipDotsStops(s[1..]);
          StaysSafe(rest);
        }
      } else {
        assert r[..i][0] == s[0];
        var t := Clean(rest, false);
        assert r == [s[0]] + t && r[..i] == [s[0]] + t[..i - 1];
        assert r[..i][1..] == t[..i - 1];
        CleanIsClean(rest);
        UnsafeLater(s[0], t, i - 1);
      }
    }
  }

  /** A path that is clean already does not change. */
  lemma {:induction false} CleanStays(s: bytes)
    requires IsClean(s)
    ensures Clean(s, false) == s
    decreases |s|
  {
    if s != [] {
      var t := s[1..];
      if s[0] == QUESTION {
        AfterQuestion(t);
      } else {
        assert s[..0] == [];
        assert !Unsafe(s, 0);
        forall i | 0 <= i < |t| && NoQuestion(t[..i]) ensures !Unsafe(t, i) {
          assert s[..i + 1] == [s[0]] + t[..i];
          assert !Unsafe(s, i + 1);
          assert s == [s[0]] + t;
        }
        CleanStays(t);
      }
    }
  }

  /** From the '?' on, nothing is changed. */
  lemma {:induction false} AfterQuestion(s: bytes)
    ensures Clean(s, true) == s
  {
    if s != [] { AfterQuestion(s[1..]); }
  }

  lemma Idempotent(s: bytes)
    ensures Clean(Clean(s, false), false) == Clean(s, false)
  {
    CleanIsClean(s);
    CleanStays(Clean(s, false));
  }

  lemma {:induction false} SkipDotsBeforeQuestion(path: bytes, args: bytes)
    requires NoQuestion(path)
    ensures SkipDots(path + [QUESTION] + args) == SkipDots(path) + [QUESTION] + args
    ensures NoQuestion(SkipDots(path))
    decreases |path|
  {
    var s := path + [QUESTION] + args;
    if At(path, 0) == SLASH {
      assert s[1..] == path[1..] + [QUESTION] + args;
      SkipDotsBeforeQuestion(path[1..], args);
    } else if At(path, 0) == DOT && At(path, 1) == SLASH {
      assert s[2..] == path[2..] + [QUESTION] + args;
      SkipDotsBeforeQuestion(path[2..], args);
    } else if At(path, 0) == DOT && At(path, 1) == DOT && At(path, 2) == SLASH {
      assert s[3..] == path[3..] + [QUESTION] + args;
      SkipDotsBeforeQuestion(path[3..], args);
    }
  }

  /** The part from the first '?' on survives unchanged, and the part before it is cleaned on its own. */
  lemma {:induction false} ArgumentsSurvive(path: bytes, args: bytes)
    requires NoQuestion(path)
    ensures Clean(path + [QUESTION] + args, false) == Clean(path, false) + [QUESTION] + args
    decreases |path|
  {
    var s := path + [QUESTION] + args;
    if path == [] {
      AfterQuestion(args);
      assert s[1..] == args;
    } else {
      assert s[1..] == path[1..] + [QUESTION] + args;
      if path[0] == SLASH {
        SkipDotsBeforeQuestion(path[1..], args);
        ArgumentsSurvive(SkipDots(path[1..]), args);
      } else {
        ArgumentsSurvive(path[1..], args);
      }
    }
  }

  // ----- what is kept

  /** The names between the slashes. */
  function Names(s: bytes): (ns: seq<bytes>)
    ensures |ns| >= 1
  {
    if s == [] then [[]]
    else if s[0] == 47 then [[]] + Names(s[1..])
    else
      var ns := Names(s[1..]);
      [[s[0]] + ns[0]] + ns[1..]
  }

  /** Without the empty names, "." and "..", but for the last name. */
  function WithoutDots(ns: seq<bytes>): seq<bytes> {
    if |ns| <= 1 then ns
    else (if ns[0] == [] || ns[0] == [46] || ns[0] == [46, 46] then [] else ns[..1]) + WithoutDots(ns[1..])
  }

  /** A name that is not the last one stands in front of a slash. */
  lemma {:induction false} NameStands(s: bytes)
    requires |Names(s)| > 1
    ensures var k := |Names(s)[0]|;
      k < |s| && s[k] == 47 && s[..k] == Names(s)[0] && Names(s)[1..] == Names(s[k + 1..])
  {
    if s[0] != 47 {
      NameStands(s[1..]);
      var k := |Names(s[1..])[0]|;
      assert s[..k + 1] == [s[0]] + s[1..][..k] && s[1..][k + 1..] == s[k + 2..];
    }
  }

  /** What is skipped behind a slash is names that do not count. */
  lemma {:induction false} SkippedNames(s: bytes)
    ensures WithoutDots(Names(s)) == WithoutDots(Names(SkipDots(s)))
    ensures var ns := Names(SkipDots(s)); |ns| > 1 ==> ns[0] != [] && ns[0] != [46] && ns[0] != [46, 46]
    decreases |s|
  {
    if At(s, 0) == SLASH {
      SkippedNames(s[1..]);
      assert Names(s)[1..] == Names(s[1..]);
    } else if At(s, 0) == DOT && At(s, 1) == SLASH {
      SkippedNames(s[2..]);
      NamesOfDot(s);
    } else if At(s, 0) == DOT && At(s, 1) == DOT && At(s, 2) == SLASH {
      SkippedNames(s[3..]);
      NamesOfDots(s);
    } else if |Names(s)| > 1 {
      NameStands(s);
    }
  }

  lemma NamesOfDot(s: bytes)
    requires |s| >= 2 && s[0] == 46 && s[1] == 47
    ensures Names(s)[0] == [46] && Names(s)[1..] == Names(s[2..])
  {
    assert s[1..][1..] == s[2..];
    assert [s[0]] + Names(s[1..])[0] == [46];
  }

  lemma NamesOfDots(s: bytes)
    requires |s| >= 3 && s[0] == 46 && s[1] == 46 && s[2] == 47
    ensures Names(s)[0] == [46, 46] && Names(s)[1..] == Names(s[3..])
  {
    NamesOfDot(s[1..]);
    assert s[1..][2..] == s[3..];
    assert [s[0]] + Names(s[1..])[0] == [46, 46];
  }

  /** A cleaned path has the first name, and of the others those that are neither empty nor "." or "..", and the last
      one, in their order. */
  lemma {:induction false} KeptNames(path: bytes)
    requires NoQuestion(path)
    ensures Names(Clean(path, false)) == Names(path)[..1] + WithoutDots(Names(path)[1..])
    decreases |path|
  {
    hide WithoutDots;
    if path == [] {
      OneName();
      assert Names(path)[1..] == [] && Names(path)[..1] == Names(path);
    } else if path[0] == SLASH {
      var rest := SkipDots(path[1..]);
      SkippedNames(path[1..]);
      SkipDotsBeforeQuestion(path[1..], []);
      KeptNames(rest);
      FirstNameCounts(Names(rest));
      assert Names(path)[1..] == Names(path[1..]) && Names(path)[..1] == [[]];
      assert ([SLASH] + Clean(rest, false))[1..] == Clean(rest, false);
    } else {
      KeptNames(path[1..]);
      var ns, kept := Names(path[1..]), Names(Clean(path[1..], false));
      assert ([path[0]] + Clean(path[1..], false))[1..] == Clean(path[1..], false);
      assert kept[0] == ns[0] && kept[1..] == WithoutDots(ns[1..]);
      assert Names(path)[1..] == ns[1..];
    }
  }

  lemma OneName()
    ensures WithoutDots([]) == []
  {
  }

  lemma FirstNameCounts(ns: seq<bytes>)
    requires |ns| >= 1 && (|ns| > 1 ==> ns[0] != [] && ns[0] != [46] && ns[0] != [46, 46])
    ensures WithoutDots(ns) == ns[..1] + WithoutDots(ns[1..])
  {
  }

  // ----- the program

  /** The inner loop. */
  method SkipInPath(a: array<byte>, start: nat, ghost s: bytes) returns (pathname: nat)
    requires Unread(a, start, s)
    ensures start <= pathname <= |s| && s[pathname..] == SkipDots(s[start..])
  {
    pathname := start;
    while true
      invariant start <= pathname <= |s| && SkipDots(s[pathname..]) == SkipDots(s[start..])
      decreases |s| - pathname
    {
      ghost var rest := s[pathname..];
      assert a[pathname] == At(rest, 0);
      if a[pathname] == SLASH {
        assert rest[1..] == s[pathname + 1..];
        pathname := pathname + 1;
      } else if a[pathname] == DOT && a[pathname + 1] == SLASH {
        assert rest[2..] == s[pathname + 2..];
        pathname := pathname + 2;
      } else if a[pathname] == DOT && a[pathname + 1] == DOT && a[pathname + 2] == SLASH {
        assert rest[3..] == s[pathname + 3..];
        pathname := pathname + 3;
      } else {
        break;
      }
    }
  }

  /** `clean_pathname`: the write pointer never passes the read pointer. */
  method CleanPathname(a: array<byte>, ghost s: bytes)
    requires Unread(a, 0, s)
    modifies a
    ensures Terminated(a, Clean(s, false))
    ensures forall i :: |s| < i < a.Length ==> a[i] == old(a[i])
  {
    hide Clean, SkipDots;
    var cleanpath, pathname, cgiarg := 0, 0, false;
    ghost var out: bytes := [];
    assert s[0..] == s && [] + Clean(s, false) == Clean(s, false);
    while a[pathname] != 0
      invariant Unread(a, pathname, s) && cleanpath == |out| <= pathname && Wrote(a, out)
      invariant out + Clean(s[pathname..], cgiarg) == Clean(s, false)
      invariant forall i :: |s| < i < a.Length ==> a[i] == old(a[i])
      decreases |s| - pathname
    {
      var c := a[pathname];
      ghost var rest := s[pathname..];
      assert rest[1..] == s[pathname + 1..] && rest[0] == c;
      CleanStep(rest, cgiarg);
      pathname := pathname + 1;
      if c == SLASH && !cgiarg {
        pathname := SkipInPath(a, pathname, s);
        a[cleanpath] := SLASH;
      } else {
        a[cleanpath] := c;
        cgiarg := cgiarg || c == QUESTION;
      }
      Concat3(out, [c], Clean(s[pathname..], cgiarg));
      out, cleanpath := out + [c], cleanpath + 1;
    }
    CleanOfNothing(cgiarg);
    assert s[pathname..] == [] && out + [] == out;
    a[cleanpath] := 0;
  }

  lemma CleanStep(s: bytes, cgiarg: bool)
    requires s != []
    ensures Clean(s, cgiarg) == [s[0]] + if s[0] == SLASH && !cgiarg then Clean(SkipDots(s[1..]), false)
                                         else Clean(s[1..], cgiarg || s[0] == QUESTION)
  {
  }

  lemma CleanOfNothing(cgiarg: bool)
    ensures Clean([], cgiarg) == []
  {
  }
}
