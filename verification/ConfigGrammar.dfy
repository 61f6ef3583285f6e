/** What the grammar in `yyr1`/`yyrhs` says: derivation trees, the sentences they yield and the calls they stand for. */
module ConfigGrammar {
  import opened ConfigTables

  /** One call made by a semantic action. */
  datatype Call =
    | NoArgs(cmd: string)
    | OneArg(cmd: string, arg: string)
    | TwoArgs(cmd: string, arg1: string, arg2: string)
    | AddType(extension: string, mimetype: string)

  /** A command whose table entry has no action is skipped. */
  function Fire(cmd: Token, call: Call): seq<Call> { if cmd.active then [call] else [] }

  // ----- the language, read from left to right

  /** Accepted or not, and the calls made on the way. */
  datatype Outcome = Outcome(ok: bool, calls: seq<Call>)

  function After(calls: seq<Call>, o: Outcome): Outcome { Outcome(o.ok, calls + o.calls) }

  predicate Starts(ts: seq<Token>, kind: nat) { ts != [] && Kind(ts[0]) == kind }

  /** (NOARGS | ONEARG STRING | TWOARGS STRING STRING)* followed by the MIME-type lines. */
  function Config(ts: seq<Token>): Outcome {
    if Starts(ts, NOARGS) then After(Fire(ts[0], NoArgs(ts[0].text)), Config(ts[1..]))
    else if Starts(ts, ONEARG) then
      if |ts| >= 2 && Kind(ts[1]) == STRING then
        After(Fire(ts[0], OneArg(ts[0].text, ts[1].text)), Config(ts[2..]))
      else Outcome(false, [])
    else if Starts(ts, TWOARGS) then
      if |ts| >= 3 && Kind(ts[1]) == STRING && Kind(ts[2]) == STRING then
        After(Fire(ts[0], TwoArgs(ts[0].text, ts[1].text, ts[2].text)), Config(ts[3..]))
      else Outcome(false, [])
    else MimeTypes(ts)
  }

  /** (MIMETYPE STRING*)* */
  function MimeTypes(ts: seq<Token>): Outcome {
    if ts == [] then Outcome(true, [])
    else if Starts(ts, MIMETYPE) then Extensions(ts[1..], ts[0].text)
    else Outcome(false, [])
  }

  function Extensions(ts: seq<Token>, mime: string): Outcome {
    if Starts(ts, STRING) then After([AddType(ts[0].text, mime)], Extensions(ts[1..], mime))
    else if ts == [] then Outcome(true, [])
    else if Starts(ts, MIMETYPE) then Extensions(ts[1..], ts[0].text)
    else Outcome(false, [])
  }

  // ----- derivation trees

  datatype Tree = Leaf(tok: Token) | Node(rule: nat, kids: seq<Tree>)

  function Symbol(t: Tree): nat {
    match t
    case Leaf(tok) => Kind(tok)
    case Node(r, _) => if r < |yyr1| then yyr1[r] else 0
  }

  /** Every node's children are the right-hand side of its rule. */
  predicate Derivation(t: Tree) {
    match t
    case Leaf(_) => true
    case Node(r, kids) =>
      1 <= r < |yyr1| && |kids| == yyr2[r] &&
      forall i :: 0 <= i < |kids| ==> Derivation(kids[i]) && Symbol(kids[i]) == yyrhs[yyprhs[r] + i]
  }

  function Yield(t: Tree): seq<Token> {
    match t
    case Leaf(tok) => [tok]
    case Node(_, kids) => Yields(kids)
  }

  function Yields(kids: seq<Tree>): seq<Token> {
    if kids == [] then [] else Yield(kids[0]) + Yields(kids[1..])
  }

  /** Rules 8, 9, 11, 15 and 18 carry actions; the rest concatenate. */
  function Meaning(t: Tree, mime: string): seq<Call> {
    match t
    case Leaf(_) => []
    case Node(r, kids) =>
      if r == 8 && |kids| == 1 && kids[0].Leaf? then
        Fire(kids[0].tok, NoArgs(kids[0].tok.text))
      else if r == 9 && |kids| == 2 && kids[0].Leaf? && kids[1].Leaf? then
        Fire(kids[0].tok, OneArg(kids[0].tok.text, kids[1].tok.text))
      else if r == 11 && |kids| == 4 && kids[0].Leaf? && kids[1].Leaf? && kids[3].Leaf? then
        Fire(kids[0].tok, TwoArgs(kids[0].tok.text, kids[1].tok.text, kids[3].tok.text))
      else if r == 15 && |kids| == 3 && kids[0].Leaf? then
        Meaning(kids[2], kids[0].tok.text)
      else if r == 18 && |kids| == 1 && kids[0].Leaf? then
        [AddType(kids[0].tok.text, mime)]
      else Meanings(kids, mime)
  }

  function Meanings(kids: seq<Tree>, mime: string): seq<Call> {
    if kids == [] then [] else Meaning(kids[0], mime) + Meanings(kids[1..], mime)
  }

  // ----- every derivation is accepted, and means what its tokens mean

  /** The grammar, rule by rule. */
  function Rhs(r: nat): seq<int> {
    match r
    case 1 => [10, 0]
    case 2 => [11, 17]
    case 3 => [11, 12]
    case 5 => [13]
    case 6 => [14]
    case 7 => [15]
    case 8 => [NOARGS]
    case 9 => [ONEARG, STRING]
    case 11 => [TWOARGS, STRING, 16, STRING]
    case 12 => [17, 18]
    case 15 => [MIMETYPE, 19, 20]
    case 16 => [20, 21]
    case 18 => [STRING]
    case _ => []
  }

  lemma RuleLength(r: nat)
    requires 1 <= r < |yyr1|
    ensures r < |yyr2| && r < |yyprhs| && yyr2[r] == |Rhs(r)| && yyprhs[r] + yyr2[r] < |yyrhs|
    ensures yyrhs[yyprhs[r] + yyr2[r]] == -1
  {
  }

  lemma RuleSymbols(r: nat, i: nat)
    requires 1 <= r < |yyr1| && i < |Rhs(r)|
    ensures r < |yyprhs| && yyprhs[r] + i < |yyrhs| && yyrhs[yyprhs[r] + i] == Rhs(r)[i]
  {
    assert i in [0, 1, 2, 3];
  }

  lemma RuleLeft(r: nat)
    requires 1 <= r < |yyr1|
    ensures yyr1[r] == LeftOf(r)
  {
  }

  /** The left-hand side of each rule. */
  function LeftOf(r: nat): nat {
    if r == 1 then 9 else if r == 2 then 10 else if r <= 4 then 11 else if r <= 7 then 12
    else if r == 8 then 13 else if r == 9 then 14 else if r == 10 then 16 else if r == 11 then 15
    else if r <= 13 then 17 else if r == 14 then 19 else if r == 15 then 18 else if r <= 17 then 20 else 21
  }

  lemma RuleIs(r: nat, i: nat)
    requires 1 <= r < |yyr1|
    ensures r < |yyr2| && r < |yyprhs| && yyr2[r] == |Rhs(r)| && yyprhs[r] + yyr2[r] < |yyrhs|
    ensures yyrhs[yyprhs[r] + yyr2[r]] == -1
    ensures i < |Rhs(r)| ==> yyrhs[yyprhs[r] + i] == Rhs(r)[i]
    ensures yyr1[r] == LeftOf(r)
  {
    hide Rhs, LeftOf;
    RuleLength(r);
    RuleLeft(r);
    if i < |Rhs(r)| { RuleSymbols(r, i); }
  }

  lemma RuleShape(t: Tree)
    requires Derivation(t) && t.Node?
    ensures 1 <= t.rule <= 18 && |t.kids| == |Rhs(t.rule)|
    ensures forall i :: 0 <= i < |t.kids| ==> Derivation(t.kids[i]) && Symbol(t.kids[i]) == Rhs(t.rule)[i]
    ensures Symbol(t) >= YYNTOKENS
  {
    RuleIs(t.rule, 0);
    forall i | 0 <= i < |t.kids| ensures Symbol(t.kids[i]) == Rhs(t.rule)[i] { RuleIs(t.rule, i); }
  }

  lemma TerminalIsLeaf(t: Tree)
    requires Derivation(t) && Symbol(t) < YYNTOKENS
    ensures t.Leaf? && Yield(t) == [t.tok]
  {
    if t.Node? { RuleShape(t); }
  }

  lemma TwoKids(kids: seq<Tree>, mime: string)
    requires |kids| == 2
    ensures Yields(kids) == Yield(kids[0]) + Yield(kids[1])
    ensures Meanings(kids, mime) == Meaning(kids[0], mime) + Meaning(kids[1], mime)
  {
    assert kids[1..] == [kids[1]];
    OneKid(kids[1..], mime);
  }

  lemma OneKid(kids: seq<Tree>, mime: string)
    requires |kids| == 1
    ensures Yields(kids) == Yield(kids[0]) && Meanings(kids, mime) == Meaning(kids[0], mime)
  {
  }

  lemma AfterAfter(a: seq<Call>, b: seq<Call>, o: Outcome)
    ensures After(a, After(b, o)) == After(a + b, o)
  {
    assert a + (b + o.calls) == a + b + o.calls;
  }

  /** `BoaConfigStmt`: one statement's tokens. */
  lemma StatementRuns(t: Tree, rest: seq<Token>, mime: string)
    requires Derivation(t) && Symbol(t) == 12
    ensures Config(Yield(t) + rest) == After(Meaning(t, mime), Config(rest))
  {
    hide Derivation;
    RuleShape(t);
    OneKid(t.kids, mime);
    var u := t.kids[0];
    RuleShape(u);
    if u.rule == 8 {
      NoArgsRuns(u, rest, mime);
    } else if u.rule == 9 {
      OneArgRuns(u, rest, mime);
    } else {
      TwoArgsRuns(u, rest, mime);
    }
  }

  lemma NoArgsRuns(u: Tree, rest: seq<Token>, mime: string)
    requires Derivation(u) && Symbol(u) == 13
    ensures Config(Yield(u) + rest) == After(Meaning(u, mime), Config(rest))
  {
    hide Derivation;
    RuleShape(u);
    TerminalIsLeaf(u.kids[0]);
    OneKid(u.kids, mime);
    assert (Yield(u) + rest)[1..] == rest;
  }

  lemma OneArgRuns(u: Tree, rest: seq<Token>, mime: string)
    requires Derivation(u) && Symbol(u) == 14
    ensures Config(Yield(u) + rest) == After(Meaning(u, mime), Config(rest))
  {
    hide Derivation;
    RuleShape(u);
    TerminalIsLeaf(u.kids[0]);
    TerminalIsLeaf(u.kids[1]);
    TwoKids(u.kids, mime);
    assert (Yield(u) + rest)[2..] == rest;
  }

  lemma TwoArgsRuns(u: Tree, rest: seq<Token>, mime: string)
    requires Derivation(u) && Symbol(u) == 15
    ensures Config(Yield(u) + rest) == After(Meaning(u, mime), Config(rest))
  {
    hide Derivation;
    RuleShape(u);
    TerminalIsLeaf(u.kids[0]);
    TerminalIsLeaf(u.kids[1]);
    TerminalIsLeaf(u.kids[3]);
    RuleShape(u.kids[2]);
    assert Yield(u.kids[2]) == [];
    var a, b := u.kids[0].tok, u.kids[1].tok;
    assert u.kids[1..][1..] == u.kids[2..];
    TwoKids(u.kids[2..], mime);
    assert Yields(u.kids) == [a] + ([b] + ([] + [u.kids[3].tok]));
    assert (Yield(u) + rest)[3..] == rest;
  }

  /** The three lists of the grammar are empty, or a list and one more element. */
  lemma ListShape(t: Tree, mime: string)
    requires Derivation(t) && Symbol(t) in {11, 17, 20}
    ensures t.Node? && (t.kids == [] || |t.kids| == 2)
    ensures t.kids == [] ==> Yield(t) == [] && Meaning(t, mime) == []
    ensures |t.kids| == 2 ==> Derivation(t.kids[0]) && Derivation(t.kids[1])
    ensures |t.kids| == 2 ==> Symbol(t.kids[0]) == Symbol(t)
    ensures |t.kids| == 2 ==> Symbol(t.kids[1]) == if Symbol(t) == 11 then 12 else if Symbol(t) == 17 then 18 else 21
    ensures |t.kids| == 2 ==> Yield(t) == Yield(t.kids[0]) + Yield(t.kids[1])
    ensures |t.kids| == 2 ==> Meaning(t, mime) == Meaning(t.kids[0], mime) + Meaning(t.kids[1], mime)
  {
    hide Derivation;
    RuleShape(t);
    if |t.kids| == 2 { TwoKids(t.kids, mime); }
  }

  lemma {:induction false} StatementsRun(t: Tree, rest: seq<Token>, mime: string)
    requires Derivation(t) && Symbol(t) == 11
    ensures Config(Yield(t) + rest) == After(Meaning(t, mime), Config(rest))
  {
    hide Derivation, Symbol, Yield, Meaning, Config;
    ListShape(t, mime);
    if |t.kids| == 2 {
      var a, b := t.kids[0], t.kids[1];
      assert Yield(t) + rest == Yield(a) + (Yield(b) + rest);
      StatementsRun(a, Yield(b) + rest, mime);
      StatementRuns(b, rest, mime);
      AfterAfter(Meaning(a, mime), Meaning(b, mime), Config(rest));
    } else {
      assert Yield(t) + rest == rest;
    }
  }

  lemma ExtensionShape(t: Tree, mime: string) returns (tok: Token)
    requires Derivation(t) && Symbol(t) == 21
    ensures Kind(tok) == STRING && Yield(t) == [tok] && Meaning(t, mime) == [AddType(tok.text, mime)]
  {
    RuleShape(t);
    TerminalIsLeaf(t.kids[0]);
    OneKid(t.kids, mime);
    tok := t.kids[0].tok;
  }

  lemma {:induction false} ExtensionsRun(t: Tree, rest: seq<Token>, mime: string)
    requires Derivation(t) && Symbol(t) == 20
    ensures Extensions(Yield(t) + rest, mime) == After(Meaning(t, mime), Extensions(rest, mime))
  {
    hide Derivation, Symbol, Yield, Meaning;
    ListShape(t, mime);
    if |t.kids| == 2 {
      var a, b := t.kids[0], t.kids[1];
      var tok := ExtensionShape(b, mime);
      assert Yield(t) + rest == Yield(a) + (Yield(b) + rest);
      ExtensionsRun(a, Yield(b) + rest, mime);
      assert (Yield(b) + rest)[1..] == rest;
      AfterAfter(Meaning(a, mime), Meaning(b, mime), Extensions(rest, mime));
    } else {
      assert Yield(t) + rest == rest;
    }
  }

  /** One MIME-type line; what follows must not be read as a further extension. */
  lemma MimeTypeRuns(t: Tree, rest: seq<Token>, mime: string)
    requires Derivation(t) && Symbol(t) == 18 && !Starts(rest, STRING)
    ensures MimeTypes(Yield(t) + rest) == After(Meaning(t, mime), MimeTypes(rest)) && Starts(Yield(t), MIMETYPE)
  {
    hide Derivation;
    RuleShape(t);
    var k := t.kids;
    TerminalIsLeaf(k[0]);
    RuleShape(k[1]);
    assert Yield(k[1]) == [];
    TwoKids(k[1..], mime);
    assert Yields(k) == [k[0].tok] + ([] + Yield(k[2]));
    assert (Yield(t) + rest)[1..] == Yield(k[2]) + rest;
    ExtensionsRun(k[2], rest, k[0].tok.text);
  }

  lemma {:induction false} MimeTypesRun(t: Tree, rest: seq<Token>, mime: string)
    requires Derivation(t) && Symbol(t) == 17 && !Starts(rest, STRING)
    ensures MimeTypes(Yield(t) + rest) == After(Meaning(t, mime), MimeTypes(rest))
    ensures Yield(t) == [] || Starts(Yield(t), MIMETYPE)
  {
    hide Derivation, Symbol, Yield, Meaning, MimeTypes;
    ListShape(t, mime);
    if |t.kids| == 2 {
      var a, b := t.kids[0], t.kids[1];
      MimeTypeRuns(b, rest, mime);
      assert Yield(t) + rest == Yield(a) + (Yield(b) + rest);
      MimeTypesRun(a, Yield(b) + rest, mime);
      AfterAfter(Meaning(a, mime), Meaning(b, mime), MimeTypes(rest));
    } else {
      assert Yield(t) + rest == rest;
    }
  }

  /** Every derivable file is accepted, and makes the calls its derivation stands for. */
  lemma DerivationsAreAccepted(t: Tree, mime: string)
    requires Derivation(t) && Symbol(t) == 10
    ensures Config(Yield(t)) == Outcome(true, Meaning(t, mime))
  {
    RuleShape(t);
    TwoKids(t.kids, mime);
    var a, b := t.kids[0], t.kids[1];
    StatementsRun(a, Yield(b), mime);
    MimeTypesRun(b, [], mime);
    assert Yield(b) + [] == Yield(b);
    AfterAfter(Meaning(a, mime), Meaning(b, mime), Outcome(true, []));
  }

  // ----- every accepted file has a derivation

  lemma Derive(r: nat, kids: seq<Tree>)
    requires 1 <= r < |yyr1| && |kids| == |Rhs(r)|
    requires forall i :: 0 <= i < |kids| ==> (kids[i].Leaf? || Derivation(kids[i])) && Symbol(kids[i]) == Rhs(r)[i]
    ensures Derivation(Node(r, kids)) && Symbol(Node(r, kids)) == LeftOf(r)
  {
    hide Rhs, LeftOf, Symbol;
    RuleIs(r, 0);
    forall i | 0 <= i < |kids| ensures Symbol(kids[i]) == yyrhs[yyprhs[r] + i] { RuleIs(r, i); }
    SymbolIs(r, kids);
  }

  lemma SymbolIs(r: nat, kids: seq<Tree>)
    requires Derivation(Node(r, kids))
    ensures Symbol(Node(r, kids)) == LeftOf(r)
  {
    RuleLeft(r);
  }

  /** A statement put behind the statements in `left`. */
  lemma AddStatement(left: Tree, inner: nat, kids: seq<Tree>, wrap: nat) returns (t: Tree)
    requires Derivation(left) && Symbol(left) == 11
    requires (inner, wrap) in [(8, 5), (9, 6), (11, 7)] && Derivation(Node(inner, kids))
    ensures Derivation(t) && Symbol(t) == 11 && Yield(t) == Yield(left) + Yields(kids)
  {
    hide Derivation, Symbol;
    var u := Node(inner, kids);
    SymbolIs(inner, kids);
    Derive(wrap, [u]);
    OneKid([u], "");
    t := Node(3, [left, Node(wrap, [u])]);
    Derive(3, t.kids);
    TwoKids(t.kids, "");
  }

  lemma AddNoArgs(left: Tree, a: Token) returns (t: Tree)
    requires Derivation(left) && Symbol(left) == 11 && Kind(a) == NOARGS
    ensures Derivation(t) && Symbol(t) == 11 && Yield(t) == Yield(left) + [a]
  {
    hide Derivation;
    var kids := [Leaf(a)];
    Derive(8, kids);
    OneKid(kids, "");
    t := AddStatement(left, 8, kids, 5);
  }

  lemma AddOneArg(left: Tree, a: Token, b: Token) returns (t: Tree)
    requires Derivation(left) && Symbol(left) == 11 && Kind(a) == ONEARG && Kind(b) == STRING
    ensures Derivation(t) && Symbol(t) == 11 && Yield(t) == Yield(left) + [a, b]
  {
    hide Derivation;
    var kids := [Leaf(a), Leaf(b)];
    Derive(9, kids);
    TwoKids(kids, "");
    t := AddStatement(left, 9, kids, 6);
  }

  lemma Split(left: Tree, ts: seq<Token>)
    ensures |ts| >= 1 ==> Yield(left) + [ts[0]] + ts[1..] == Yield(left) + ts
    ensures |ts| >= 2 ==> Yield(left) + [ts[0], ts[1]] + ts[2..] == Yield(left) + ts
    ensures |ts| >= 3 ==> Yield(left) + [ts[0], ts[1], ts[2]] + ts[3..] == Yield(left) + ts
  {
  }

  lemma {:induction false} BuildStatements(ts: seq<Token>, left: Tree) returns (t: Tree)
    requires Derivation(left) && Symbol(left) == 11 && Config(ts).ok
    ensures Derivation(t) && Symbol(t) == 10 && Yield(t) == Yield(left) + ts
    decreases |ts|
  {
    hide Derivation, Yield, Symbol, MimeTypes, Fire;
    Split(left, ts);
    if Starts(ts, NOARGS) {
      var left' := AddNoArgs(left, ts[0]);
      t := BuildStatements(ts[1..], left');
    } else if Starts(ts, ONEARG) {
      var left' := AddOneArg(left, ts[0], ts[1]);
      t := BuildStatements(ts[2..], left');
    } else if Starts(ts, TWOARGS) {
      var kids := TwoArgsKids(ts[0], ts[1], ts[2]);
      var left' := AddStatement(left, 11, kids, 7);
      t := BuildStatements(ts[3..], left');
    } else {
      t := AddMimeTypes(left, ts);
    }
  }

  lemma AddMimeTypes(left: Tree, ts: seq<Token>) returns (t: Tree)
    requires Derivation(left) && Symbol(left) == 11 && MimeTypes(ts).ok
    ensures Derivation(t) && Symbol(t) == 10 && Yield(t) == Yield(left) + ts
  {
    hide Derivation;
    Derive(13, []);
    var types := BuildMimeTypes(ts, Node(13, []));
    t := Node(2, [left, types]);
    Derive(2, t.kids);
    TwoKids(t.kids, "");
  }

  lemma TwoArgsKids(a: Token, b: Token, c: Token) returns (kids: seq<Tree>)
    requires Kind(a) == TWOARGS && Kind(b) == STRING && Kind(c) == STRING
    ensures Derivation(Node(11, kids)) && Yields(kids) == [a, b, c]
  {
    Derive(10, []);
    kids := [Leaf(a), Leaf(b), Node(10, []), Leaf(c)];
    Derive(11, kids);
    assert Yield(Node(10, [])) == [] && kids[1..][1..] == kids[2..] == [Node(10, []), Leaf(c)];
    TwoKids(kids[2..], "");
    assert Yields(kids[1..]) == [b] + ([] + [c]);
  }

  lemma NoExtensions() returns (list: Tree)
    ensures Derivation(list) && Symbol(list) == 20 && Yield(list) == []
  {
    Derive(17, []);
    list := Node(17, []);
  }

  lemma AddExtension(list: Tree, a: Token) returns (t: Tree)
    requires Derivation(list) && Symbol(list) == 20 && Kind(a) == STRING
    ensures Derivation(t) && Symbol(t) == 20 && Yield(t) == Yield(list) + [a]
  {
    hide Derivation;
    t := Node(16, [list, Node(18, [Leaf(a)])]);
    Derive(18, [Leaf(a)]);
    OneKid([Leaf(a)], "");
    Derive(16, t.kids);
    TwoKids(t.kids, "");
  }

  lemma {:induction false} BuildMimeTypes(ts: seq<Token>, left: Tree) returns (t: Tree)
    requires Derivation(left) && Symbol(left) == 17 && MimeTypes(ts).ok
    ensures Derivation(t) && Symbol(t) == 17 && Yield(t) == Yield(left) + ts
    decreases |ts|, 1
  {
    hide Derivation, Symbol, Yield, Extensions;
    if ts == [] {
      t := left;
    } else {
      var list := NoExtensions();
      t := BuildExtensions(ts[1..], left, ts[0], list, ts[0].text);
      assert ts == [ts[0]] + ts[1..];
    }
  }

  lemma {:induction false} BuildExtensions(ts: seq<Token>, left: Tree, m: Token, list: Tree, mime: string) returns (t: Tree)
    requires Derivation(left) && Symbol(left) == 17 && Derivation(list) && Symbol(list) == 20
    requires Kind(m) == MIMETYPE && Extensions(ts, mime).ok
    ensures Derivation(t) && Symbol(t) == 17 && Yield(t) == Yield(left) + [m] + Yield(list) + ts
    decreases |ts|, 2
  {
    hide Derivation, Symbol, Yield;
    if Starts(ts, STRING) {
      var list' := AddExtension(list, ts[0]);
      t := BuildExtensions(ts[1..], left, m, list', mime);
      assert ts == [ts[0]] + ts[1..];
    } else {
      var left' := CloseMimeType(left, m, list);
      t := BuildMimeTypes(ts, left');
    }
  }

  lemma CloseMimeType(left: Tree, m: Token, list: Tree) returns (t: Tree)
    requires Derivation(left) && Symbol(left) == 17 && Derivation(list) && Symbol(list) == 20 && Kind(m) == MIMETYPE
    ensures Derivation(t) && Symbol(t) == 17 && Yield(t) == Yield(left) + [m] + Yield(list)
  {
    hide Derivation;
    Derive(14, []);
    var kids := [Leaf(m), Node(14, []), list];
    Derive(15, kids);
    assert kids[1..] == [Node(14, []), list];
    TwoKids(kids[1..], "");
    assert Yields(kids) == [m] + ([] + Yield(list));
    t := Node(12, [left, Node(15, kids)]);
    Derive(12, t.kids);
    TwoKids(t.kids, "");
  }

  /** The language read from left to right is the language of the grammar. */
  lemma AcceptedIffDerived(ts: seq<Token>)
    ensures Config(ts).ok <==> exists t :: Derivation(t) && Symbol(t) == 10 && Yield(t) == ts
  {
    if Config(ts).ok {
      Derive(4, []);
      var t := BuildStatements(ts, Node(4, []));
      assert Yield(t) == ts;
    }
    forall t | Derivation(t) && Symbol(t) == 10 && Yield(t) == ts ensures Config(ts).ok {
      DerivationsAreAccepted(t, "");
    }
  }
}
