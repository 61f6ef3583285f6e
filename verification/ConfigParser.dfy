/** `yyparse`: the table-driven driver, its stacks, and the semantic actions. */
module ConfigParser {
  import opened ConfigTables
  import opened ConfigGrammar

  /** A semantic value: it points into the lexer's state for one token. */
  datatype Value = Garbage | Sem(index: nat)

  // ----- what each state still has to do

  /** The outcome from state `s` on, when `at` tokens have been shifted. */
  ghost function Rest(s: nat, ts: seq<Token>, at: nat, hold: string, mime: string): Outcome
    requires at <= |ts| && Shape(s, ts, at, hold)
  {
    if s == 4 then After(Fire(ts[at - 1], NoArgs(ts[at - 1].text)), Config(ts[at..]))
    else if s == 5 then
      if at < |ts| && Kind(ts[at]) == STRING then
        After(Fire(ts[at - 1], OneArg(ts[at - 1].text, ts[at].text)), Config(ts[at + 1..]))
      else Outcome(false, [])
    else if s == 12 then After(Fire(ts[at - 2], OneArg(ts[at - 2].text, ts[at - 1].text)), Config(ts[at..]))
    else if s == 6 then
      if at + 1 < |ts| && Kind(ts[at]) == STRING && Kind(ts[at + 1]) == STRING then
        After(Fire(ts[at - 1], TwoArgs(ts[at - 1].text, ts[at].text, ts[at + 1].text)), Config(ts[at + 2..]))
      else Outcome(false, [])
    else if s == 13 || s == 16 then
      if at < |ts| && Kind(ts[at]) == STRING then
        After(Fire(ts[at - 2], TwoArgs(ts[at - 2].text, ts[at - 1].text, ts[at].text)), Config(ts[at + 1..]))
      else Outcome(false, [])
    else if s == 18 then
      After(Fire(ts[at - 3], TwoArgs(ts[at - 3].text, ts[at - 2].text, ts[at - 1].text)), Config(ts[at..]))
    else if s == 14 then Extensions(ts[at..], ts[at - 1].text)
    else if s in {17, 19, 21} then Extensions(ts[at..], mime)
    else if s == 20 then After([AddType(ts[at - 1].text, mime)], Extensions(ts[at..], mime))
    else if s in {11, 15} then MimeTypes(ts[at..])
    else if s == 1 then Outcome(at == |ts|, [])
    else if s == 3 then Outcome(true, [])
    else Config(ts[at..])
  }

  /** The tokens behind the position that a state's stack stands for. */
  ghost predicate Shape(s: nat, ts: seq<Token>, at: nat, hold: string) {
    at <= |ts| && s < YYNSTATES &&
    (s == 3 ==> at == |ts|) &&
    (s in {4, 5, 6, 14, 20} ==> at >= 1) &&
    (s in {12, 13, 16} ==> at >= 2) && (s == 18 ==> at >= 3) &&
    (s == 16 ==> hold == ts[at - 1].text) && (s == 18 ==> hold == ts[at - 2].text)
  }

  /** Steps left until the next shift. */
  ghost function Rank(s: nat): nat {
    if s in {20, 14} then 7 else if s in {21, 17, 4, 12, 18} then 6 else if s in {19, 8, 9, 10} then 5
    else if s in {7, 0, 15} then 4 else if s == 2 then 3 else if s in {11, 13} then 2 else if s == 3 then 0 else 1
  }

  // ----- each step keeps the outcome

  /** Without a matching entry or default, the outcome is failure. */
  lemma StuckFails(s: nat, ts: seq<Token>, at: nat, hold: string, mime: string)
    requires Shape(s, ts, at, hold) && s != YYFINAL && Stream(ts)
    requires yydefact[s] == 0 && ShiftOf(s, if at < |ts| then Kind(ts[at]) else 0) == -1
    ensures Rest(s, ts, at, hold, mime) == Outcome(false, [])
  {
  }

  lemma ShiftKeeps(s: nat, ts: seq<Token>, at: nat, hold: string, mime: string)
    requires Shape(s, ts, at, hold) && at < |ts| && ShiftOf(s, Kind(ts[at])) != -1 && Stream(ts)
    ensures var s' := ShiftOf(s, Kind(ts[at]));
      s' >= 0 && s' != 3 && Shape(s', ts, at + 1, hold) && Rest(s', ts, at + 1, hold, mime) == Rest(s, ts, at, hold, mime)
  {
    assert Kind(ts[at]) != 0;
    assert ts[at..][1..] == ts[at + 1..];
    if at + 1 < |ts| { assert ts[at..][2..] == ts[at + 2..]; }
    if at + 2 < |ts| { assert ts[at..][3..] == ts[at + 3..]; }
  }

  /** Shifting the end of the input. */
  lemma EndKeeps(ts: seq<Token>, hold: string, mime: string)
    ensures Shape(1, ts, |ts|, hold) && Shape(3, ts, |ts|, hold)
    ensures Rest(1, ts, |ts|, hold, mime) == Rest(3, ts, |ts|, hold, mime)
    ensures Rank(3) < Rank(1)
  {
  }

  /** What the action of a state's default reduction calls, and the two globals it leaves. */
  ghost function Effect(s: nat, ts: seq<Token>, at: nat, hold: string, mime: string): (seq<Call>, string, string)
    requires Shape(s, ts, at, hold)
  {
    if s == 4 then (Fire(ts[at - 1], NoArgs(ts[at - 1].text)), hold, mime)
    else if s == 12 then (Fire(ts[at - 2], OneArg(ts[at - 2].text, ts[at - 1].text)), hold, mime)
    else if s == 13 then ([], ts[at - 1].text, mime)
    else if s == 18 then (Fire(ts[at - 3], TwoArgs(ts[at - 3].text, hold, ts[at - 1].text)), hold, mime)
    else if s == 14 then ([], hold, ts[at - 1].text)
    else if s == 20 then ([AddType(ts[at - 1].text, mime)], hold, mime)
    else ([], hold, mime)
  }

  lemma ReduceKeeps(s: nat, ts: seq<Token>, at: nat, hold: string, mime: string)
    requires Shape(s, ts, at, hold) && s != YYFINAL && yydefact[s] != 0 && Stream(ts)
    requires ShiftOf(s, if at < |ts| then Kind(ts[at]) else 0) == -1
    ensures var (calls, hold', mime') := Effect(s, ts, at, hold, mime);
      Shape(ReduceOf(s), ts, at, hold') && Rank(ReduceOf(s)) < Rank(s) &&
      After(calls, Rest(ReduceOf(s), ts, at, hold', mime')) == Rest(s, ts, at, hold, mime)
  {
    if s == 19 { ExtensionsEnd(ts[at..], mime); }
  }

  lemma ExtensionsEnd(ts: seq<Token>, mime: string)
    requires !Starts(ts, STRING)
    ensures Extensions(ts, mime) == MimeTypes(ts)
  {
  }

  // ----- the driver

  class Parser {
    const tokens: seq<Token>
    const yyss: array<int>
    const yyvs: array<Value>
    var yyssp: nat       // index of the top of both stacks
    var yystate: nat
    var yychar: int
    var yylval: Value
    var lexed: nat       // tokens the lexer has produced
    var yynerrs: nat
    var arg1hold: string
    var mime_type: string
    var calls: seq<Call> // calls the actions have made
    ghost var at: nat    // tokens shifted

    constructor (tokens: seq<Token>)
      requires Stream(tokens)
      ensures fresh(yyss) && fresh(yyvs) && this.tokens == tokens && calls == [] && at == 0 && yystate == 0 && Valid()
      ensures yynerrs == 0
    {
      this.tokens := tokens;
      yyss := new int[YYINITDEPTH](_ => 0);
      yyvs := new Value[YYINITDEPTH](_ => Garbage);
      yyssp, yystate, yychar, yylval, lexed, yynerrs := 0, 0, YYEMPTY, Garbage, 0, 0;
      arg1hold, mime_type, calls, at := "", "", [], 0;
    }

    /** The look-ahead token, if one has been read, is the one behind the shifted ones. */
    ghost predicate Looking()
      reads this
    {
      if yychar == YYEMPTY then lexed == at || yystate == YYFINAL
      else lexed == at + 1 && yylval == Sem(at) && yychar == if at < |tokens| then tokens[at].code else YYEOF
    }

    /** The values that actions will use. */
    ghost predicate Values()
      reads this, yyvs
      requires yyvs.Length == YYINITDEPTH && Shape(yystate, tokens, at, arg1hold)
    {
      (yystate in {4, 5, 6} ==> yyvs[2] == Sem(at - 1)) &&
      (yystate in {12, 13} ==> yyvs[2] == Sem(at - 2) && yyvs[3] == Sem(at - 1)) &&
      (yystate == 16 ==> yyvs[2] == Sem(at - 2)) &&
      (yystate == 18 ==> yyvs[2] == Sem(at - 3) && yyvs[5] == Sem(at - 1)) &&
      (yystate == 14 ==> yyvs[3] == Sem(at - 1)) &&
      (yystate == 20 ==> yyvs[6] == Sem(at - 1)) &&
      (yystate in {4, 12, 13, 14, 18, 20} ==> yychar == YYEMPTY)
    }

    ghost predicate Valid()
      reads this, yyss, yyvs
    {
      yyss.Length == yyvs.Length == YYINITDEPTH && Stream(tokens) &&
      Shape(yystate, tokens, at, arg1hold) && yyssp + 1 == |StackOf(yystate)| &&
      (forall i :: 0 <= i <= yyssp ==> yyss[i] == StackOf(yystate)[i]) &&
      Looking() && Values()
    }

    ghost function Remaining(): Outcome
      reads this
      requires Shape(yystate, tokens, at, arg1hold)
    {
      After(calls, Rest(yystate, tokens, at, arg1hold, mime_type))
    }

    /** `YYLEX`, with the translation that follows it. */
    method Lookahead() returns (yytoken: nat)
      requires Valid() && yystate != YYFINAL
      requires yystate !in {4, 12, 13, 14, 18, 20}
      modifies this`yychar, this`yylval, this`lexed
      ensures Valid() && yytoken == (if at < |tokens| then Kind(tokens[at]) else 0)
      ensures yychar != YYEMPTY
    {
      if yychar == YYEMPTY {
        yychar := if lexed < |tokens| then tokens[lexed].code else YYEOF;
        yylval := Sem(lexed);
        lexed := lexed + 1;
      }
      yytoken := Translate(yychar);
    }

    /** Shifts the look-ahead token and enters state `n`. */
    method Shift(n: nat)
      requires Valid() && yychar != YYEMPTY && yystate != YYFINAL
      requires n == ShiftOf(yystate, if at < |tokens| then Kind(tokens[at]) else 0)
      modifies this`yychar, this`yystate, this`yyssp, this`at, yyss, yyvs
      ensures Valid() && Remaining() == old(Remaining())
      ensures at == old(at) + 1 || (at == old(at) && Rank(yystate) < Rank(old(yystate)))
    {
      hide Rest, Rank;
      ShiftStack(yystate, if at < |tokens| then Kind(tokens[at]) else 0);
      if at < |tokens| {
        ShiftKeeps(yystate, tokens, at, arg1hold, mime_type);
        at := at + 1;
      } else {
        EndKeeps(tokens, arg1hold, mime_type);
      }
      yychar := YYEMPTY;
      yystate := n;
      yyssp := yyssp + 1;
      yyvs[yyssp] := yylval;
      yyss[yyssp] := yystate;
    }
  
    /** `yyvsp[k].sval`: the lexer's text buffer, which the next token overwrites. */
    method Text(v: Value) returns (text: string)
      requires v.Sem? && v.index + 1 == lexed <= |tokens|
      ensures text == tokens[v.index].text
    {
      text := tokens[v.index].text;
    }

    /** `yyvsp[k].cval`: an entry of the command table. */
    method Command(v: Value) returns (cmd: Token)
      requires v.Sem? && v.index < |tokens|
      ensures cmd == tokens[v.index]
    {
      cmd := tokens[v.index];
    }

    /** The semantic action of rule `yyn`. */
    method Act(yyn: nat)
      requires Valid() && yystate != YYFINAL && yyn == yydefact[yystate] != 0
      modifies this`arg1hold, this`mime_type, this`calls
      ensures var (new_calls, hold, mime) := Effect(yystate, tokens, at, old(arg1hold), old(mime_type));
        calls == old(calls) + new_calls && arg1hold == hold && mime_type == mime
    {
      if yyn == 8 {
        var cmd := Command(yyvs[yyssp]);
        if cmd.active { calls := calls + [NoArgs(cmd.text)]; }
      } else if yyn == 9 {
        var cmd := Command(yyvs[yyssp - 1]);
        var arg := Text(yyvs[yyssp]);
        if cmd.active { calls := calls + [OneArg(cmd.text, arg)]; }
      } else if yyn == 10 {
        arg1hold := Text(yyvs[yyssp]);
      } else if yyn == 11 {
        var cmd := Command(yyvs[yyssp - 3]);
        var arg := Text(yyvs[yyssp]);
        if cmd.active { calls := calls + [TwoArgs(cmd.text, arg1hold, arg)]; }
      } else if yyn == 14 {
        mime_type := Text(yyvs[yyssp]);
      } else if yyn == 18 {
        var arg := Text(yyvs[yyssp]);
        calls := calls + [AddType(arg, mime_type)];
      }
    }

    /** `yyreduce`: the action, then the right-hand side makes way for the left. */
    method Reduce(yyn: nat)
      requires Valid() && yystate != YYFINAL && yyn == yydefact[yystate] != 0
      requires ShiftOf(yystate, if at < |tokens| then Kind(tokens[at]) else 0) == -1
      modifies this`arg1hold, this`mime_type, this`calls, this`yystate, this`yyssp, yyss, yyvs
      ensures Valid() && Remaining() == old(Remaining())
      ensures Rank(yystate) < Rank(old(yystate))
    {
      hide Rest, Rank, After, Effect;
      ReduceStack(yystate);
      ReduceKeeps(yystate, tokens, at, arg1hold, mime_type);
      ghost var before, s := calls, yystate;
      ghost var (new_calls, hold, mime) := Effect(s, tokens, at, arg1hold, mime_type);
      AfterAfter(before, new_calls, Rest(ReduceOf(s), tokens, at, hold, mime));
      var yylen := yyr2[yyn];
      var yyval := yyvs[yyssp + 1 - yylen];
      Act(yyn);
      Pop(yyn, yylen, yyval);
    }

    /** Pops `yylen` entries and pushes the state that the goto tables give. */
    method Pop(yyn: nat, yylen: nat, yyval: Value)
      requires yyss.Length == yyvs.Length == YYINITDEPTH
      requires yystate < YYNSTATES && yystate != YYFINAL && yyn == yydefact[yystate] != 0 && yylen == yyr2[yyn]
      requires yyssp + 1 == |StackOf(yystate)| && forall i :: 0 <= i <= yyssp ==> yyss[i] == StackOf(yystate)[i]
      modifies this`yystate, this`yyssp, yyss, yyvs
      ensures yystate == ReduceOf(old(yystate)) && yyssp + 1 == |StackOf(yystate)|
      ensures forall i :: 0 <= i <= yyssp ==> yyss[i] == StackOf(yystate)[i]
      ensures forall i :: 0 <= i < yyssp ==> yyvs[i] == old(yyvs[i])
    {
      ReduceStack(yystate);
      yyssp := yyssp - yylen;
      yystate := Goto(yyr1[yyn], yyss[yyssp]);
      yyssp := yyssp + 1;
      yyvs[yyssp] := yyval;
      yyss[yyssp] := yystate;
    }

    /** `yyerrlab`: reports the error and pops every state, since none can shift the error token. */
    method Recover()
      requires Valid()
      modifies this`yynerrs, this`yyssp
      ensures yynerrs == old(yynerrs) + 1 && yyssp == 0
    {
      yynerrs := yynerrs + 1;
      while true
        invariant yynerrs == old(yynerrs) + 1 && yyssp < YYINITDEPTH
        invariant forall i :: 0 <= i <= yyssp ==> 0 <= yyss[i] < YYNSTATES
        decreases yyssp
      {
        NoErrorEntry(yyss[yyssp]);
        if Entry(yyss[yyssp], YYTERROR) > 0 || yyssp == 0 {
          break;
        }
        yyssp := yyssp - 1;
      }
    }

    /** `yybackup` to the next new state: one shift or one reduction, unless neither is possible. */
    method Step() returns (stuck: bool)
      requires Valid() && yystate != YYFINAL
      modifies this, yyss, yyvs
      ensures Valid() && Remaining() == old(Remaining()) && yynerrs == old(yynerrs)
      ensures stuck ==> !Remaining().ok && calls == Remaining().calls
      ensures !stuck ==> at > old(at) || (at == old(at) && Rank(yystate) < Rank(old(yystate)))
    {
      hide Rest, Rank, ShiftOf, Entry;
      if yypact[yystate] != YYPACT_NINF {
        var yytoken := Lookahead();
        EntryIsShift(yystate, yytoken);
        var yyn := Entry(yystate, yytoken);
        if yyn != -1 {
          Shift(yyn);
          return false;
        }
      }
      if yypact[yystate] == YYPACT_NINF { NoShiftByDefault(yystate); }
      assert ShiftOf(yystate, if at < |tokens| then Kind(tokens[at]) else 0) == -1;
      var yyn := yydefact[yystate];
      if yyn == 0 {
        StuckFails(yystate, tokens, at, arg1hold, mime_type);
        assert calls + [] == calls;
        return true;
      }
      Reduce(yyn);
      stuck := false;
    }

    /** `yyparse`: 0 exactly for the sentences of the grammar, and in every case the calls of the longest start
        that a left-to-right reading completes. */
    method Parse() returns (result: int)
      requires Valid() && at == 0 && yystate == 0 && calls == [] && yynerrs == 0
      modifies this, yyss, yyvs
      ensures result == if Config(tokens).ok then 0 else 1
      ensures calls == Config(tokens).calls
      ensures yynerrs == result
    {
      EmptyStart(tokens);
      hide Config;
      while true
        invariant Valid() && Remaining() == Config(tokens) && yynerrs == 0
        decreases |tokens| - at, Rank(yystate)
      {
        assert yyssp < YYINITDEPTH - 1; // the stacks are never extended
        if yystate == YYFINAL {
          return 0;
        }
        var stuck := Step();
        if stuck {
          Recover();
          return 1;
        }
      }
    }
  }

  lemma EmptyStart(ts: seq<Token>)
    ensures ts[0..] == ts && After([], Config(ts)) == Config(ts)
  {
  }

  lemma NoErrorEntry(s: nat)
    requires s < YYNSTATES
    ensures Entry(s, YYTERROR) == -1
  {
    EntryIsShift(s, YYTERROR);
  }

  /** A whole file: success is derivability, and the calls are those of any derivation. */
  method ParseFile(tokens: seq<Token>) returns (result: int, calls: seq<Call>)
    requires Stream(tokens)
    ensures result == 0 || result == 1
    ensures result == 0 <==> exists t :: Derivation(t) && Symbol(t) == 10 && Yield(t) == tokens
    ensures forall t | Derivation(t) && Symbol(t) == 10 && Yield(t) == tokens :: calls == Meaning(t, "")
  {
    var p := new Parser(tokens);
    result := p.Parse();
    calls := p.calls;
    AcceptedIffDerived(tokens);
    forall t | Derivation(t) && Symbol(t) == 10 && Yield(t) == tokens ensures calls == Meaning(t, "") {
      DerivationsAreAccepted(t, "");
    }
  }
}
