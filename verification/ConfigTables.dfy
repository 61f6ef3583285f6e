/** The compressed tables of the configuration-file parser, and the grammar they were made from. */
module ConfigTables {

  const YYFINAL: nat := 3
  const YYLAST: nat := 11
  const YYNTOKENS: nat := 9
  const YYNSTATES: nat := 22
  const YYUNDEFTOK: nat := 2
  const YYTERROR: nat := 1
  const YYINITDEPTH: nat := 200
  const YYPACT_NINF: int := -4
  const YYEMPTY: int := -2
  const YYEOF: int := 0

  const yyprhs: seq<nat> := [0, 0, 3, 6, 9, 10, 12, 14, 16, 18, 21, 22, 27, 30, 31, 32, 36, 39, 40]
  const yyrhs: seq<int> := [
    10, 0, -1, 11, 17, -1, 11, 12, -1, -1,
    13, -1, 14, -1, 15, -1, 3, -1, 4, 7,
    -1, -1, 5, 7, 16, 7, -1, 17, 18, -1,
    -1, -1, 6, 19, 20, -1, 20, 21, -1, -1,
    7, -1]
  const yyr1: seq<nat> := [0, 9, 10, 11, 11, 12, 12, 12, 13, 14, 16, 15, 17, 17, 19, 18, 20, 20, 21]
  const yyr2: seq<nat> := [0, 2, 2, 2, 0, 1, 1, 1, 1, 2, 0, 4, 2, 0, 0, 3, 2, 0, 1]
  const yydefact: seq<nat> := [4, 0, 13, 1, 8, 0, 0, 3, 5, 6, 7, 2, 9, 10, 14, 12, 0, 17, 11, 15, 18, 16]
  const yydefgoto: seq<int> := [-1, 1, 2, 7, 8, 9, 10, 16, 11, 15, 17, 19, 21]
  const yypact: seq<int> := [-4, 3, -3, -4, -4, -2, -1, -4, -4, -4, -4, 1, -4, -4, -4, -4, 2, -4, -4, 4, -4, -4]
  const yypgoto: seq<int> := [-4, -4, -4, -4, -4, -4, -4, -4, -4, -4, -4, -4, -4]
  const yytable: seq<nat> := [4, 5, 6, 3, 0, 12, 13, 14, 0, 18, 0, 20]
  const yycheck: seq<int> := [3, 4, 5, 0, -1, 7, 7, 6, -1, 7, -1, 7]

  // symbol numbers
  const NOARGS: nat := 3
  const ONEARG: nat := 4
  const TWOARGS: nat := 5
  const MIMETYPE: nat := 6
  const STRING: nat := 7

  /** A token as the lexer hands it over; `active` says whether its command has an action. */
  datatype Token = Token(code: int, text: string, active: bool)

  /** `YYTRANSLATE`: 256 to 263 are the declared tokens, everything else is undefined. */
  function Translate(code: int): (sym: nat)
    ensures sym <= 8
  {
    if code <= 0 then 0
    else if code == 256 then YYTERROR
    else if 258 <= code <= 263 then code - 255
    else YYUNDEFTOK
  }

  function Kind(t: Token): nat { Translate(t.code) }

  /** The lexer returns a positive code for every token; 0 ends the input. */
  ghost predicate Stream(ts: seq<Token>) { forall i :: 0 <= i < |ts| ==> ts[i].code > 0 }

  /** The entry of the compressed action table for a state and a look-ahead symbol, if there is one. */
  function Entry(state: nat, sym: nat): (n: int)
    requires state < YYNSTATES
    ensures n >= -1
  {
    var yyn := yypact[state] + sym;
    if yypact[state] == YYPACT_NINF || yyn < 0 || YYLAST < yyn || yycheck[yyn] != sym then -1 else yytable[yyn]
  }

  /** The state entered after reducing to the nonterminal `sym` on top of `state`. */
  function Goto(sym: nat, state: int): int
    requires YYNTOKENS <= sym < YYNTOKENS + 13
  {
    var yystate := yypgoto[sym - YYNTOKENS] + state;
    if 0 <= yystate <= YYLAST && yycheck[yystate] == state then yytable[yystate] else yydefgoto[sym - YYNTOKENS]
  }

  /** Each state occurs with one stack only: the states that lead to it. */
  function StackOf(s: nat): (r: seq<int>)
    ensures 1 <= |r| <= 7
  {
    match s
    case 0 => [0]
    case 1 => [0, 1]
    case 3 => [0, 1, 3]
    case 12 => [0, 2, 5, 12]
    case 13 => [0, 2, 6, 13]
    case 16 => [0, 2, 6, 13, 16]
    case 18 => [0, 2, 6, 13, 16, 18]
    case 14 => [0, 2, 11, 14]
    case 15 => [0, 2, 11, 15]
    case 17 => [0, 2, 11, 14, 17]
    case 19 => [0, 2, 11, 14, 17, 19]
    case 20 => [0, 2, 11, 14, 17, 19, 20]
    case 21 => [0, 2, 11, 14, 17, 19, 21]
    case 2 => [0, 2]
    case _ => [0, 2, s]
  }

  /** Which symbol each state can shift, and the state it then enters. */
  function ShiftOf(s: nat, sym: nat): int {
    if s == 2 && sym == NOARGS then 4
    else if s == 2 && sym == ONEARG then 5
    else if s == 2 && sym == TWOARGS then 6
    else if s == 5 && sym == STRING then 12
    else if s == 6 && sym == STRING then 13
    else if s == 16 && sym == STRING then 18
    else if s == 11 && sym == MIMETYPE then 14
    else if s == 19 && sym == STRING then 20
    else if s == 1 && sym == 0 then 3
    else -1
  }

  lemma NoShiftByDefault(s: nat)
    requires s < YYNSTATES && yypact[s] == YYPACT_NINF
    ensures forall sym :: ShiftOf(s, sym) == -1
  {
  }

  lemma EntryIsShift(s: nat, sym: nat)
    requires s < YYNSTATES && sym <= 8
    ensures Entry(s, sym) == ShiftOf(s, sym)
  {
    assert yypact[s] in [-4, 3, -3, -2, -1, 1, 2, 4];
  }

  /** A shift pushes exactly the new state. */
  lemma ShiftStack(s: nat, sym: nat)
    requires s < YYNSTATES && ShiftOf(s, sym) != -1
    ensures 0 <= ShiftOf(s, sym) < YYNSTATES && StackOf(ShiftOf(s, sym)) == StackOf(s) + [ShiftOf(s, sym)]
  {
  }

  /** Where a state's default reduction leads. */
  function ReduceOf(s: nat): nat {
    match s
    case 0 => 2
    case 4 => 8
    case 12 => 9
    case 18 => 10
    case 13 => 16
    case 2 => 11
    case 11 => 1
    case 14 => 17
    case 17 => 19
    case 20 => 21
    case 21 => 19
    case 19 => 15
    case 15 => 11
    case 7 => 2
    case _ => 7
  }

  /** A default reduction pops the right-hand side of its rule and pushes the state it leads to. */
  lemma ReduceStack(s: nat)
    requires s < YYNSTATES && s != YYFINAL && yydefact[s] != 0
    ensures var r, st := yydefact[s], StackOf(s);
      r < |yyr1| == |yyr2| && yyr2[r] < |st| && YYNTOKENS <= yyr1[r] < YYNTOKENS + 13 &&
      var base := st[..|st| - yyr2[r]];
      Goto(yyr1[r], base[|base| - 1]) == ReduceOf(s) && ReduceOf(s) < YYNSTATES &&
      StackOf(ReduceOf(s)) == base + [ReduceOf(s)]
  {
  }
}
