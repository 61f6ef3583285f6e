/** Documents: values with the white space between their parts. The parser accepts exactly the texts of documents. */
module JsonDocuments {
  import opened Bytes
  import opened JsonText
  import opened JsonGrammar
  import L = JsonLayout
  import N = JsonNumerals
  import S = JsonStrings

  /** Numbers and strings stand with the text they are read from; white space is kept where the grammar allows it. */
  datatype Doc =
    | Word(value: Json)
    | Numeral(text: bytes, number: real)
    | Literal(text: bytes, content: bytes)
    | NoItems(blanks: bytes)
    | Items(items: seq<Item>)
    | NoFields(blanks: bytes)
    | Fields(fields: seq<Field>)

  datatype Item = Item(before: bytes, doc: Doc, after: bytes)
  datatype Field = Field(before: bytes, name: bytes, content: bytes, middle: bytes, item: Item)

  predicate AllBlank(s: bytes) { forall i :: 0 <= i < |s| ==> s[i] <= 32 }

  // ----- the text of a document, and what follows it

  function DocText(d: Doc, post: bytes): bytes
    decreases d
  {
    match d
    case Word(v) => (match v case Null => Ascii("null") case False => Ascii("false") case _ => Ascii("true")) + post
    case Numeral(text, _) => text + post
    case Literal(text, _) => text + post
    case NoItems(blanks) => [91] + (blanks + ([93] + post))
    case Items(items) => [91] + ItemsDocText(items, post)
    case NoFields(blanks) => [123] + (blanks + ([125] + post))
    case Fields(fields) => [123] + FieldsDocText(fields, post)
  }

  function ItemText(x: Item, post: bytes): bytes
    decreases x
  {
    x.before + DocText(x.doc, x.after + post)
  }

  /** The items with commas between them, and the closing bracket. */
  function ItemsDocText(items: seq<Item>, post: bytes): bytes
    decreases items
  {
    if items == [] then post
    else ItemText(items[0], if |items| == 1 then [93] + post else [44] + ItemsDocText(items[1..], post))
  }

  function FieldText(f: Field, post: bytes): bytes
    decreases f
  {
    f.before + (f.name + (f.middle + ([58] + ItemText(f.item, post))))
  }

  function FieldsDocText(fields: seq<Field>, post: bytes): bytes
    decreases fields
  {
    if fields == [] then post
    else FieldText(fields[0], if |fields| == 1 then [125] + post else [44] + FieldsDocText(fields[1..], post))
  }

  // ----- what a document stands for

  function DocValue(d: Doc): Json {
    match d
    case Word(v) => v
    case Numeral(_, number) => Number(number)
    case Literal(_, content) => Str(content)
    case NoItems(_) => Arr([])
    case Items(items) => Arr(ItemValues(items))
    case NoFields(_) => Obj([])
    case Fields(fields) => Obj(FieldValues(fields))
  }

  function ItemValues(items: seq<Item>): seq<Json> {
    if items == [] then [] else [DocValue(items[0].doc)] + ItemValues(items[1..])
  }

  function FieldValues(fields: seq<Field>): seq<Member> {
    if fields == [] then []
    else [Member(fields[0].content, DocValue(fields[0].item.doc))] + FieldValues(fields[1..])
  }

  // ----- documents whose numbers and strings are those that the text, with what follows it, is read as

  ghost predicate Stands(d: Doc, post: bytes)
    decreases d
  {
    match d
    case Word(v) => v == Null || v == False || v == True
    case Numeral(text, number) =>
      text != [] && (text[0] == 45 || 48 <= text[0] <= 57) && ParseNumber(text + post) == (number, post)
    case Literal(text, content) => text != [] && text[0] == 34 && ParseString(text + post) == Ok(content, post)
    case NoItems(blanks) => AllBlank(blanks)
    case Items(items) => items != [] && ItemsStand(items, post)
    case NoFields(blanks) => AllBlank(blanks)
    case Fields(fields) => fields != [] && FieldsStand(fields, post)
  }

  ghost predicate ItemStands(x: Item, post: bytes)
    decreases x
  {
    AllBlank(x.before) && AllBlank(x.after) && Stands(x.doc, x.after + post)
  }

  ghost predicate ItemsStand(items: seq<Item>, post: bytes)
    decreases items
  {
    items == [] ||
    (ItemStands(items[0], if |items| == 1 then [93] + post else [44] + ItemsDocText(items[1..], post)) &&
     ItemsStand(items[1..], post))
  }

  ghost predicate FieldStands(f: Field, post: bytes)
    decreases f
  {
    var behind := f.middle + ([58] + ItemText(f.item, post));
    AllBlank(f.before) && AllBlank(f.middle) && f.name != [] && f.name[0] == 34 &&
    ParseString(f.name + behind) == Ok(f.content, behind) && ItemStands(f.item, post)
  }

  ghost predicate FieldsStand(fields: seq<Field>, post: bytes)
    decreases fields
  {
    fields == [] ||
    (FieldStands(fields[0], if |fields| == 1 then [125] + post else [44] + FieldsDocText(fields[1..], post)) &&
     FieldsStand(fields[1..], post))
  }

  // ----- skipping

  lemma {:induction false} SkipBlank(blanks: bytes, s: bytes)
    requires AllBlank(blanks) && (s == [] || s[0] > 32)
    ensures Skip(blanks + s) == s && Skip(s) == s
  {
    if blanks == [] {
      assert blanks + s == s;
    } else {
      assert (blanks + s)[1..] == blanks[1..] + s;
      SkipBlank(blanks[1..], s);
    }
  }

  /** What is skipped is white space. */
  lemma {:induction false} Skipped(s: bytes) returns (blanks: bytes)
    ensures AllBlank(blanks) && s == blanks + Skip(s)
  {
    if s != [] && s[0] <= SPACE {
      var more := Skipped(s[1..]);
      blanks := [s[0]] + more;
      assert s == [s[0]] + s[1..] && [s[0]] + (more + Skip(s)) == blanks + Skip(s);
    } else {
      blanks := [];
      assert s == blanks + s;
    }
  }

  /** A document starts with a byte that is not skipped. */
  lemma DocStarts(d: Doc, post: bytes)
    requires Stands(d, post)
    ensures var s := DocText(d, post); s != [] && s[0] > 32 && s[0] != 93 && s[0] != 125
  {
  }

  // ----- every document is parsed

  lemma {:induction false} DocParses(d: Doc, post: bytes)
    requires Stands(d, post)
    ensures ParseValue(DocText(d, post)) == Ok(DocValue(d), post)
    decreases d
  {
    match d
    case Word(v) => WordParses(v, post);
    case Numeral(text, number) => NumeralParses(text, post);
    case Literal(text, content) => LiteralParses(text, content, post);
    case NoItems(blanks) => EmptyParses(blanks, post);
    case Items(items) =>
      ItemsParse(items, post);
      BracketParses(ItemsDocText(items, post), ItemValues(items), post);
    case NoFields(blanks) => EmptyParses(blanks, post);
    case Fields(fields) =>
      FieldsParse(fields, post);
      BraceParses(FieldsDocText(fields, post), FieldValues(fields), post);
  }

  lemma WordParses(v: Json, post: bytes)
    requires v == Null || v == False || v == True
    ensures ParseValue(DocText(Word(v), post)) == Ok(v, post)
  {
    hide Ascii;
    L.Keywords();
    var word := if v == Null then NULL_TEXT else if v == False then FALSE_TEXT else TRUE_TEXT;
    assert (word + post)[..|word|] == word && (word + post)[|word|..] == post;
    assert v == False ==> !HasPrefix(word + post, NULL_TEXT) by { assert (word + post)[..4][0] == word[0]; }
    assert v == True ==> !HasPrefix(word + post, NULL_TEXT) by { assert (word + post)[..4][0] == word[0]; }
    assert v == True ==> !HasPrefix(word + post, FALSE_TEXT) by {
      if |word + post| >= 5 { assert (word + post)[..5][0] == word[0]; }
    }
  }

  /** No keyword starts like this. */
  lemma NoWord(s: bytes)
    requires s != [] && s[0] != 110 && s[0] != 102 && s[0] != 116
    ensures !HasPrefix(s, NULL_TEXT) && !HasPrefix(s, FALSE_TEXT) && !HasPrefix(s, TRUE_TEXT)
  {
    if |s| >= 4 { assert s[..4][0] == s[0]; }
    if |s| >= 5 { assert s[..5][0] == s[0]; }
  }

  lemma NumeralParses(text: bytes, post: bytes)
    requires text != [] && (text[0] == 45 || 48 <= text[0] <= 57)
    ensures ParseValue(text + post) == var (d, rest) := ParseNumber(text + post); Ok(Number(d), rest)
  {
    hide ParseNumber;
    NoWord(text + post);
  }

  lemma LiteralParses(text: bytes, content: bytes, post: bytes)
    requires text != [] && text[0] == 34 && ParseString(text + post) == Ok(content, post)
    ensures ParseValue(text + post) == Ok(Str(content), post)
  {
    hide ParseString;
    NoWord(text + post);
  }

  lemma EmptyParses(blanks: bytes, post: bytes)
    requires AllBlank(blanks)
    ensures ParseValue([91] + (blanks + ([93] + post))) == Ok(Arr([]), post)
    ensures ParseValue([123] + (blanks + ([125] + post))) == Ok(Obj([]), post)
  {
    hide ParseItems, ParseMembers;
    NoWord([91] + (blanks + ([93] + post)));
    NoWord([123] + (blanks + ([125] + post)));
    SkipBlank(blanks, [93] + post);
    SkipBlank(blanks, [125] + post);
    assert ([91] + (blanks + ([93] + post)))[1..] == blanks + ([93] + post);
    assert ([123] + (blanks + ([125] + post)))[1..] == blanks + ([125] + post);
    assert ([93] + post)[1..] == post && ([125] + post)[1..] == post;
  }

  lemma SkipTwice(s: bytes)
    ensures Skip(Skip(s)) == Skip(s)
  {
    var blanks := Skipped(s);
    SkipBlank([], Skip(s));
  }

  lemma BracketParses(t: bytes, xs: seq<Json>, post: bytes)
    requires ParseItems(t) == Ok(xs, post) && At(Skip(t), 0) != 93
    ensures ParseValue([91] + t) == Ok(Arr(xs), post)
  {
    hide ParseItems, Skip;
    NoWord([91] + t);
    assert ([91] + t)[1..] == t;
    SameItems(t);
  }

  lemma BraceParses(t: bytes, ms: seq<Member>, post: bytes)
    requires ParseMembers(t) == Ok(ms, post) && At(Skip(t), 0) != 125
    ensures ParseValue([123] + t) == Ok(Obj(ms), post)
  {
    hide ParseMembers, Skip;
    NoWord([123] + t);
    assert ([123] + t)[1..] == t;
    SameMembers(t);
  }

  /** Behind an item stands a byte that is not skipped. */
  lemma {:induction false} ItemParses(x: Item, post: bytes)
    requires ItemStands(x, post) && post != [] && post[0] > 32
    ensures ParseValue(Skip(ItemText(x, post))) == Ok(DocValue(x.doc), x.after + post)
    ensures Skip(x.after + post) == post && At(Skip(ItemText(x, post)), 0) != 93
    decreases x
  {
    DocStarts(x.doc, x.after + post);
    SkipBlank(x.before, DocText(x.doc, x.after + post));
    SkipBlank(x.after, post);
    DocParses(x.doc, x.after + post);
  }

  lemma {:induction false} ItemsParse(items: seq<Item>, post: bytes)
    requires items != [] && ItemsStand(items, post)
    ensures ParseItems(ItemsDocText(items, post)) == Ok(ItemValues(items), post)
    ensures At(Skip(ItemsDocText(items, post)), 0) != 93
    decreases items
  {
    var tail := if |items| == 1 then [93] + post else [44] + ItemsDocText(items[1..], post);
    ItemParses(items[0], tail);
    assert tail[1..] == if |items| == 1 then post else ItemsDocText(items[1..], post);
    if |items| > 1 {
      ItemsParse(items[1..], post);
    } else {
      assert ItemValues(items) == [DocValue(items[0].doc)];
    }
  }

  lemma {:induction false} FieldParses(f: Field, post: bytes)
    requires FieldStands(f, post) && post != [] && post[0] > 32
    ensures ParseMember(FieldText(f, post)) == Ok(Member(f.content, DocValue(f.item.doc)), f.item.after + post)
    ensures Skip(f.item.after + post) == post && At(Skip(FieldText(f, post)), 0) == 34
    decreases f
  {
    hide ParseString;
    var behind := [58] + ItemText(f.item, post);
    SkipBlank(f.before, f.name + (f.middle + behind));
    SkipBlank(f.middle, behind);
    assert behind[1..] == ItemText(f.item, post);
    ItemParses(f.item, post);
  }

  lemma {:induction false} FieldsParse(fields: seq<Field>, post: bytes)
    requires fields != [] && FieldsStand(fields, post)
    ensures ParseMembers(FieldsDocText(fields, post)) == Ok(FieldValues(fields), post)
    ensures At(Skip(FieldsDocText(fields, post)), 0) != 125
    decreases fields
  {
    hide ParseMember;
    var tail := if |fields| == 1 then [125] + post else [44] + FieldsDocText(fields[1..], post);
    FieldParses(fields[0], tail);
    assert tail[1..] == if |fields| == 1 then post else FieldsDocText(fields[1..], post);
    if |fields| > 1 {
      FieldsParse(fields[1..], post);
    } else {
      assert FieldValues(fields) == [Member(fields[0].content, DocValue(fields[0].item.doc))];
    }
  }

  // ----- what is parsed is a document

  /** `t` is the end of `s`. */
  ghost predicate Ends(s: bytes, t: bytes) { |t| <= |s| && s[|s| - |t|..] == t }

  lemma EndsTwice(s: bytes, t: bytes, u: bytes)
    requires Ends(s, t) && Ends(t, u)
    ensures Ends(s, u)
  {
    assert s[|s| - |u|..] == s[|s| - |t|..][|t| - |u|..];
  }

  lemma Front(s: bytes, t: bytes)
    requires Ends(s, t)
    ensures s == s[..|s| - |t|] + t
  {
  }

  lemma {:induction false} SecondPassEnds(s: bytes, out: bytes)
    requires SecondPass(s, out).Ok?
    ensures Ends(s, SecondPass(s, out).rest)
    decreases |s|
  {
    hide Escape;
    if s != [] && s[0] != QUOTE {
      var (w, n) := Unit(s);
      SecondPassEnds(s[n..], out + w);
      EndsTwice(s, s[n..], SecondPass(s, out).rest);
    }
  }

  lemma StringEnds(s: bytes)
    requires ParseString(s).Ok?
    ensures s != [] && s[0] == 34 && Ends(s, ParseString(s).rest)
  {
    hide SecondPass, FirstPass;
    SecondPassEnds(s[1..], []);
    EndsTwice(s, s[1..], ParseString(s).rest);
  }

  lemma NumberEnds(s: bytes)
    requires s != [] && (s[0] == MINUS || IsDigit(s[0]))
    ensures Ends(s, ParseNumber(s).1)
  {
    hide ParseNumber;
    var x, post := N.EveryNumberIsANumeral(s);
    var r := N.NumeralIsWorth(x, post);
    EndOf(N.NumeralText(x), post);
  }

  lemma EndOf(text: bytes, post: bytes)
    ensures Ends(text + post, post)
  {
  }

  lemma KeywordIs(s: bytes, word: bytes)
    requires HasPrefix(s, word)
    ensures s == word + s[|word|..]
  {
  }

  /** Keywords, numbers and strings. */
  lemma LeafOf(s: bytes) returns (d: Doc)
    requires ParseValue(s).Ok? && !ParseValue(s).value.Arr? && !ParseValue(s).value.Obj?
    ensures var r := ParseValue(s); Stands(d, r.rest) && DocText(d, r.rest) == s && DocValue(d) == r.value
  {
    hide ParseNumber, ParseString, ParseArray, ParseObject, Ascii;
    L.Keywords();
    var r := ParseValue(s);
    if HasPrefix(s, NULL_TEXT) {
      KeywordIs(s, NULL_TEXT);
      d := Word(Null);
    } else if HasPrefix(s, FALSE_TEXT) {
      KeywordIs(s, FALSE_TEXT);
      d := Word(False);
    } else if HasPrefix(s, TRUE_TEXT) {
      KeywordIs(s, TRUE_TEXT);
      d := Word(True);
    } else if At(s, 0) == QUOTE {
      StringEnds(s);
      Front(s, r.rest);
      d := Literal(s[..|s| - |r.rest|], r.value.text);
    } else if At(s, 0) == MINUS || IsDigit(At(s, 0)) {
      NumberEnds(s);
      Front(s, r.rest);
      d := Numeral(s[..|s| - |r.rest|], r.value.value);
    } else {
      NoLeaf(s);
    }
  }

  lemma NoLeaf(s: bytes)
    requires ParseValue(s).Ok? && (At(s, 0) == LBRACKET || At(s, 0) == LBRACE)
    ensures ParseValue(s).value.Arr? || ParseValue(s).value.Obj?
  {
    hide ParseItems, ParseMembers;
    NoWord(s);
  }

  lemma {:induction false} DocOf(s: bytes) returns (d: Doc)
    requires ParseValue(s).Ok?
    ensures var r := ParseValue(s); Stands(d, r.rest) && DocText(d, r.rest) == s && DocValue(d) == r.value
    decreases |s|, 2
  {
    if At(s, 0) == LBRACKET {
      d := ArrayOf(s);
    } else if At(s, 0) == LBRACE {
      d := ObjectOf(s);
    } else {
      d := LeafOf(s);
    }
  }

  lemma {:induction false} ArrayOf(s: bytes) returns (d: Doc)
    requires ParseValue(s).Ok? && At(s, 0) == LBRACKET
    ensures var r := ParseValue(s); Stands(d, r.rest) && DocText(d, r.rest) == s && DocValue(d) == r.value
    decreases |s|, 1
  {
    hide ParseItems, ItemsStand, ItemsDocText, ItemValues, Stands, DocText, DocValue, Skip;
    NoWord(s);
    var blanks := Skipped(s[1..]);
    var v := Skip(s[1..]);
    assert s == [91] + s[1..];
    if At(v, 0) == RBRACKET {
      assert v == [93] + v[1..];
      d := NoItems(blanks);
      EmptyDocs(blanks, v[1..]);
    } else {
      SameItems(s[1..]);
      var items := ItemsOf(s[1..]);
      d := Items(items);
      ItemsDoc(items, ParseValue(s).rest);
    }
  }

  lemma EmptyDocs(blanks: bytes, post: bytes)
    requires AllBlank(blanks)
    ensures Stands(NoItems(blanks), post) && DocText(NoItems(blanks), post) == [91] + (blanks + ([93] + post))
    ensures Stands(NoFields(blanks), post) && DocText(NoFields(blanks), post) == [123] + (blanks + ([125] + post))
    ensures DocValue(NoItems(blanks)) == Arr([]) && DocValue(NoFields(blanks)) == Obj([])
  {
  }

  lemma ItemsDoc(items: seq<Item>, post: bytes)
    requires items != [] && ItemsStand(items, post)
    ensures Stands(Items(items), post) && DocText(Items(items), post) == [91] + ItemsDocText(items, post)
    ensures DocValue(Items(items)) == Arr(ItemValues(items))
  {
    hide ItemsStand, ItemsDocText, ItemValues;
  }

  lemma FieldsDoc(fields: seq<Field>, post: bytes)
    requires fields != [] && FieldsStand(fields, post)
    ensures Stands(Fields(fields), post) && DocText(Fields(fields), post) == [123] + FieldsDocText(fields, post)
    ensures DocValue(Fields(fields)) == Obj(FieldValues(fields))
  {
    hide FieldsStand, FieldsDocText, FieldValues;
  }

  lemma SameItems(s: bytes)
    ensures ParseItems(Skip(s)) == ParseItems(s)
  {
    SkipTwice(s);
  }

  lemma {:induction false} ItemsOf(s: bytes) returns (items: seq<Item>)
    requires ParseItems(s).Ok?
    ensures var r := ParseItems(s);
      items != [] && ItemsStand(items, r.rest) && ItemsDocText(items, r.rest) == s && ItemValues(items) == r.value
    decreases |s|, 3
  {
    hide ParseValue;
    var blanks := Skipped(s);
    var first := ParseValue(Skip(s));
    var doc := DocOf(Skip(s));
    var after := Skipped(first.rest);
    var v := Skip(first.rest);
    var item := Item(blanks, doc, after);
    assert v == [v[0]] + v[1..];
    if At(v, 0) == COMMA {
      var more := ItemsOf(v[1..]);
      items := [item] + more;
      MoreItems(item, more, v, ParseItems(s).rest);
    } else {
      items := [item];
      OneItem(item, v, ParseItems(s).rest);
    }
  }

  lemma OneItem(item: Item, v: bytes, post: bytes)
    requires v == [93] + post && ItemStands(item, v)
    ensures ItemsStand([item], post) && ItemsDocText([item], post) == ItemText(item, v)
    ensures ItemValues([item]) == [DocValue(item.doc)]
  {
    hide ItemStands, ItemText, DocValue;
    assert [item][1..] == [];
  }

  lemma MoreItems(item: Item, more: seq<Item>, v: bytes, post: bytes)
    requires more != [] && ItemsStand(more, post) && v == [44] + ItemsDocText(more, post) && ItemStands(item, v)
    ensures ItemsStand([item] + more, post) && ItemsDocText([item] + more, post) == ItemText(item, v)
    ensures ItemValues([item] + more) == [DocValue(item.doc)] + ItemValues(more)
  {
    hide ItemStands, ItemText, DocValue;
    assert ([item] + more)[1..] == more;
  }

  lemma {:induction false} ObjectOf(s: bytes) returns (d: Doc)
    requires ParseValue(s).Ok? && At(s, 0) == LBRACE
    ensures var r := ParseValue(s); Stands(d, r.rest) && DocText(d, r.rest) == s && DocValue(d) == r.value
    decreases |s|, 1
  {
    hide ParseMembers, FieldsStand, FieldsDocText, FieldValues, Stands, DocText, DocValue, Skip;
    NoWord(s);
    var blanks := Skipped(s[1..]);
    var v := Skip(s[1..]);
    assert s == [123] + s[1..];
    if At(v, 0) == RBRACE {
      assert v == [125] + v[1..];
      d := NoFields(blanks);
      EmptyDocs(blanks, v[1..]);
    } else {
      SameMembers(s[1..]);
      var fields := FieldsOf(s[1..]);
      d := Fields(fields);
      FieldsDoc(fields, ParseValue(s).rest);
    }
  }

  lemma SameMembers(s: bytes)
    ensures ParseMembers(Skip(s)) == ParseMembers(s)
  {
    SkipTwice(s);
    assert ParseMember(Skip(s)) == ParseMember(s);
  }

  /** One member, and what stands behind it. */
  lemma {:induction false} FieldOf(s: bytes) returns (f: Field, v: bytes)
    requires ParseMember(s).Ok?
    ensures var r := ParseMember(s);
      v == Skip(r.rest) && (v != [] ==> FieldStands(f, v) && FieldText(f, v) == s) &&
      r.value == Member(f.content, DocValue(f.item.doc))
    decreases |s|, 3
  {
    hide ParseValue, ParseString, DocText, Stands, DocValue, Skip, Ends;
    var before := Skipped(s);
    var name := ParseString(Skip(s));
    StringEnds(Skip(s));
    Front(Skip(s), name.rest);
    var middle := Skipped(name.rest);
    var colon := Skip(name.rest);
    assert colon == [58] + colon[1..];
    var behind := Skipped(colon[1..]);
    var value := ParseValue(Skip(colon[1..]));
    var doc := DocOf(Skip(colon[1..]));
    var after := Skipped(value.rest);
    v := Skip(value.rest);
    f := Field(before, Skip(s)[..|Skip(s)| - |name.rest|], name.value, middle, Item(behind, doc, after));
    assert ItemText(f.item, v) == colon[1..];
  }

  lemma {:induction false} FieldsOf(s: bytes) returns (fields: seq<Field>)
    requires ParseMembers(s).Ok?
    ensures var r := ParseMembers(s);
      fields != [] && FieldsStand(fields, r.rest) && FieldsDocText(fields, r.rest) == s && FieldValues(fields) == r.value
    decreases |s|, 4
  {
    hide ParseMember;
    var field, v := FieldOf(s);
    assert v == [v[0]] + v[1..];
    if At(v, 0) == COMMA {
      var more := FieldsOf(v[1..]);
      fields := [field] + more;
      MoreFields(field, more, v, ParseMembers(s).rest);
    } else {
      fields := [field];
      OneField(field, v, ParseMembers(s).rest);
    }
  }

  lemma OneField(field: Field, v: bytes, post: bytes)
    requires v == [125] + post && FieldStands(field, v)
    ensures FieldsStand([field], post) && FieldsDocText([field], post) == FieldText(field, v)
    ensures FieldValues([field]) == [Member(field.content, DocValue(field.item.doc))]
  {
    hide FieldStands, FieldText, DocValue;
    assert [field][1..] == [];
  }

  lemma MoreFields(field: Field, more: seq<Field>, v: bytes, post: bytes)
    requires more != [] && FieldsStand(more, post) && v == [44] + FieldsDocText(more, post) && FieldStands(field, v)
    ensures FieldsStand([field] + more, post) && FieldsDocText([field] + more, post) == FieldText(field, v)
    ensures FieldValues([field] + more) == [Member(field.content, DocValue(field.item.doc))] + FieldValues(more)
  {
    hide FieldStands, FieldText, DocValue;
    assert ([field] + more)[1..] == more;
  }

  // ----- both directions

  /** A value is read from a text, with a rest, if and only if the text is that of a document that stands for it. */
  lemma ParsedExactly(s: bytes, t: Json, rest: bytes)
    ensures ParseValue(s) == Ok(t, rest) <==> exists d :: Stands(d, rest) && DocText(d, rest) == s && DocValue(d) == t
  {
    hide ParseValue, Stands, DocText, DocValue;
    if ParseValue(s) == Ok(t, rest) {
      var d := DocOf(s);
    }
    forall d | Stands(d, rest) && DocText(d, rest) == s && DocValue(d) == t ensures ParseValue(s) == Ok(t, rest) {
      DocParses(d, rest);
    }
  }

  /** With the check for the end, exactly the texts of documents are accepted, with white space around them. */
  lemma AcceptedExactly(s: bytes, t: Json)
    ensures Parse(s, true) == Ok(t, []) <==> exists x :: ItemStands(x, []) && ItemText(x, []) == s && DocValue(x.doc) == t
  {
    hide ParseValue, Stands, DocText, DocValue;
    if Parse(s, true) == Ok(t, []) {
      var x := WholeOf(s, t);
    }
    forall x | ItemStands(x, []) && ItemText(x, []) == s && DocValue(x.doc) == t ensures Parse(s, true) == Ok(t, []) {
      WholeParses(x);
    }
  }

  lemma WholeOf(s: bytes, t: Json) returns (x: Item)
    requires Parse(s, true) == Ok(t, [])
    ensures ItemStands(x, []) && ItemText(x, []) == s && DocValue(x.doc) == t
  {
    hide ParseValue, Stands, DocText, DocValue;
    var before := Skipped(s);
    var d := DocOf(Skip(s));
    var rest := ParseValue(Skip(s)).rest;
    var after := Skipped(rest);
    x := Item(before, d, after);
    assert after + [] == after == rest;
  }

  lemma WholeParses(x: Item)
    requires ItemStands(x, [])
    ensures Parse(ItemText(x, []), true) == Ok(DocValue(x.doc), [])
  {
    hide ParseValue, Stands, DocText, DocValue;
    DocStarts(x.doc, x.after + []);
    SkipBlank(x.before, DocText(x.doc, x.after + []));
    SkipBlank(x.after, []);
    DocParses(x.doc, x.after + []);
  }

  // ----- the numbers and strings of RFC 8259

  /** A numeral stands wherever the text behind it does not go on with it, and for what it is worth. */
  lemma NumeralStands(x: N.Numeral, post: bytes) returns (r: real)
    requires N.IsNumeral(x) && N.EndsNumeral(x, post)
    ensures Stands(Numeral(N.NumeralText(x), r), post) && N.IsWorth(r, x)
  {
    hide N.NumeralText, N.IsWorth, ParseNumber;
    r := N.NumeralIsWorth(x, post);
    N.NumeralStarts(x, []);
    N.NumeralStarts(x, post);
    NotEmpty(x);
    Worth(x, r);
  }

  lemma NotEmpty(x: N.Numeral)
    requires N.IsNumeral(x)
    ensures N.NumeralText(x) != []
  {
  }

  lemma Worth(x: N.Numeral, r: real)
    requires N.IsNumeral(x)
    requires var n := Decimal(x.whole + x.fraction);
      N.IsScaled(r, if x.negative then -(n as int) else n, N.ExponentOf(x.exponent) - |x.fraction|)
    ensures N.IsWorth(r, x)
  {
  }

  /** A string literal of well-formed elements stands anywhere, for the UTF-8 of its code points. */
  lemma LiteralStands(ps: seq<S.Piece>, post: bytes)
    requires S.AllWellFormed(ps)
    ensures Stands(Literal([34] + (S.SourceOf(ps) + [34]), S.MeaningOf(ps)), post)
  {
    hide S.SourceOf, S.MeaningOf, ParseString;
    S.LiteralDecodes(ps, post);
    assert [34] + (S.SourceOf(ps) + [34]) + post == [34] + (S.SourceOf(ps) + ([34] + post));
  }
}
