/** `parse_value` and its helpers: the recursive descent, building linked items. */
module JsonTreeParser {
  import opened Bytes
  import opened JsonText
  import opened JsonGrammar
  import opened JsonParser
  import opened JsonItems
  import opened JsonTrees

  /** Where a parsing function stopped, or NULL, or undefined behaviour. */
  datatype Reached = Upto(next: nat) | Fails | Strays

  /** The item has become the root of a heap tree that stands for what the grammar reads. */
  ghost predicate Built(s: bytes, r: Reached, g: Parsed<Json>, item: Item, sh: Shape)
    reads *
  {
    match g
    case Ok(t, rest) =>
      r.Upto? && r.next <= |s| && s[r.next..] == rest &&
      sh.node == item && Apart(sh) && Linked(sh) && Denotes(ContentOf(sh), t)
    case Failed => r.Fails?
    case Undefined => r.Strays?
  }

  /** The children collected so far: finished ones in `ss`, and `more` linked behind them. */
  ghost predicate Growing(item: Item, ss: seq<Shape>, more: seq<Item>)
    reads item`child, NodesOf(ss)`child, NodesOf(ss)`next, NodesOf(ss)`prev, more`next, more`prev
  {
    RootsAreNodes(ss);
    BelowIsNodes(ss);
    Chain(item.child, Roots(ss) + more) && AllLinked(ss) && AllApart(ss) && item !in NodesOf(ss)
  }

  /** A new child, linked behind `last`. */
  method NextChild(item: Item, last: Item?, ghost ss: seq<Shape>) returns (child: Item)
    requires Growing(item, ss, []) && last == if ss == [] then null else ss[|ss| - 1].node
    modifies item`child, Roots(ss)`next
    ensures fresh(child) && child.child == null && child.valuestring == NULL && child.name == NULL
    ensures Growing(item, ss, [child]) && child !in NodesOf(ss) && ContentsOf(ss) == old(ContentsOf(ss))
    ensures child != item
  {
    hide ContentsOf, AllLinked, AllApart;
    NodesOfExist(ss);
    RootsAreNotBelow(ss);
    RootsAreNodes(ss);
    BelowIsNodes(ss);
    child := new Item();
    ghost var rs := Roots(ss);
    assert rs + [] == rs;
    if last == null {
      item.child := child;
    } else {
      assert last == rs[|rs| - 1];
      last.next := child;
      child.prev := last;
    }
  }

  lemma NoChildrenYet(item: Item)
    requires item.child == null
    ensures Growing(item, [], []) && ContentsOf([]) == [] && NodesOf([]) == {}
    ensures Items(item, null, [], []) && Members(item, null, [], [])
  {
  }

  /** A finished child joins the others. */
  lemma {:induction false} ChildDone(item: Item, ss: seq<Shape>, child: Item, sh: Shape)
    requires Growing(item, ss, [child]) && sh.node == child && Apart(sh) && Linked(sh)
    requires Nodes(sh) !! NodesOf(ss) && item !in Nodes(sh)
    ensures Growing(item, ss + [sh], []) && ContentsOf(ss + [sh]) == ContentsOf(ss) + [ContentOf(sh)]
    ensures NodesOf(ss + [sh]) == NodesOf(ss) + Nodes(sh)
  {
    var all := ss + [sh];
    assert all[..|all| - 1] == ss && all[|all| - 1] == sh;
    assert Roots(all) == Roots(ss) + [child] && Roots(all) + [] == Roots(all);
  }

  lemma {:induction false} ItemsMore(cs: seq<Content>, items: seq<Json>, c: Content, t: Json)
    requires ItemsDenote(cs, items) && Denotes(c, t)
    ensures ItemsDenote(cs + [c], items + [t])
  {
  }

  lemma {:induction false} MembersMore(cs: seq<Content>, ms: seq<Member>, c: Content, m: Member)
    requires MembersDenote(cs, ms) && Denotes(c, m.value) && c.name == Ptr(m.name)
    ensures MembersDenote(cs + [c], ms + [m])
  {
  }

  /** The result of reading one element of an array or object. */
  ghost predicate Added<T>(s: bytes, pos: nat, r: Reached, g: Parsed<T>) {
    match g
    case Ok(_, rest) => r.Upto? && pos < r.next <= |s| && s[r.next..] == Skip(rest)
    case Failed => r.Fails?
    case Undefined => r.Strays?
  }

  /** The children in `ss` stand for `items`, and `last` is the last of them. */
  ghost predicate Items(item: Item, last: Item?, ss: seq<Shape>, items: seq<Json>)
    reads item`child, NodesOf(ss)
  {
    Growing(item, ss, []) && ItemsDenote(ContentsOf(ss), items) &&
    last == if ss == [] then null else ss[|ss| - 1].node
  }

  ghost predicate Members(item: Item, last: Item?, ss: seq<Shape>, ms: seq<Member>)
    reads item`child, NodesOf(ss)
  {
    Growing(item, ss, []) && MembersDenote(ContentsOf(ss), ms) &&
    last == if ss == [] then null else ss[|ss| - 1].node
  }

  /** `parse_value` into an item that has no children yet. */
  method ParseInto(item: Item, s: bytes, pos: nat) returns (r: Reached, ghost sh: Shape)
    requires pos <= |s| && item.child == null
    modifies item`kind, item`valuestring, item`valueint, item`valuedouble, item`child
    ensures Built(s, r, ParseValue(s[pos..]), item, sh)
    ensures r.Upto? ==> pos < r.next && forall x :: x in NodesOf(sh.kids) ==> fresh(x)
    decreases |s| - pos, 2
  {
    hide ParseString, ParseNumber, ParseArray, ParseObject, HasPrefix, Linked, Apart, ContentOf;
    AtTail(s, pos, 0);
    sh := Shape(item, []);
    var found := StartsWith(s, pos, NULL_TEXT);
    if found { item.kind := KNull; Childless(item); return Upto(pos + 4), sh; }
    found := StartsWith(s, pos, FALSE_TEXT);
    if found { item.kind := KFalse; Childless(item); return Upto(pos + 5), sh; }
    found := StartsWith(s, pos, TRUE_TEXT);
    if found { item.kind, item.valueint := KTrue, 1; Childless(item); return Upto(pos + 4), sh; }
    if At(s, pos) == QUOTE {
      r := ParseStringInto(item, s, pos);
      Childless(item);
    } else if At(s, pos) == MINUS || IsDigit(At(s, pos)) {
      var d, i := ReadNumber(s, pos);
      item.valuedouble, item.valueint, item.kind := d, Truncated(d), KNumber;
      Childless(item);
      r := Upto(i);
    } else if At(s, pos) == LBRACKET {
      r, sh := ParseArrayInto(item, s, pos);
    } else if At(s, pos) == LBRACE {
      r, sh := ParseObjectInto(item, s, pos);
    } else {
      r := Fails;
    }
  }

  lemma Childless(item: Item)
    requires item.child == null
    ensures Apart(Shape(item, [])) && Linked(Shape(item, []))
    ensures ContentOf(Shape(item, [])) ==
      Content(item.kind, item.valuestring, item.valueint, item.valuedouble, item.name, [])
  {
  }

  /** `parse_string` */
  method ParseStringInto(item: Item, s: bytes, pos: nat) returns (r: Reached)
    requires pos <= |s|
    modifies item`kind, item`valuestring
    ensures match ParseString(s[pos..])
      case Ok(text, rest) =>
        r.Upto? && pos < r.next <= |s| && s[r.next..] == rest && item.kind == KString && item.valuestring == Ptr(text)
      case Failed => r.Fails?
      case Undefined => r.Strays?
  {
    var str := ReadString(s, pos);
    match str {
      case Read(text, i) =>
        item.valuestring, item.kind := Ptr(text), KString;
        r := Upto(i);
      case Bad => r := Fails;
      case Wild => r := Strays;
    }
  }

  /** One element of an array: a new child, blanks, the value, blanks. */
  method ParseItem(item: Item, last: Item?, s: bytes, pos: nat, ghost ss: seq<Shape>, ghost items: seq<Json>)
    returns (r: Reached, last': Item, ghost ss': seq<Shape>, ghost items': seq<Json>)
    requires pos <= |s| && Items(item, last, ss, items)
    modifies item`child, Roots(ss)`next
    ensures Added(s, pos, r, ParseValue(Skip(s[pos..])))
    ensures r.Upto? ==> items' == items + [ParseValue(Skip(s[pos..])).value] && Items(item, last', ss', items')
    ensures forall x :: x in NodesOf(ss') ==> x in NodesOf(ss) || fresh(x)
    decreases |s| - pos, 3
  {
    hide ParseValue, Skip, Growing, Apart, AllApart, ItemsDenote, Denotes, ContentOf, ContentsOf, Linked, AllLinked;
    last' := NextChild(item, last, ss);
    ss', items' := ss, items;
    NodesOfExist(ss);
    var i := SkipBlanks(s, pos);
    ghost var sh;
    r, sh := ParseInto(last', s, i);
    if !r.Upto? {
      return;
    }
    NodesExist(sh);
    Separate(sh, ss);
    ChildDone(item, ss, last', sh);
    ghost var t := ParseValue(s[i..]).value;
    ItemsMore(ContentsOf(ss), items, ContentOf(sh), t);
    ss', items' := ss + [sh], items + [t];
    i := SkipBlanks(s, r.next);
    r := Upto(i);
  }

  lemma Separate(sh: Shape, ss: seq<Shape>)
    requires sh.node !in NodesOf(ss) && forall x :: x in NodesOf(sh.kids) ==> x !in NodesOf(ss)
    ensures Nodes(sh) !! NodesOf(ss)
  {
  }

  /** `parse_array` */
  method ParseArrayInto(item: Item, s: bytes, pos: nat) returns (r: Reached, ghost sh: Shape)
    requires pos < |s| && s[pos] == LBRACKET && item.child == null
    modifies item`kind, item`child
    ensures Built(s, r, ParseArray(s[pos..]), item, sh)
    ensures r.Upto? ==> pos < r.next && forall x :: x in NodesOf(sh.kids) ==> fresh(x)
    decreases |s| - pos, 1
  {
    hide ParseArray, ParseValue, Skip, MoreItems, Items, Built, Added, NodesOf;
    sh := Shape(item, []);
    item.kind := KArray;
    Tail(s, pos, 1);
    var i := SkipBlanks(s, pos + 1);
    AtTail(s, i, 0);
    NoChildrenYet(item);
    if At(s, i) == RBRACKET {
      Tail(s, i, 1);
      sh := Shape(item, []);
      EmptyArrayBuilt(s, pos, i, item);
      return Upto(i + 1), sh;
    }
    FirstItem(s[pos..]);
    ghost var ss: seq<Shape>, items: seq<Json> := [], [];
    ghost var g := ParseValue(Skip(s[i..]));
    var child;
    r, child, ss, items := ParseItem(item, null, s, i, ss, items);
    AddedMeans(s, i, r, g);
    if !r.Upto? {
      NotBuilt(s, r, ParseArray(s[pos..]), item, sh);
      return;
    }
    assert items == [g.value];
    r, sh := ParseMoreItems(item, child, s, r.next, ss, items);
  }

  lemma AddedMeans<T>(s: bytes, pos: nat, r: Reached, g: Parsed<T>)
    requires Added(s, pos, r, g)
    ensures r.Upto? ==> g.Ok? && pos < r.next <= |s| && s[r.next..] == Skip(g.rest)
    ensures r.Fails? ==> g.Failed?
    ensures r.Strays? ==> g.Undefined?
  {
  }

  lemma NotBuilt(s: bytes, r: Reached, g: Parsed<Json>, item: Item, sh: Shape)
    requires (r.Fails? && g.Failed?) || (r.Strays? && g.Undefined?)
    ensures Built(s, r, g, item, sh)
  {
  }

  lemma EmptyArrayBuilt(s: bytes, pos: nat, i: nat, item: Item)
    requires pos < |s| && s[pos] == LBRACKET && i < |s| && s[i..] == Skip(s[pos..][1..]) && s[i] == RBRACKET
    requires item.kind == KArray && item.child == null
    ensures Built(s, Upto(i + 1), ParseArray(s[pos..]), item, Shape(item, []))
  {
    Tail(s, i, 1);
  }

  /** The closing bracket. */
  lemma ArrayBuilt(s: bytes, i: nat, item: Item, last: Item?, ss: seq<Shape>, items: seq<Json>)
    requires i < |s| && s[i] == RBRACKET && item.kind == KArray && Items(item, last, ss, items)
    ensures Built(s, Upto(i + 1), MoreItems(items, s[i..]), item, Shape(item, ss))
  {
    Tail(s, i, 1);
    Whole(item, ss);
    hide Linked, Apart, Growing;
  }

  lemma {:induction false} Whole(item: Item, ss: seq<Shape>)
    requires Growing(item, ss, [])
    ensures Apart(Shape(item, ss)) && Linked(Shape(item, ss))
    ensures ContentOf(Shape(item, ss)) ==
      Content(item.kind, item.valuestring, item.valueint, item.valuedouble, item.name, ContentsOf(ss))
  {
    assert Roots(ss) + [] == Roots(ss);
  }

  lemma NotAnArray(s: bytes, i: nat, item: Item, sh: Shape, items: seq<Json>)
    requires i <= |s| && At(s, i) != RBRACKET && At(s, i) != COMMA
    ensures Built(s, Fails, MoreItems(items, s[i..]), item, sh)
  {
  }

  /** The loop of `parse_array`. */
  method ParseMoreItems(item: Item, first: Item, s: bytes, pos: nat, ghost ss0: seq<Shape>, ghost items0: seq<Json>)
    returns (r: Reached, ghost sh: Shape)
    requires pos <= |s| && Items(item, first, ss0, items0) && item.kind == KArray
    modifies item`child, NodesOf(ss0)`next
    ensures Built(s, r, MoreItems(items0, s[pos..]), item, sh)
    ensures r.Upto? ==> pos < r.next && forall x :: x in NodesOf(sh.kids) ==> x in NodesOf(ss0) || fresh(x)
    decreases |s| - pos, 4
  {
    hide MoreItems, ParseValue, Skip, Items, Built, Added, NodesOf;
    var child, i := first, pos;
    ghost var ss, items := ss0, items0;
    sh := Shape(item, []);
    while At(s, i) == COMMA
      invariant pos <= i <= |s| && Items(item, child, ss, items)
      invariant MoreItems(items, s[i..]) == MoreItems(items0, s[pos..])
      invariant forall x :: x in NodesOf(ss) ==> x in NodesOf(ss0) || fresh(x)
      decreases |s| - i
    {
      MoreItemsStep(items, s[i..]);
      AtTail(s, i, 0);
      Tail(s, i, 1);
      ghost var g := ParseValue(Skip(s[i + 1..]));
      RootsAreNodes(ss);
      r, child, ss, items := ParseItem(item, child, s, i + 1, ss, items);
      AddedMeans(s, i + 1, r, g);
      if !r.Upto? {
        NotBuilt(s, r, MoreItems(items0, s[pos..]), item, sh);
        return;
      }
      i := r.next;
    }
    if At(s, i) == RBRACKET {
      ArrayBuilt(s, i, item, child, ss, items);
      return Upto(i + 1), Shape(item, ss);
    }
    NotAnArray(s, i, item, sh, items);
    r := Fails;
  }

  // ----- objects

  /** A member's name and colon, up to the value; the string becomes the item's name. */
  method ParseName(item: Item, s: bytes, pos: nat) returns (r: Reached)
    requires pos <= |s|
    modifies item`kind, item`valuestring, item`name
    ensures match ParseString(Skip(s[pos..]))
      case Failed => r.Fails?
      case Undefined => r.Strays?
      case Ok(name, rest) =>
        if At(Skip(rest), 0) != COLON then r.Fails?
        else r.Upto? && pos < r.next <= |s| && s[r.next..] == Skip(Skip(rest)[1..]) && item.name == Ptr(name)
  {
    hide ParseString, Skip;
    var i := SkipBlanks(s, pos);
    r := ParseStringInto(item, s, i);
    if !r.Upto? {
      return;
    }
    item.name := item.valuestring;
    item.valuestring := NULL;
    i := SkipBlanks(s, r.next);
    AtTail(s, i, 0);
    if At(s, i) != COLON {
      return Fails;
    }
    Tail(s, i, 1);
    i := SkipBlanks(s, i + 1);
    r := Upto(i);
  }

  /** One member: a new child, its name, a colon, its value. */
  method ParseMemberInto(item: Item, last: Item?, s: bytes, pos: nat, ghost ss: seq<Shape>, ghost ms: seq<Member>)
    returns (r: Reached, last': Item, ghost ss': seq<Shape>, ghost ms': seq<Member>)
    requires pos <= |s| && Members(item, last, ss, ms)
    modifies item`child, Roots(ss)`next
    ensures Added(s, pos, r, ParseMember(s[pos..]))
    ensures r.Upto? ==> ms' == ms + [ParseMember(s[pos..]).value] && Members(item, last', ss', ms')
    ensures forall x :: x in NodesOf(ss') ==> x in NodesOf(ss) || fresh(x)
    decreases |s| - pos, 3
  {
    hide ParseString, ParseValue, Skip, Growing, Apart, AllApart, MembersDenote, Denotes, ContentOf,
      ContentsOf, Linked, AllLinked;
    last' := NextChild(item, last, ss);
    ss', ms' := ss, ms;
    NodesOfExist(ss);
    r := ParseName(last', s, pos);
    if !r.Upto? {
      return;
    }
    var i := r.next;
    ghost var sh;
    r, sh := ParseInto(last', s, i);
    if !r.Upto? {
      return;
    }
    NodesExist(sh);
    Separate(sh, ss);
    ChildDone(item, ss, last', sh);
    ghost var m := ParseMember(s[pos..]).value;
    NameOfContent(sh);
    MembersMore(ContentsOf(ss), ms, ContentOf(sh), m);
    ss', ms' := ss + [sh], ms + [m];
    i := SkipBlanks(s, r.next);
    r := Upto(i);
  }

  lemma NameOfContent(sh: Shape)
    ensures ContentOf(sh).name == sh.node.name
  {
  }

  /** `parse_object` */
  method ParseObjectInto(item: Item, s: bytes, pos: nat) returns (r: Reached, ghost sh: Shape)
    requires pos < |s| && s[pos] == LBRACE && item.child == null
    modifies item`kind, item`child
    ensures Built(s, r, ParseObject(s[pos..]), item, sh)
    ensures r.Upto? ==> pos < r.next && forall x :: x in NodesOf(sh.kids) ==> fresh(x)
    decreases |s| - pos, 1
  {
    hide ParseObject, ParseMember, Skip, MoreMembers, Members, Built, Added, NodesOf;
    sh := Shape(item, []);
    item.kind := KObject;
    Tail(s, pos, 1);
    var i := SkipBlanks(s, pos + 1);
    AtTail(s, i, 0);
    NoChildrenYet(item);
    if At(s, i) == RBRACE {
      Tail(s, i, 1);
      sh := Shape(item, []);
      EmptyObjectBuilt(s, pos, i, item);
      return Upto(i + 1), sh;
    }
    FirstMember(s[pos..]);
    ghost var ss: seq<Shape>, ms: seq<Member> := [], [];
    ghost var g := ParseMember(s[i..]);
    var child;
    r, child, ss, ms := ParseMemberInto(item, null, s, i, ss, ms);
    AddedMeans(s, i, r, g);
    if !r.Upto? {
      NotBuilt(s, r, ParseObject(s[pos..]), item, sh);
      return;
    }
    assert ms == [g.value];
    r, sh := ParseMoreMembers(item, child, s, r.next, ss, ms);
  }

  lemma EmptyObjectBuilt(s: bytes, pos: nat, i: nat, item: Item)
    requires pos < |s| && s[pos] == LBRACE && i < |s| && s[i..] == Skip(s[pos..][1..]) && s[i] == RBRACE
    requires item.kind == KObject && item.child == null
    ensures Built(s, Upto(i + 1), ParseObject(s[pos..]), item, Shape(item, []))
  {
    Tail(s, i, 1);
  }

  lemma ObjectBuilt(s: bytes, i: nat, item: Item, last: Item?, ss: seq<Shape>, ms: seq<Member>)
    requires i < |s| && s[i] == RBRACE && item.kind == KObject && Members(item, last, ss, ms)
    ensures Built(s, Upto(i + 1), MoreMembers(ms, s[i..]), item, Shape(item, ss))
  {
    Tail(s, i, 1);
    Whole(item, ss);
  }

  lemma NotAnObject(s: bytes, i: nat, item: Item, sh: Shape, ms: seq<Member>)
    requires i <= |s| && At(s, i) != RBRACE && At(s, i) != COMMA
    ensures Built(s, Fails, MoreMembers(ms, s[i..]), item, sh)
  {
  }

  /** The loop of `parse_object`. */
  method ParseMoreMembers(item: Item, first: Item, s: bytes, pos: nat, ghost ss0: seq<Shape>, ghost ms0: seq<Member>)
    returns (r: Reached, ghost sh: Shape)
    requires pos <= |s| && Members(item, first, ss0, ms0) && item.kind == KObject
    modifies item`child, NodesOf(ss0)`next
    ensures Built(s, r, MoreMembers(ms0, s[pos..]), item, sh)
    ensures r.Upto? ==> pos < r.next && forall x :: x in NodesOf(sh.kids) ==> x in NodesOf(ss0) || fresh(x)
    decreases |s| - pos, 4
  {
    hide MoreMembers, ParseMember, Skip, Members, Built, Added, NodesOf;
    var child, i := first, pos;
    ghost var ss, ms := ss0, ms0;
    sh := Shape(item, []);
    while At(s, i) == COMMA
      invariant pos <= i <= |s| && Members(item, child, ss, ms)
      invariant MoreMembers(ms, s[i..]) == MoreMembers(ms0, s[pos..])
      invariant forall x :: x in NodesOf(ss) ==> x in NodesOf(ss0) || fresh(x)
      decreases |s| - i
    {
      MoreMembersStep(ms, s[i..]);
      AtTail(s, i, 0);
      Tail(s, i, 1);
      ghost var g := ParseMember(s[i + 1..]);
      RootsAreNodes(ss);
      r, child, ss, ms := ParseMemberInto(item, child, s, i + 1, ss, ms);
      AddedMeans(s, i + 1, r, g);
      if !r.Upto? {
        NotBuilt(s, r, MoreMembers(ms0, s[pos..]), item, sh);
        return;
      }
      i := r.next;
    }
    if At(s, i) == RBRACE {
      ObjectBuilt(s, i, item, child, ss, ms);
      return Upto(i + 1), Shape(item, ss);
    }
    NotAnObject(s, i, item, sh, ms);
    r := Fails;
  }

  /** `cJSON_ParseWithOpts`: a new root, or NULL. */
  method ParseWithOpts(s: bytes, requireEnd: bool) returns (r: Reached, root: Item?, ghost sh: Shape)
    ensures root != null <==> r.Upto?
    ensures match Parse(s, requireEnd)
      case Ok(t, rest) =>
        r.Upto? && r.next <= |s| && s[r.next..] == rest && sh.node == root && fresh(Nodes(sh)) &&
        Apart(sh) && Linked(sh) && Denotes(ContentOf(sh), t)
      case Failed => r.Fails?
      case Undefined => r.Strays?
  {
    hide ParseValue, Apart, Linked, Denotes, ContentOf;
    assert s[0..] == s;
    var c := new Item();
    var i := SkipBlanks(s, 0);
    r, sh := ParseInto(c, s, i);
    root := null;
    if !r.Upto? {
      return;
    }
    NodesExist(sh);
    NodesOfExist(sh.kids);
    if requireEnd {
      var end := SkipBlanks(s, r.next);
      AtTail(s, end, 0);
      if end < |s| {
        r := Fails;
        return;
      }
      r := Upto(end);
    }
    root := c;
  }
}
