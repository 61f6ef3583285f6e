/** What the list operations do to the array or object a linked item stands for. */
module JsonEdits {
  import opened Bytes
  import opened JsonText
  import opened JsonItems
  import opened JsonTrees

  predicate HasEntries(t: Json) { t.Arr? || t.Obj? }

  /** The value or member at position `i`; an array's entries have no names. */
  function EntryAt(t: Json, i: nat): Member
    requires HasEntries(t) && i < Size(t)
  {
    if t.Arr? then Member([], t.items[i]) else t.members[i]
  }

  function Removed(t: Json, i: nat): Json
    requires HasEntries(t) && i < Size(t)
  {
    if t.Arr? then Arr(RemoveAt(t.items, i)) else Obj(RemoveAt(t.members, i))
  }

  function Inserted(t: Json, i: nat, m: Member): Json
    requires HasEntries(t) && i <= Size(t)
  {
    if t.Arr? then Arr(InsertAt(t.items, i, m.value)) else Obj(InsertAt(t.members, i, m))
  }

  function Replaced(t: Json, i: nat, m: Member): Json
    requires HasEntries(t) && i < Size(t)
  {
    if t.Arr? then Arr(t.items[i := m.value]) else Obj(t.members[i := m])
  }

  /** `item` is a linked tree without shared nodes that stands for the entry `m` of `t`. */
  ghost predicate Entry(t: Json, item: Item, sh: Shape, m: Member)
    reads Nodes(sh), item`name
  {
    Tree(item, sh, m.value) && Apart(sh) && (t.Obj? ==> item.name == Ptr(m.name))
  }

  /** `list` is a linked array or object without shared nodes that stands for `t`. */
  ghost predicate Collection(list: Item, ss: seq<Shape>, t: Json)
    reads Nodes(Shape(list, ss))
  {
    HasEntries(t) && Tree(list, Shape(list, ss), t) && Apart(Shape(list, ss))
  }

  // ----- children one by one

  lemma {:induction false} AllLinkedAt(ss: seq<Shape>)
    ensures AllLinked(ss) <==> forall i :: 0 <= i < |ss| ==> Linked(ss[i])
  {
    if ss != [] {
      var init := ss[..|ss| - 1];
      AllLinkedAt(init);
      assert forall i :: 0 <= i < |init| ==> init[i] == ss[i];
      assert (forall i :: 0 <= i < |ss| ==> Linked(ss[i])) ==> forall i :: 0 <= i < |init| ==> Linked(init[i]);
    }
  }

  lemma {:induction false} NodesAt(ss: seq<Shape>, x: Item)
    ensures x in NodesOf(ss) <==> exists i :: 0 <= i < |ss| && x in Nodes(ss[i])
  {
    if ss != [] {
      var init := ss[..|ss| - 1];
      NodesAt(init, x);
      assert forall i :: 0 <= i < |init| ==> init[i] == ss[i];
    }
  }

  ghost predicate EachApart(ss: seq<Shape>) {
    (forall i :: 0 <= i < |ss| ==> Apart(ss[i])) && forall i, j :: 0 <= i < j < |ss| ==> Nodes(ss[i]) !! Nodes(ss[j])
  }

  lemma {:induction false} AllApartAt(ss: seq<Shape>)
    ensures AllApart(ss) <==> EachApart(ss)
  {
    hide Apart, Nodes;
    if ss != [] {
      var init, last := ss[..|ss| - 1], ss[|ss| - 1];
      AllApartAt(init);
      assert forall i :: 0 <= i < |init| ==> init[i] == ss[i];
      assert EachApart(ss) <==>
        EachApart(init) && Apart(last) && forall i :: 0 <= i < |init| ==> Nodes(init[i]) !! Nodes(last);
      DisjointFromAll(init, Nodes(last));
    }
  }

  lemma DisjointFromAll(ss: seq<Shape>, xs: set<Item>)
    ensures NodesOf(ss) !! xs <==> forall i :: 0 <= i < |ss| ==> Nodes(ss[i]) !! xs
  {
    hide Nodes, NodesOf;
    forall x | x in xs ensures x in NodesOf(ss) <==> exists i :: 0 <= i < |ss| && x in Nodes(ss[i]) { NodesAt(ss, x); }
    if NodesOf(ss) !! xs {
      forall i | 0 <= i < |ss| ensures Nodes(ss[i]) !! xs {
        forall x | x in xs ensures x !in Nodes(ss[i]) { }
      }
    }
  }

  /** Any selection of the children of `ss`, in any order. */
  ghost predicate Selects(ss: seq<Shape>, pick: seq<nat>, ss': seq<Shape>) {
    |pick| == |ss'| && (forall j :: 0 <= j < |pick| ==> pick[j] < |ss| && ss'[j] == ss[pick[j]]) &&
    forall j, k :: 0 <= j < k < |pick| ==> pick[j] != pick[k]
  }

  /** A selection of linked children without shared nodes is linked and without shared nodes. */
  lemma SelectionStays(list: Item, ss: seq<Shape>, pick: seq<nat>, ss': seq<Shape>)
    requires AllLinked(ss) && AllApart(ss) && list !in NodesOf(ss) && Selects(ss, pick, ss')
    requires Chain(list.child, Roots(ss'))
    ensures Linked(Shape(list, ss')) && Apart(Shape(list, ss'))
  {
    hide Nodes, NodesOf, Apart, Linked, Chain;
    AllLinkedAt(ss);
    AllLinkedAt(ss');
    AllApartAt(ss);
    AllApartAt(ss');
    forall j, k | 0 <= j < k < |ss'| ensures Nodes(ss'[j]) !! Nodes(ss'[k]) {
      assert Nodes(ss[pick[j]]) !! Nodes(ss[pick[k]]);
    }
    NodesAt(ss, list);
    NodesAt(ss', list);
    Whole(list, ss');
  }

  lemma Whole(list: Item, ss: seq<Shape>)
    requires AllLinked(ss) && AllApart(ss) && list !in NodesOf(ss) && Chain(list.child, Roots(ss))
    ensures Linked(Shape(list, ss)) && Apart(Shape(list, ss))
  {
  }

  // ----- entries one by one

  function KindOf(t: Json): Kind { if t.Arr? then KArray else KObject }

  predicate EntryDenoted(t: Json, c: Content, m: Member) { Denotes(c, m.value) && (t.Obj? ==> c.name == Ptr(m.name)) }

  /** The contents `cs` are those of the entries of `t`, in order. */
  ghost predicate EntriesDenoted(t: Json, cs: seq<Content>)
    requires HasEntries(t)
  {
    |cs| == Size(t) && forall i :: 0 <= i < |cs| ==> EntryDenoted(t, cs[i], EntryAt(t, i))
  }

  lemma DenotesEntries(c: Content, t: Json)
    requires HasEntries(t)
    ensures Denotes(c, t) <==> c.kind == KindOf(t) && EntriesDenoted(t, c.kids)
  {
    if t.Arr? {
      assert forall i :: 0 <= i < |t.items| ==> EntryAt(t, i).value == t.items[i];
      assert EntriesDenoted(t, c.kids) ==> forall i :: 0 <= i < |c.kids| ==> EntryDenoted(t, c.kids[i], EntryAt(t, i));
    } else {
      assert forall i :: 0 <= i < |t.members| ==> EntryAt(t, i) == t.members[i];
      assert EntriesDenoted(t, c.kids) ==> forall i :: 0 <= i < |c.kids| ==> EntryDenoted(t, c.kids[i], EntryAt(t, i));
    }
  }

  lemma EntriesRemoved(t: Json, cs: seq<Content>, i: nat)
    requires HasEntries(t) && EntriesDenoted(t, cs) && i < Size(t)
    ensures EntriesDenoted(Removed(t, i), RemoveAt(cs, i))
  {
    forall j | 0 <= j < |cs| - 1 ensures EntryDenoted(t, RemoveAt(cs, i)[j], EntryAt(Removed(t, i), j)) {
      assert EntryDenoted(t, cs[if j < i then j else j + 1], EntryAt(t, if j < i then j else j + 1));
    }
  }

  lemma EntriesInserted(t: Json, cs: seq<Content>, i: nat, c: Content, m: Member)
    requires HasEntries(t) && EntriesDenoted(t, cs) && i <= Size(t) && EntryDenoted(t, c, m)
    ensures EntriesDenoted(Inserted(t, i, m), InsertAt(cs, i, c))
  {
    forall j | 0 <= j < |cs| + 1 ensures EntryDenoted(t, InsertAt(cs, i, c)[j], EntryAt(Inserted(t, i, m), j)) {
      if j != i { assert EntryDenoted(t, cs[if j < i then j else j - 1], EntryAt(t, if j < i then j else j - 1)); }
    }
  }

  lemma EntriesReplaced(t: Json, cs: seq<Content>, i: nat, c: Content, m: Member)
    requires HasEntries(t) && EntriesDenoted(t, cs) && i < Size(t) && EntryDenoted(t, c, m)
    ensures EntriesDenoted(Replaced(t, i, m), cs[i := c])
  {
    forall j | 0 <= j < |cs| ensures EntryDenoted(t, cs[i := c][j], EntryAt(Replaced(t, i, m), j)) {
      if j != i { assert EntryDenoted(t, cs[j], EntryAt(t, j)); }
    }
  }

  /** What a collection is made of, and what the frames of the operations need. */
  lemma Parts(list: Item, ss: seq<Shape>, t: Json)
    requires Collection(list, ss, t)
    ensures HasEntries(t) && AllLinked(ss) && AllApart(ss) && list !in NodesOf(ss) && ListOk(list, Roots(ss))
    ensures |ss| == Size(t) && list.kind == KindOf(t) && EntriesDenoted(t, ContentsOf(ss))
    ensures Outside(ss) && allocated(NodesOf(ss))
  {
    RootsAreNotBelow(ss);
    DenotesEntries(ContentOf(Shape(list, ss)), t);
    ContentsAt(ss);
    NodesOfExist(ss);
    RootsAreNodes(ss);
    BelowIsNodes(ss);
  }

  /** The roots of `ss` lie in none of its subtrees. */
  ghost predicate Outside(ss: seq<Shape>) {
    (forall x :: x in Roots(ss) ==> x !in Below(ss) && x in NodesOf(ss)) && Below(ss) <= NodesOf(ss)
  }

  /** A collection made of a selection of the linked trees `all`. */
  lemma Assembled(list: Item, all: seq<Shape>, pick: seq<nat>, ss: seq<Shape>, t: Json)
    requires AllLinked(all) && AllApart(all) && list !in NodesOf(all) && Selects(all, pick, ss)
    requires ListOk(list, Roots(ss)) && HasEntries(t) && list.kind == KindOf(t)
    requires EntriesDenoted(t, ContentsOf(ss))
    ensures Collection(list, ss, t)
  {
    hide AllLinked, AllApart, NodesOf, EntriesDenoted, Denotes, Linked, Apart, Chain;
    SelectionStays(list, all, pick, ss);
    DenotesEntries(ContentOf(Shape(list, ss)), t);
  }

  lemma EntryStays(ss: seq<Shape>, t: Json, i: nat)
    requires AllLinked(ss) && AllApart(ss) && HasEntries(t) && i < |ss| == Size(t) && EntriesDenoted(t, ContentsOf(ss))
    ensures Entry(t, ss[i].node, ss[i], EntryAt(t, i))
  {
    PartsOf(ss, i);
    ContentsAt(ss);
  }

  // ----- the selections

  lemma RootsAt(ss: seq<Shape>, ss': seq<Shape>, pick: seq<nat>)
    requires Selects(ss, pick, ss')
    ensures |ContentsOf(ss')| == |ss'| && |ContentsOf(ss)| == |ss|
    ensures forall j :: 0 <= j < |pick| ==> Roots(ss')[j] == Roots(ss)[pick[j]]
    ensures forall j :: 0 <= j < |pick| ==> ContentsOf(ss')[j] == ContentsOf(ss)[pick[j]]
  {
    hide ContentOf;
    ContentsAt(ss);
    ContentsAt(ss');
  }

  lemma WithoutOne(ss: seq<Shape>, i: nat) returns (pick: seq<nat>)
    requires i < |ss|
    ensures Selects(ss, pick, RemoveAt(ss, i)) && Roots(RemoveAt(ss, i)) == RemoveAt(Roots(ss), i)
    ensures |ContentsOf(ss)| == |ss| && ContentsOf(RemoveAt(ss, i)) == RemoveAt(ContentsOf(ss), i)
  {
    hide ContentsOf, Roots;
    pick := seq(|ss| - 1, j requires j >= 0 => if j < i then j else j + 1);
    RootsAt(ss, RemoveAt(ss, i), pick);
  }

  lemma WithOne(ss: seq<Shape>, i: nat, sh: Shape) returns (pick: seq<nat>)
    requires i <= |ss|
    ensures Selects(ss + [sh], pick, InsertAt(ss, i, sh)) && Roots(InsertAt(ss, i, sh)) == InsertAt(Roots(ss), i, sh.node)
    ensures |ContentsOf(ss)| == |ss| && ContentsOf(InsertAt(ss, i, sh)) == InsertAt(ContentsOf(ss), i, ContentOf(sh))
  {
    hide ContentsOf, ContentOf, Roots;
    var all := ss + [sh];
    pick := seq(|ss| + 1, j requires j >= 0 => if j < i then j else if j == i then |ss| else j - 1);
    RootsAt(all, InsertAt(ss, i, sh), pick);
    LastOne(ss, sh);
  }

  lemma OtherOne(ss: seq<Shape>, i: nat, sh: Shape) returns (pick: seq<nat>)
    requires i < |ss|
    ensures Selects(ss + [sh], pick, ss[i := sh]) && Roots(ss[i := sh]) == Roots(ss)[i := sh.node]
    ensures |ContentsOf(ss)| == |ss| && ContentsOf(ss[i := sh]) == ContentsOf(ss)[i := ContentOf(sh)]
  {
    hide ContentsOf, ContentOf, Roots;
    pick := seq(|ss|, j requires j >= 0 => if j == i then |ss| else j);
    RootsAt(ss + [sh], ss[i := sh], pick);
    LastOne(ss, sh);
  }

  lemma LastOne(ss: seq<Shape>, sh: Shape)
    ensures (ss + [sh])[..|ss|] == ss && Roots(ss + [sh]) == Roots(ss) + [sh.node]
    ensures |ContentsOf(ss)| == |ss| && ContentsOf(ss + [sh]) == ContentsOf(ss) + [ContentOf(sh)]
    ensures NodesOf(ss + [sh]) == NodesOf(ss) + Nodes(sh)
  {
    hide ContentOf;
    ContentsAt(ss);
    assert (ss + [sh])[..|ss|] == ss;
  }

  lemma Everything(ss: seq<Shape>) returns (pick: seq<nat>)
    ensures Selects(ss, pick, ss)
  {
    pick := seq(|ss|, j requires j >= 0 => j);
  }

  // ----- the operations

  /** Detaching: the entry at the index is a tree of its own, the others stay in order. */
  method Detach(list: Item, which: int, ghost ss: seq<Shape>, ghost t: Json) returns (c: Item?, ghost i: nat)
    requires Collection(list, ss, t)
    modifies list`child, Roots(ss)`next, Roots(ss)`prev
    ensures i == if which < 0 then 0 else which
    ensures i >= Size(t) ==> c == null && Collection(list, ss, t)
    ensures HasEntries(t) && |ss| == Size(t)
    ensures i < Size(t) ==> c == ss[i].node && c.next == null && c.prev == null && Entry(t, c, ss[i], EntryAt(t, i))
    ensures i < Size(t) ==> Collection(list, RemoveAt(ss, i), Removed(t, i))
  {
    hide Collection, EntriesDenoted, Removed, EntryAt, Selects, ListOk, AllLinked, AllApart, ContentsOf, Entry, Roots;
    Parts(list, ss, t);
    c, i := DetachItemFromArray(list, which, Roots(ss));
    if i < |ss| {
      ghost var pick := WithoutOne(ss, i);
      EntriesRemoved(t, ContentsOf(ss), i);
      EntryStays(ss, t, i);
      SameKind(t, i);
      Assembled(list, ss, pick, RemoveAt(ss, i), Removed(t, i));
    } else {
      ghost var pick := Everything(ss);
      Assembled(list, ss, pick, ss, t);
    }
  }

  /** A tree that is to become a child of `list`. */
  ghost predicate Newcomer(list: Item, ss: seq<Shape>, t: Json, item: Item, sh: Shape, m: Member)
    reads Nodes(sh), item
  {
    Entry(t, item, sh, m) && Nodes(sh) !! NodesOf(ss) && list !in Nodes(sh)
  }

  lemma PartsWithNew(list: Item, ss: seq<Shape>, t: Json, item: Item, sh: Shape, m: Member)
    requires Collection(list, ss, t) && Newcomer(list, ss, t, item, sh, m)
    ensures var all := ss + [sh];
      AllLinked(all) && AllApart(all) && list !in NodesOf(all) && Outside(all) && allocated(NodesOf(all)) &&
      Roots(all) == Roots(ss) + [item] && item !in Roots(ss) && ContentsOf(all) == ContentsOf(ss) + [ContentOf(sh)]
    ensures EntryDenoted(t, ContentOf(sh), m)
  {
    var all := ss + [sh];
    LastOne(ss, sh);
    OneMore(ss, sh);
    NodesOfExist(all);
    RootsAreNodes(ss);
    RootsAreNodes(all);
    BelowIsNodes(all);
    RootsAreNotBelow(all);
  }

  /** Inserting: the new entry stands at the index, the others stay in order. */
  method Insert(list: Item, which: int, item: Item, ghost ss: seq<Shape>, ghost t: Json, ghost sh: Shape, ghost m: Member)
    returns (ghost i: nat)
    requires Collection(list, ss, t) && Newcomer(list, ss, t, item, sh, m) && item.next == null && item.prev == null
    modifies list`child, Roots(ss)`next, Roots(ss)`prev, item`next, item`prev
    ensures HasEntries(t) && |ss| == Size(t) && i == if which < 0 then 0 else if which > |ss| then |ss| else which
    ensures Collection(list, InsertAt(ss, i, sh), Inserted(t, i, m))
  {
    hide Collection, Newcomer, EntriesDenoted, EntryDenoted, Inserted, Selects, ListOk, AllLinked, AllApart,
      ContentsOf, ContentOf, Roots;
    Parts(list, ss, t);
    PartsWithNew(list, ss, t, item, sh, m);
    i := InsertItemInArray(list, which, item, Roots(ss));
    Grown(list, ss, t, i, item, sh, m);
  }

  /** The new child is linked in: the list with it is a collection. */
  lemma Grown(list: Item, ss: seq<Shape>, t: Json, i: nat, item: Item, sh: Shape, m: Member)
    requires HasEntries(t) && i <= |ss| == Size(t) && list.kind == KindOf(t) && EntriesDenoted(t, ContentsOf(ss))
    requires AllLinked(ss + [sh]) && AllApart(ss + [sh]) && list !in NodesOf(ss + [sh]) && sh.node == item
    requires EntryDenoted(t, ContentOf(sh), m) && ListOk(list, InsertAt(Roots(ss), i, item))
    ensures Collection(list, InsertAt(ss, i, sh), Inserted(t, i, m))
  {
    hide Collection, EntriesDenoted, EntryDenoted, Inserted, Selects, ListOk, AllLinked, AllApart, ContentsOf,
      ContentOf, Roots;
    var pick := WithOne(ss, i, sh);
    EntriesInserted(t, ContentsOf(ss), i, ContentOf(sh), m);
    SameKind(t, i);
    Assembled(list, ss + [sh], pick, InsertAt(ss, i, sh), Inserted(t, i, m));
  }

  /** Appending: the new entry is the last. */
  method Append(list: Item, item: Item, ghost ss: seq<Shape>, ghost t: Json, ghost sh: Shape, ghost m: Member)
    requires Collection(list, ss, t) && Newcomer(list, ss, t, item, sh, m) && item.next == null && item.prev == null
    modifies list`child, Roots(ss)`next, item`prev
    ensures HasEntries(t) && Collection(list, ss + [sh], Inserted(t, Size(t), m))
  {
    hide Collection, Newcomer, EntriesDenoted, EntryDenoted, Inserted, Selects, ListOk, AllLinked, AllApart,
      ContentsOf, ContentOf, Roots;
    Parts(list, ss, t);
    PartsWithNew(list, ss, t, item, sh, m);
    AddItemToArray(list, item, Roots(ss));
    assert Roots(ss) + [item] == InsertAt(Roots(ss), |ss|, item) && InsertAt(ss, |ss|, sh) == ss + [sh];
    Grown(list, ss, t, |ss|, item, sh, m);
  }

  /** `cJSON_AddItemToObject`: the item takes its name and becomes the last member. */
  method AddItemToObject(list: Item, name: bytes, item: Item, ghost ss: seq<Shape>, ghost t: Json, ghost sh: Shape,
      ghost v: Json)
    requires Collection(list, ss, t) && t.Obj? && item.next == null && item.prev == null
    requires Tree(item, sh, v) && Apart(sh) && Nodes(sh) !! NodesOf(ss) && list !in Nodes(sh)
    modifies list`child, Roots(ss)`next, item`prev, item`name
    ensures Collection(list, ss + [sh], Obj(t.members + [Member(name, v)]))
  {
    Rename(list, name, item, ss, t, sh, v);
    assert InsertAt(t.members, |t.members|, Member(name, v)) == t.members + [Member(name, v)];
    Append(list, item, ss, t, sh, Member(name, v));
  }

  method Rename(list: Item, name: bytes, item: Item, ghost ss: seq<Shape>, ghost t: Json, ghost sh: Shape, ghost v: Json)
    requires Collection(list, ss, t) && t.Obj?
    requires Tree(item, sh, v) && Apart(sh) && Nodes(sh) !! NodesOf(ss) && list !in Nodes(sh)
    modifies item`name
    ensures Collection(list, ss, t) && Newcomer(list, ss, t, item, sh, Member(name, v))
  {
    hide Denotes;
    NodesExist(sh);
    NodesExist(Shape(list, ss));
    ghost var c := ContentOf(sh);
    item.name := Ptr(name);
    assert ContentOf(sh) == c.(name := Ptr(name));
    OwnNameDoesNotMatter(c, Ptr(name), v);
  }

  lemma OwnNameDoesNotMatter(c: Content, name: CString, t: Json)
    ensures Denotes(c.(name := name), t) <==> Denotes(c, t)
  {
  }

  /** Replacing: the new entry stands at the index of the old one, which is a tree of its own. */
  method Replace(list: Item, which: int, item: Item, ghost ss: seq<Shape>, ghost t: Json, ghost sh: Shape, ghost m: Member)
    returns (c: Item?, ghost i: nat)
    requires Collection(list, ss, t) && Newcomer(list, ss, t, item, sh, m)
    modifies list`child, Roots(ss)`next, Roots(ss)`prev, item`next, item`prev
    ensures i == if which < 0 then 0 else which
    ensures HasEntries(t) && |ss| == Size(t) && (i >= Size(t) ==> c == null && Collection(list, ss, t))
    ensures i < Size(t) ==> c == ss[i].node && c.next == null && c.prev == null && Entry(t, c, ss[i], EntryAt(t, i))
    ensures i < Size(t) ==> Collection(list, ss[i := sh], Replaced(t, i, m))
  {
    hide Collection, Newcomer, EntriesDenoted, EntryDenoted, Replaced, EntryAt, Selects, ListOk, AllLinked,
      AllApart, ContentsOf, ContentOf, Roots, Entry;
    Parts(list, ss, t);
    PartsWithNew(list, ss, t, item, sh, m);
    c, i := ReplaceItemInArray(list, which, item, Roots(ss));
    LastOne(ss, sh);
    OnlyOld(ss, sh);
    if i < |ss| {
      ghost var pick := OtherOne(ss, i, sh);
      EntriesReplaced(t, ContentsOf(ss), i, ContentOf(sh), m);
      EntryStays(ss, t, i);
      SameKind(t, i);
      Assembled(list, ss + [sh], pick, ss[i := sh], Replaced(t, i, m));
    } else {
      ghost var pick := Everything(ss);
      Assembled(list, ss, pick, ss, t);
    }
  }

  lemma OnlyOld(ss: seq<Shape>, sh: Shape)
    ensures AllLinked(ss + [sh]) ==> AllLinked(ss)
    ensures AllApart(ss + [sh]) ==> AllApart(ss)
  {
    assert (ss + [sh])[..|ss|] == ss;
  }

  lemma SameKind(t: Json, i: nat)
    requires HasEntries(t)
    ensures i < Size(t) ==> HasEntries(Removed(t, i)) && KindOf(Removed(t, i)) == KindOf(t)
    ensures forall m :: i <= Size(t) ==> HasEntries(Inserted(t, i, m)) && KindOf(Inserted(t, i, m)) == KindOf(t)
    ensures forall m :: i < Size(t) ==> HasEntries(Replaced(t, i, m)) && KindOf(Replaced(t, i, m)) == KindOf(t)
  {
  }
}
