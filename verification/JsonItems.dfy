/** cJSON nodes on the heap: the doubly linked child list, its surgery, and deep copies. */
module JsonItems {
  import opened Bytes

  datatype Kind = KFalse | KTrue | KNull | KNumber | KString | KArray | KObject

  /** A `char *`: NULL or a string of its own. */
  datatype CString = NULL | Ptr(text: bytes)

  class Item {
    var next: Item?
    var prev: Item?
    var child: Item?
    var kind: Kind
    var valuestring: CString
    var valueint: int
    var valuedouble: real
    var name: CString

    /** `cJSON_New_Item`: everything zeroed. */
    constructor ()
      ensures next == null && prev == null && child == null
      ensures kind == KFalse && name == NULL && valuestring == NULL && valueint == 0 && valuedouble == 0.0
    {
      next, prev, child, kind := null, null, null, KFalse;
      valuestring, valueint, valuedouble, name := NULL, 0, 0.0, NULL;
    }
  }

  /** `first` starts a chain whose `next` links run through `ks` and whose `prev` links run back. */
  ghost predicate Chain(first: Item?, ks: seq<Item>)
    reads ks`next, ks`prev
  {
    first == (if ks == [] then null else ks[0]) &&
    (forall i {:trigger ks[i].next} :: 0 <= i < |ks| ==> ks[i].next == if i + 1 < |ks| then ks[i + 1] else null) &&
    (forall i {:trigger ks[i].prev} :: 0 <= i < |ks| ==> ks[i].prev == if i > 0 then ks[i - 1] else null)
  }

  ghost predicate Distinct(ks: seq<Item>) { forall i, j :: 0 <= i < j < |ks| ==> ks[i] != ks[j] }

  function InsertAt<T>(s: seq<T>, i: nat, x: T): seq<T>
    requires i <= |s|
  {
    s[..i] + [x] + s[i..]
  }

  function RemoveAt<T>(s: seq<T>, i: nat): seq<T>
    requires i < |s|
  {
    s[..i] + s[i + 1..]
  }

  // ----- the list operations; `ks` are the children, in order

  /** The children's links: `next` runs through `ks` and `prev` is its exact inverse. */
  ghost predicate ListOk(list: Item, ks: seq<Item>)
    reads list`child, ks`next, ks`prev
  {
    Chain(list.child, ks) && Distinct(ks)
  }

  /** `cJSON_AddItemToArray`, with `suffix_object`. */
  method AddItemToArray(list: Item, item: Item?, ghost ks: seq<Item>)
    requires ListOk(list, ks)
    requires item != null ==> item !in ks && item.next == null && item.prev == null
    modifies list`child, ks`next, (if item == null then {} else {item})`prev
    ensures ListOk(list, if item == null then ks else ks + [item])
  {
    if item == null {
      return;
    }
    var c := list.child;
    if c == null {
      list.child := item;
    } else {
      ghost var i := 0;
      while c.next != null
        invariant 0 <= i < |ks| && c == ks[i]
        decreases |ks| - i
      {
        c, i := c.next, i + 1;
      }
      c.next, item.prev := item, c;
    }
  }

  /** The walk that every indexed operation starts with; negative indices mean the first child. */
  method Walk(list: Item, which: int, ghost ks: seq<Item>) returns (c: Item?, ghost i: nat)
    requires ListOk(list, ks)
    ensures i == if which < 0 then 0 else which
    ensures c == if i < |ks| then ks[i] else null
  {
    c := list.child;
    i := if which < 0 then 0 else which;
    ghost var k := 0;
    var left := which;
    while c != null && left > 0
      invariant 0 <= k <= |ks| && c == (if k < |ks| then ks[k] else null)
      invariant k <= i && (left > 0 ==> left == which - k) && (left <= 0 ==> k == i)
      decreases |ks| - k
    {
      c, left, k := c.next, left - 1, k + 1;
    }
  }

  method LinkOut(list: Item, c: Item, ghost ks: seq<Item>, ghost i: nat)
    requires Chain(list.child, ks) && i < |ks| && c == ks[i] && Distinct(ks)
    modifies list`child, ks`next, ks`prev
    ensures Chain(list.child, RemoveAt(ks, i)) && c.next == null && c.prev == null
  {
    if c.prev != null { c.prev.next := c.next; }
    if c.next != null { c.next.prev := c.prev; }
    if c == list.child { list.child := c.next; }
    c.prev, c.next := null, null;
  }

  method LinkBefore(list: Item, c: Item, item: Item, ghost ks: seq<Item>, ghost i: nat)
    requires Chain(list.child, ks) && i < |ks| && c == ks[i] && item !in ks && Distinct(ks)
    modifies list`child, ks`next, ks`prev, item`next, item`prev
    ensures Chain(list.child, InsertAt(ks, i, item))
  {
    item.next, item.prev := c, c.prev;
    c.prev := item;
    if c == list.child { list.child := item; } else { item.prev.next := item; }
  }

  method LinkInstead(list: Item, c: Item, item: Item, ghost ks: seq<Item>, ghost i: nat)
    requires Chain(list.child, ks) && i < |ks| && c == ks[i] && item !in ks && Distinct(ks)
    modifies list`child, ks`next, ks`prev, item`next, item`prev
    ensures Chain(list.child, ks[i := item]) && c.next == null && c.prev == null
  {
    item.next, item.prev := c.next, c.prev;
    if item.next != null { item.next.prev := item; }
    if c == list.child { list.child := item; } else { item.prev.next := item; }
    c.next, c.prev := null, null;
  }

  /** `cJSON_DetachItemFromArray`: no child at that index, or the child unlinked. */
  method DetachItemFromArray(list: Item, which: int, ghost ks: seq<Item>) returns (c: Item?, ghost i: nat)
    requires ListOk(list, ks)
    modifies list`child, ks`next, ks`prev
    ensures i == if which < 0 then 0 else which
    ensures i >= |ks| ==> c == null && ListOk(list, ks)
    ensures i < |ks| ==> c == ks[i] && c.next == null && c.prev == null && ListOk(list, RemoveAt(ks, i))
  {
    c, i := Walk(list, which, ks);
    if c == null {
      return;
    }
    LinkOut(list, c, ks, i);
  }

  /** `cJSON_InsertItemInArray`: an index past the end appends. */
  method InsertItemInArray(list: Item, which: int, item: Item, ghost ks: seq<Item>) returns (ghost i: nat)
    requires ListOk(list, ks) && item !in ks && item.next == null && item.prev == null
    modifies list`child, ks`next, ks`prev, item`next, item`prev
    ensures i == if which < 0 then 0 else if which > |ks| then |ks| else which
    ensures ListOk(list, InsertAt(ks, i, item))
  {
    var c;
    c, i := Walk(list, which, ks);
    if c == null {
      i := |ks|;
      AddItemToArray(list, item, ks);
      assert ks + [item] == InsertAt(ks, |ks|, item);
      return;
    }
    LinkBefore(list, c, item, ks, i);
  }

  /** `cJSON_ReplaceItemInArray`, up to the release of the item that was replaced. */
  method ReplaceItemInArray(list: Item, which: int, item: Item, ghost ks: seq<Item>) returns (c: Item?, ghost i: nat)
    requires ListOk(list, ks) && item !in ks
    modifies list`child, ks`next, ks`prev, item`next, item`prev
    ensures i == if which < 0 then 0 else which
    ensures i >= |ks| ==> c == null && ListOk(list, ks)
    ensures i < |ks| ==> c == ks[i] && c.next == null && c.prev == null && ListOk(list, ks[i := item])
  {
    c, i := Walk(list, which, ks);
    if c == null {
      return;
    }
    LinkInstead(list, c, item, ks, i);
  }

  // ----- deep copies

  /** The nodes of a heap tree, as a value: which node, and the shapes of its children in order. */
  datatype Shape = Shape(node: Item, kids: seq<Shape>)

  /** What the nodes of a heap tree say, without their addresses. */
  datatype Content = Content(kind: Kind, valuestring: CString, valueint: int, valuedouble: real, name: CString,
                             kids: seq<Content>)

  ghost function Nodes(s: Shape): set<Item>
    decreases s
  {
    {s.node} + NodesOf(s.kids)
  }

  ghost function NodesOf(ss: seq<Shape>): set<Item>
    decreases ss
  {
    if ss == [] then {} else NodesOf(ss[..|ss| - 1]) + Nodes(ss[|ss| - 1])
  }

  /** The nodes below the roots of `ss`. */
  ghost function Below(ss: seq<Shape>): set<Item>
  {
    if ss == [] then {} else Below(ss[..|ss| - 1]) + NodesOf(ss[|ss| - 1].kids)
  }

  ghost function Roots(ss: seq<Shape>): (r: seq<Item>)
    ensures |r| == |ss| && forall i :: 0 <= i < |ss| ==> r[i] == ss[i].node
  {
    if ss == [] then [] else Roots(ss[..|ss| - 1]) + [ss[|ss| - 1].node]
  }

  /** No node occurs twice. */
  ghost predicate Apart(s: Shape)
    decreases s
  {
    s.node !in NodesOf(s.kids) && AllApart(s.kids)
  }

  ghost predicate AllApart(ss: seq<Shape>)
    decreases ss
  {
    ss == [] || (AllApart(ss[..|ss| - 1]) && Apart(ss[|ss| - 1]) && NodesOf(ss[..|ss| - 1]) !! Nodes(ss[|ss| - 1]))
  }

  ghost function ContentOf(s: Shape): Content
    reads Nodes(s)`kind, Nodes(s)`valuestring, Nodes(s)`valueint, Nodes(s)`valuedouble, Nodes(s)`name
    decreases s
  {
    Content(s.node.kind, s.node.valuestring, s.node.valueint, s.node.valuedouble, s.node.name, ContentsOf(s.kids))
  }

  ghost function ContentsOf(ss: seq<Shape>): seq<Content>
    reads NodesOf(ss)`kind, NodesOf(ss)`valuestring, NodesOf(ss)`valueint, NodesOf(ss)`valuedouble, NodesOf(ss)`name
    decreases ss
  {
    if ss == [] then [] else ContentsOf(ss[..|ss| - 1]) + [ContentOf(ss[|ss| - 1])]
  }

  /** The child chains of a heap tree follow its shape. */
  ghost predicate Linked(s: Shape)
    reads s.node`child, NodesOf(s.kids)`child, NodesOf(s.kids)`next, NodesOf(s.kids)`prev
    decreases s
  {
    RootsAreNodes(s.kids);
    BelowIsNodes(s.kids);
    Chain(s.node.child, Roots(s.kids)) && AllLinked(s.kids)
  }

  ghost predicate AllLinked(ss: seq<Shape>)
    reads Roots(ss)`child, Below(ss)`child, Below(ss)`next, Below(ss)`prev
    decreases ss
  {
    if ss == [] then true
    else
      var init, last := ss[..|ss| - 1], ss[|ss| - 1];
      assert Roots(ss) == Roots(init) + [last.node];
      assert forall x :: x in Roots(init) ==> x in Roots(ss);
      assert last.node in Roots(ss);
      AllLinked(init) && Linked(last)
  }

  lemma {:induction ss} RootsAreNodes(ss: seq<Shape>)
    ensures forall x :: x in Roots(ss) ==> x in NodesOf(ss)
    ensures forall i :: 0 <= i < |ss| ==> Roots(ss)[i] in NodesOf(ss)
  {
  }

  lemma {:induction ss} BelowIsNodes(ss: seq<Shape>)
    ensures Below(ss) <= NodesOf(ss)
  {
  }

  lemma {:induction false} RootsAreNotBelow(ss: seq<Shape>)
    requires AllApart(ss)
    ensures Distinct(Roots(ss)) && forall x :: x in Roots(ss) ==> x !in Below(ss)
  {
    if ss != [] {
      var init, last := ss[..|ss| - 1], ss[|ss| - 1];
      RootsAreNotBelow(init);
      RootsAreNodes(init);
      BelowIsNodes(init);
    }
  }

  lemma {:induction false} PartsOf(ss: seq<Shape>, i: nat)
    requires i < |ss|
    ensures Nodes(ss[i]) <= NodesOf(ss)
    ensures AllApart(ss) ==> Apart(ss[i])
    ensures ContentsOf(ss[..i + 1]) == ContentsOf(ss[..i]) + [ContentOf(ss[i])]
    ensures AllLinked(ss) ==> Linked(ss[i])
    decreases |ss|
  {
    assert ss[..i + 1][..i] == ss[..i];
    if i < |ss| - 1 {
      var init := ss[..|ss| - 1];
      PartsOf(init, i);
      assert init[i] == ss[i];
    }
  }

  /** Links `item` behind `last`, the end of the chain built so far. */
  method LinkNext(parent: Item, last: Item?, item: Item, ghost ss: seq<Shape>, ghost s: Shape)
    requires AllApart(ss + [s]) && s.node == item && parent !in NodesOf(ss + [s])
    requires Chain(parent.child, Roots(ss)) && AllLinked(ss) && Linked(s)
    requires item.next == null && item.prev == null
    requires last == if ss == [] then null else ss[|ss| - 1].node
    modifies parent`child, Roots(ss)`next, item`prev
    ensures Chain(parent.child, Roots(ss + [s])) && AllLinked(ss + [s])
  {
    ghost var all := ss + [s];
    assert all[..|all| - 1] == ss;
    RootsAreNotBelow(ss);
    RootsAreNodes(ss);
    BelowIsNodes(ss);
    ghost var rs := Roots(ss);
    assert Roots(all) == rs + [item] && all[|ss|] == s;
    assert last != null ==> rs[|ss| - 1] == last && last in NodesOf(ss) && last !in Nodes(s);
    assert parent !in Nodes(s) && parent !in NodesOf(ss) && item !in NodesOf(s.kids) && item !in NodesOf(ss);
    assert last != null ==> last !in Below(ss);
    if last != null {
      last.next, item.prev := item, last;
    } else {
      parent.child := item;
    }
    assert AllLinked(ss);
    assert Linked(s);
  }

  /** Only existing nodes can be named by a shape. */
  lemma {:induction false} NodesExist(s: Shape)
    ensures allocated(Nodes(s))
    decreases s
  {
    NodesOfExist(s.kids);
  }

  lemma {:induction false} NodesOfExist(ss: seq<Shape>)
    ensures allocated(NodesOf(ss))
    decreases ss
  {
    if ss != [] {
      NodesOfExist(ss[..|ss| - 1]);
      NodesExist(ss[|ss| - 1]);
    }
  }

  /** `cJSON_Duplicate`: the recursive copy shows the same tree and shares no node with the original. */
  method Duplicate(item: Item, recurse: bool, ghost s: Shape) returns (copy: Item, ghost c: Shape)
    requires s.node == item && Linked(s)
    ensures c.node == copy && fresh(Nodes(c)) && Apart(c) && Linked(c)
    ensures copy.next == null && copy.prev == null
    ensures ContentOf(c) == if recurse then ContentOf(s) else ContentOf(s).(kids := [])
    decreases s, 1
  {
    hide ContentOf, Linked, Apart, Copying, Roots;
    copy := CopyFields(item, s);
    if !recurse {
      c := Shape(copy, []);
      return;
    }
    var cptr, nptr := item.child, null;
    ghost var ss: seq<Shape> := [];
    ghost var left := |s.kids|;
    while cptr != null
      invariant Copying(s, copy, cptr, nptr, ss) && forall x :: x in NodesOf(ss) ==> fresh(x)
      invariant copy.next == null && copy.prev == null
      invariant ContentOf(Shape(copy, [])) == ContentOf(s).(kids := [])
      invariant left == |s.kids| - |ss|
      decreases left
    {
      RootsAreNodes(ss);
      CopyingBound(s, copy, cptr, nptr, ss);
      NodesExist(s);
      NodesExist(Shape(copy, []));
      cptr, nptr, ss := DuplicateNext(copy, cptr, nptr, s, ss);
      left := left - 1;
    }
    c := Shape(copy, ss);
    CopyDone(s, copy, nptr, ss);
  }

  /** The new item before it has children. */
  method CopyFields(item: Item, ghost s: Shape) returns (copy: Item)
    requires s.node == item && Linked(s)
    ensures fresh(copy) && copy.next == null && copy.prev == null
    ensures Copying(s, copy, item.child, null, []) && Apart(Shape(copy, [])) && Linked(Shape(copy, []))
    ensures ContentOf(Shape(copy, [])) == ContentOf(s).(kids := [])
  {
    NodesExist(s);
    copy := new Item();
    copy.kind, copy.valueint, copy.valuedouble := item.kind, item.valueint, item.valuedouble;
    copy.valuestring, copy.name := item.valuestring, item.name;
  }

  lemma CopyingBound(s: Shape, copy: Item, cptr: Item, nptr: Item?, ss: seq<Shape>)
    requires Copying(s, copy, cptr, nptr, ss)
    ensures |ss| < |s.kids| && copy !in NodesOf(ss)
  {
  }

  lemma CopyDone(s: Shape, copy: Item, nptr: Item?, ss: seq<Shape>)
    requires Copying(s, copy, null, nptr, ss) && ContentOf(Shape(copy, [])) == ContentOf(s).(kids := [])
    ensures Apart(Shape(copy, ss)) && Linked(Shape(copy, ss)) && ContentOf(Shape(copy, ss)) == ContentOf(s)
  {
    assert s.kids[..|ss|] == s.kids;
  }

  /** The first children of `s` have been copied to `ss`, which hang below `copy`. */
  ghost predicate Copying(s: Shape, copy: Item, cptr: Item?, nptr: Item?, ss: seq<Shape>)
    reads *
  {
    |ss| <= |s.kids| && cptr == (if |ss| < |s.kids| then s.kids[|ss|].node else null) &&
    nptr == (if ss == [] then null else ss[|ss| - 1].node) &&
    copy !in Nodes(s) && copy !in NodesOf(ss) && Nodes(s) !! NodesOf(ss) && AllApart(ss) &&
    Chain(copy.child, Roots(ss)) && AllLinked(ss) && Linked(s) && ContentsOf(ss) == ContentsOf(s.kids[..|ss|])
  }

  lemma {:induction false} ContentsStep(ss: seq<Shape>, ts: seq<Shape>, k: Shape)
    requires |ss| < |ts| && ContentsOf(ss) == ContentsOf(ts[..|ss|]) && ContentOf(k) == ContentOf(ts[|ss|])
    ensures ContentsOf(ss + [k]) == ContentsOf(ts[..|ss| + 1])
  {
    var all := ss + [k];
    PartsOf(ts, |ss|);
    assert all[..|all| - 1] == ss;
  }

  /** One round of the loop: copies a child, takes it into the chain and moves on. */
  method DuplicateNext(copy: Item, cptr: Item, nptr: Item?, ghost s: Shape, ghost ss: seq<Shape>)
    returns (cptr': Item?, nptr': Item, ghost ss': seq<Shape>)
    requires Copying(s, copy, cptr, nptr, ss)
    modifies copy`child, Roots(ss)`next
    ensures Copying(s, copy, cptr', nptr', ss')
    ensures |ss'| == |ss| + 1 && forall x :: x in NodesOf(ss') ==> x in NodesOf(ss) || fresh(x)
    decreases s, 0
  {
    ghost var i := |ss|;
    PartsOf(s.kids, i);
    NodesExist(s);
    NodesOfExist(ss);
    RootsAreNodes(ss);
    ghost var k;
    nptr', k := Duplicate(cptr, true, s.kids[i]);
    assert Copying(s, copy, cptr, nptr, ss);
    cptr' := cptr.next;
    AttachCopy(copy, nptr, nptr', s, ss, k);
    ss' := ss + [k];
    assert ss'[..i] == ss;
  }

  /** Takes the copy `k` of the next child of `s` into the chain. */
  method AttachCopy(copy: Item, nptr: Item?, item: Item, ghost s: Shape, ghost ss: seq<Shape>, ghost k: Shape)
    requires |ss| < |s.kids| && Copying(s, copy, s.kids[|ss|].node, nptr, ss)
    requires k.node == item && item.next == null && item.prev == null && Apart(k) && Linked(k)
    requires Nodes(k) !! Nodes(s) && Nodes(k) !! NodesOf(ss) && copy !in Nodes(k)
    requires ContentOf(k) == ContentOf(s.kids[|ss|])
    modifies copy`child, Roots(ss)`next, item`prev
    ensures Copying(s, copy, if |ss| + 1 < |s.kids| then s.kids[|ss| + 1].node else null, item, ss + [k])
  {
    hide ContentOf, ContentsOf, Linked, AllLinked, Apart, AllApart, Chain;
    NodesExist(k);
    NodesExist(s);
    NodesOfExist(ss);
    NodesOfExist(s.kids[..|ss| + 1]);
    PartsOf(s.kids, |ss|);
    RootsAreNodes(ss);
    ghost var all := ss + [k];
    NodesOfExist(all);
    OneMore(ss, k);
    PrefixNodes(s, |ss| + 1);
    ContentsStep(ss, s.kids, k);
    LinkNext(copy, nptr, item, ss, k);
    assert ContentsOf(all) == ContentsOf(s.kids[..|ss| + 1]);
  }

  lemma OneMore(ss: seq<Shape>, k: Shape)
    requires AllApart(ss) && Apart(k) && Nodes(k) !! NodesOf(ss)
    ensures AllApart(ss + [k]) && NodesOf(ss + [k]) == NodesOf(ss) + Nodes(k) && (ss + [k])[..|ss|] == ss
  {
  }

  lemma {:induction false} PrefixNodes(s: Shape, n: nat)
    requires n <= |s.kids|
    ensures NodesOf(s.kids[..n]) <= Nodes(s)
    decreases |s.kids| - n
  {
    if n < |s.kids| {
      PrefixNodes(s, n + 1);
      assert s.kids[..n + 1][..n] == s.kids[..n];
    } else {
      assert s.kids[..n] == s.kids;
    }
  }
}
