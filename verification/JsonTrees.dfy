/** Linked cJSON items and the JSON trees they stand for. */
module JsonTrees {
  import opened Bytes
  import opened JsonText
  import opened JsonItems

  /** `(int) n` */
  function Truncated(d: real): int { if d < 0.0 then -(-d).Floor else d.Floor }

  /** The tree that a heap tree's content stands for. */
  predicate Denotes(c: Content, t: Json)
    decreases t
  {
    match t
    case Null => c.kind == KNull && c.kids == []
    case False => c.kind == KFalse && c.kids == []
    case True => c.kind == KTrue && c.kids == []
    case Number(d) => c.kind == KNumber && c.valuedouble == d && c.valueint == Truncated(d) && c.kids == []
    case Str(text) => c.kind == KString && c.valuestring == Ptr(text) && c.kids == []
    case Arr(items) =>
      c.kind == KArray && |c.kids| == |items| && forall i :: 0 <= i < |items| ==> Denotes(c.kids[i], items[i])
    case Obj(ms) =>
      c.kind == KObject && |c.kids| == |ms| &&
      forall i :: 0 <= i < |ms| ==> c.kids[i].name == Ptr(ms[i].name) && Denotes(c.kids[i], ms[i].value)
  }

  /** An item stands for at most one tree. */
  lemma {:induction false} OneTree(c: Content, t: Json, u: Json)
    requires Denotes(c, t) && Denotes(c, u)
    ensures t == u
    decreases t
  {
    match t
    case Arr(items) =>
      forall i | 0 <= i < |items| ensures items[i] == u.items[i] { OneTree(c.kids[i], items[i], u.items[i]); }
    case Obj(ms) =>
      forall i | 0 <= i < |ms| ensures ms[i] == u.members[i] {
        OneTree(c.kids[i], ms[i].value, u.members[i].value);
      }
    case _ =>
  }

  lemma {:induction false} ContentsAt(ss: seq<Shape>)
    ensures |ContentsOf(ss)| == |ss| && forall i :: 0 <= i < |ss| ==> ContentsOf(ss)[i] == ContentOf(ss[i])
  {
    if ss != [] { ContentsAt(ss[..|ss| - 1]); }
  }

  /** The items behind `ss` are the first values of an array, or the first members of an object. */
  ghost predicate ItemsDenote(cs: seq<Content>, items: seq<Json>) {
    |cs| == |items| && forall i :: 0 <= i < |items| ==> Denotes(cs[i], items[i])
  }

  ghost predicate MembersDenote(cs: seq<Content>, ms: seq<Member>) {
    |cs| == |ms| && forall i :: 0 <= i < |ms| ==> cs[i].name == Ptr(ms[i].name) && Denotes(cs[i], ms[i].value)
  }

  // ----- walking a linked tree

  /** `item` is the root of a linked tree that stands for `t`. */
  ghost predicate Tree(item: Item, s: Shape, t: Json)
    reads Nodes(s)
  {
    s.node == item && Linked(s) && Denotes(ContentOf(s), t)
  }

  /** The number of an item's values or members. */
  function Size(t: Json): nat {
    match t
    case Arr(items) => |items|
    case Obj(ms) => |ms|
    case _ => 0
  }

  /** The child at position `k` of a walk along `next`, or NULL behind the last. */
  ghost function KidAt(s: Shape, k: nat): Item? { if k < |s.kids| then s.kids[k].node else null }

  lemma TreeShape(item: Item, s: Shape, t: Json)
    requires Tree(item, s, t)
    ensures |s.kids| == Size(t) && item.child == KidAt(s, 0)
    ensures item.kind == match t case Null => KNull case False => KFalse case True => KTrue case Number(_) => KNumber
                                 case Str(_) => KString case Arr(_) => KArray case Obj(_) => KObject
    ensures t.Number? ==> item.valuedouble == t.value && item.valueint == Truncated(t.value)
    ensures t.Str? ==> item.valuestring == Ptr(t.text)
  {
    ContentsAt(s.kids);
  }

  lemma ChildTree(item: Item, s: Shape, t: Json, k: nat)
    requires Tree(item, s, t) && k < Size(t)
    ensures k < |s.kids| && s.kids[k].node.next == KidAt(s, k + 1) && Nodes(s.kids[k]) <= Nodes(s)
    ensures t.Arr? ==> Tree(s.kids[k].node, s.kids[k], t.items[k])
    ensures t.Obj? ==>
      s.kids[k].node.name == Ptr(t.members[k].name) && Tree(s.kids[k].node, s.kids[k], t.members[k].value)
  {
    hide Linked, ContentOf, Nodes;
    TreeShape(item, s, t);
    KidLinked(s, k);
    KidContent(s, k);
  }

  lemma KidLinked(s: Shape, k: nat)
    requires Linked(s) && k < |s.kids|
    ensures Linked(s.kids[k]) && s.kids[k].node.next == KidAt(s, k + 1) && Nodes(s.kids[k]) <= Nodes(s)
  {
    PartsOf(s.kids, k);
    assert Roots(s.kids)[k] == s.kids[k].node;
  }

  lemma KidContent(s: Shape, k: nat)
    requires k < |s.kids|
    ensures |ContentOf(s).kids| == |s.kids| && ContentOf(s).kids[k] == ContentOf(s.kids[k])
    ensures ContentOf(s.kids[k]).name == s.kids[k].node.name
  {
    ContentsAt(s.kids);
  }

  /** `while (child) numentries++, child = child->next` */
  method CountChildren(item: Item, ghost s: Shape, ghost t: Json) returns (numentries: nat)
    requires Tree(item, s, t)
    ensures numentries == Size(t)
  {
    hide Tree;
    NodesExist(s);
    TreeShape(item, s, t);
    var child := item.child;
    numentries := 0;
    while child != null
      invariant Tree(item, s, t) && numentries <= Size(t) && child == KidAt(s, numentries)
      decreases Size(t) - numentries
    {
      ChildTree(item, s, t, numentries);
      numentries, child := numentries + 1, child.next;
    }
  }
}
