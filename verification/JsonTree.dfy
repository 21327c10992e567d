/** The linked tree of application/http_client/cJSON.c: nodes with next, prev and
    child pointers, the list operations on them, and cJSON_Duplicate. */
module JsonTree {
  import opened JsonText
  import opened Wrappers

  datatype Kind = KFalse | KTrue | KNull | KNumber | KString | KArray | KObject

  class Node {
    var next: Node?
    var prev: Node?
    var child: Node?
    var kind: Kind
    var isReference: bool
    var mantissa: int
    var exponent: int
    var valuestring: Option<Text>
    var name: Option<Text>

    /** cJSON_New_Item: all fields zero. */
    constructor ()
      ensures next == null && prev == null && child == null && kind == KFalse && !isReference
      ensures mantissa == 0 && exponent == 0 && valuestring == None && name == None
    {
      next, prev, child, kind, isReference := null, null, null, KFalse, false;
      mantissa, exponent, valuestring, name := 0, 0, None, None;
    }
  }

  /** The nodes of a tree: its root, its children in order, and a set that holds
      the root and everything below it. */
  datatype Shape = Shape(node: Node, kids: seq<Shape>, repr: set<Node>)

  ghost function NodeAt(kids: seq<Shape>, i: int): Node? {
    if 0 <= i < |kids| then kids[i].node else null
  }

  /** The subtrees share no node. */
  ghost predicate Apart(kids: seq<Shape>) {
    forall i, j :: 0 <= i < j < |kids| ==> kids[i].repr !! kids[j].repr
  }

  /** The doubly linked chain of children, inside `r`: first element, both
      neighbours, null at both ends. */
  ghost predicate Linked(first: Node?, kids: seq<Shape>, r: set<Node>)
    reads r
  {
    && first == NodeAt(kids, 0)
    && (forall i {:trigger kids[i]} :: 0 <= i < |kids| ==>
          && kids[i].node in kids[i].repr && kids[i].repr <= r
          && kids[i].node.next == NodeAt(kids, i + 1) && kids[i].node.prev == NodeAt(kids, i - 1))
  }

  function Dereference(p: Option<Text>): Text {
    if p.Some? then p.value else []
  }

  /** The shape is a well-linked tree without sharing, standing for `v`. */
  ghost predicate Tree(sh: Shape, v: Json)
    reads sh.node`child, sh.node`kind, sh.node`mantissa, sh.node`exponent, sh.node`valuestring
    reads sh.repr - {sh.node}
    decreases sh
  {
    && sh.node in sh.repr && Apart(sh.kids) && Linked(sh.node.child, sh.kids, sh.repr - {sh.node})
    && match sh.node.kind {
         case KFalse => v == Bool(false) && sh.kids == []
         case KTrue => v == Bool(true) && sh.kids == []
         case KNull => v == Null && sh.kids == []
         case KNumber => v == Num(sh.node.mantissa, sh.node.exponent) && sh.kids == []
         case KString => v == Str(Dereference(sh.node.valuestring)) && sh.kids == []
         case KArray =>
           v.Arr? && |v.items| == |sh.kids| && (forall i :: 0 <= i < |sh.kids| ==> Tree(sh.kids[i], v.items[i]))
         case KObject =>
           && v.Obj? && |v.members| == |sh.kids|
           && (forall i :: 0 <= i < |sh.kids| ==>
                 Dereference(sh.kids[i].node.name) == v.members[i].name && Tree(sh.kids[i], v.members[i].value))
       }
  }

  /** A tree stands for one value. */
  lemma TreeUnique(sh: Shape, v: Json, w: Json)
    requires Tree(sh, v) && Tree(sh, w)
    ensures v == w
    decreases sh
  {
    if sh.node.kind == KArray {
      forall i | 0 <= i < |sh.kids| ensures v.items[i] == w.items[i] {
        TreeUnique(sh.kids[i], v.items[i], w.items[i]);
      }
      assert v.items == w.items;
    } else if sh.node.kind == KObject {
      forall i | 0 <= i < |sh.kids| ensures v.members[i] == w.members[i] {
        TreeUnique(sh.kids[i], v.members[i].value, w.members[i].value);
      }
      assert v.members == w.members;
    }
  }

  /** A child with its name and value. */
  ghost predicate Entry(k: Shape, m: Member)
    reads k.node`name, k.node`child, k.node`kind, k.node`mantissa, k.node`exponent, k.node`valuestring
    reads k.repr - {k.node}
  {
    Dereference(k.node.name) == m.name && Tree(k, m.value)
  }

  /** `list` heads a chain, inside `r`, of children with these names and values. */
  ghost predicate IsList(list: Node, kids: seq<Shape>, ms: seq<Member>, r: set<Node>)
    reads list`child, r
  {
    && list !in r && Apart(kids) && |kids| == |ms|
    && Linked(list.child, kids, r)
    && (forall i {:trigger kids[i]} :: 0 <= i < |kids| ==> Entry(kids[i], ms[i]))
  }

  function ValuesOf(ms: seq<Member>): (vs: seq<Json>)
    ensures |vs| == |ms| && forall i :: 0 <= i < |ms| ==> vs[i] == ms[i].value
  {
    seq(|ms|, i requires 0 <= i < |ms| => ms[i].value)
  }

  /** Lists are exactly the array and object trees. */
  lemma ListIsTree(list: Node, kids: seq<Shape>, ms: seq<Member>, r: set<Node>)
    requires IsList(list, kids, ms, r)
    ensures list.kind == KObject ==> Tree(Shape(list, kids, r + {list}), Obj(ms))
    ensures list.kind == KArray ==> Tree(Shape(list, kids, r + {list}), Arr(ValuesOf(ms)))
  {
    assert (r + {list}) - {list} == r;
  }

  lemma TreeIsList(sh: Shape, v: Json) returns (ms: seq<Member>)
    requires Tree(sh, v) && (v.Arr? || v.Obj?)
    ensures IsList(sh.node, sh.kids, ms, sh.repr - {sh.node})
    ensures v.Obj? ==> v == Obj(ms)
    ensures v.Arr? ==> v == Arr(ValuesOf(ms))
  {
    if v.Obj? {
      ms := v.members;
    } else {
      ms := NameItems(sh.kids, v.items, sh.repr - {sh.node});
      assert ValuesOf(ms) == v.items;
    }
  }

  /** Array items with whatever names their nodes carry. */
  ghost function NameItems(kids: seq<Shape>, vs: seq<Json>, r: set<Node>): (ms: seq<Member>)
    requires |kids| == |vs| && forall i :: 0 <= i < |kids| ==> kids[i].node in r
    reads r
    ensures |ms| == |vs|
    ensures forall i :: 0 <= i < |vs| ==> ms[i] == Member(Dereference(kids[i].node.name), vs[i])
  {
    if kids == [] then []
    else [Member(Dereference(kids[0].node.name), vs[0])] + NameItems(kids[1..], vs[1..], r)
  }

  // ----- Walking the child list -----

  /** cJSON_GetArraySize. */
  method GetArraySize(list: Node, ghost kids: seq<Shape>, ghost ms: seq<Member>, ghost r: set<Node>) returns (size: nat)
    requires IsList(list, kids, ms, r)
    ensures size == |kids|
  {
    hide Entry;
    var c := list.child;
    size := 0;
    while c != null
      invariant size <= |kids| && c == NodeAt(kids, size)
      decreases |kids| - size
    {
      assert c == kids[size].node;
      c, size := c.next, size + 1;
    }
  }

  /** The position a possibly negative index stands for. */
  function Position(which: int): nat {
    if which < 0 then 0 else which
  }

  /** cJSON_GetArrayItem; also the walk at the start of Detach and Replace. */
  method GetArrayItem(list: Node, item: int, ghost kids: seq<Shape>, ghost ms: seq<Member>, ghost r: set<Node>)
    returns (c: Node?)
    requires IsList(list, kids, ms, r)
    ensures c == NodeAt(kids, Position(item))
  {
    hide Entry;
    c := list.child;
    var which := item;
    ghost var i := 0;
    while c != null && which > 0
      invariant 0 <= i <= |kids| && c == NodeAt(kids, i)
      invariant i + Position(which) == Position(item)
      decreases |kids| - i
    {
      assert c == kids[i].node;
      c, which, i := c.next, which - 1, i + 1;
    }
  }

  // ----- cJSON_AddItemToArray -----

  /** while (c && c->next) c = c->next; */
  method LastChild(list: Node, ghost kids: seq<Shape>, ghost ms: seq<Member>, ghost r: set<Node>) returns (c: Node?)
    requires IsList(list, kids, ms, r)
    ensures c == NodeAt(kids, |kids| - 1)
  {
    hide Entry;
    c := list.child;
    ghost var i := 0;
    while c != null && c.next != null
      invariant 0 <= i <= |kids| && c == NodeAt(kids, i) && (kids == [] || i < |kids|)
      decreases |kids| - i
    {
      assert c == kids[i].node;
      c, i := c.next, i + 1;
    }
    assert c != null ==> c == kids[i].node;
  }

  /** Distinct children have distinct nodes, and no child node lies inside
      another child's subtree. */
  lemma ChildrenApart(list: Node, kids: seq<Shape>, ms: seq<Member>, r: set<Node>)
    requires IsList(list, kids, ms, r)
    ensures forall i, j :: 0 <= i < |kids| && 0 <= j < |kids| && i != j ==>
              kids[i].node != kids[j].node && kids[i].node !in kids[j].repr
    ensures forall i :: 0 <= i < |kids| ==> kids[i].node in r && kids[i].node != list
  {
  }

  /** Each child points to its neighbours. */
  lemma ChildLinks(list: Node, kids: seq<Shape>, ms: seq<Member>, r: set<Node>)
    requires IsList(list, kids, ms, r)
    ensures list.child == NodeAt(kids, 0)
    ensures forall i {:trigger kids[i]} :: 0 <= i < |kids| ==>
              kids[i].node.next == NodeAt(kids, i + 1) && kids[i].node.prev == NodeAt(kids, i - 1)
  {
  }

  /** suffix_object(prev, item). */
  method Suffix(list: Node, c: Node, item: Node, ghost kids: seq<Shape>, ghost ms: seq<Member>, ghost r: set<Node>,
                ghost it: Shape)
    requires kids != [] && IsList(list, kids, ms, r) && c == kids[|kids| - 1].node
    requires it.node == item && item in it.repr && list !in it.repr && r !! it.repr && item.next == null
    modifies c`next, item`prev
    ensures Linked(list.child, kids + [it], r + it.repr)
  {
    hide Tree, Entry;
    ChildrenApart(list, kids, ms, r);
    c.next := item;
    item.prev := c;
    ghost var all := kids + [it];
    forall j | 0 <= j < |all|
      ensures all[j].node.next == NodeAt(all, j + 1) && all[j].node.prev == NodeAt(all, j - 1)
    {
      if j < |kids| {
        assert all[j] == kids[j];
        assert old(kids[j].node.next) == NodeAt(kids, j + 1) && old(kids[j].node.prev) == NodeAt(kids, j - 1);
      }
    }
  }

  /** Hang `item` behind the last child `c`, or make it the first child. */
  method Attach(list: Node, c: Node?, item: Node, ghost kids: seq<Shape>, ghost ms: seq<Member>, ghost r: set<Node>,
                ghost it: Shape, ghost m: Member)
    requires IsList(list, kids, ms, r) && c == NodeAt(kids, |kids| - 1)
    requires Entry(it, m) && it.node == item && item in it.repr && list !in it.repr && r !! it.repr
    requires item.next == null && item.prev == null
    modifies list`child, item`prev, (set i | 0 <= i < |kids| :: kids[i].node)`next
    ensures IsList(list, kids + [it], ms + [m], r + it.repr)
  {
    hide Tree, Linked;
    ChildrenApart(list, kids, ms, r);
    ChildReprs(list, kids, ms, r);
    AppendApart(list, kids, ms, r, it);
    if c == null {
      list.child := item;
      FirstLink(item, kids, it, r + it.repr);
    } else {
      Suffix(list, c, item, kids, ms, r, it);
    }
    forall j | 0 <= j < |kids|
      ensures Entry(kids[j], ms[j])
    {
      assert old(Entry(kids[j], ms[j]));
    }
    assert Entry(it, m);
  }

  lemma AppendApart(list: Node, kids: seq<Shape>, ms: seq<Member>, r: set<Node>, it: Shape)
    requires IsList(list, kids, ms, r) && r !! it.repr
    ensures Apart(kids + [it])
  {
    hide Entry;
  }

  lemma FirstLink(item: Node, kids: seq<Shape>, it: Shape, r: set<Node>)
    requires kids == [] && it.node == item && item in it.repr && it.repr <= r && item.next == null && item.prev == null
    ensures Linked(item, kids + [it], r)
  {
    assert kids + [it] == [it];
  }

  /** The new item becomes the last child. */
  method AddItemToArray(list: Node, item: Node, ghost kids: seq<Shape>, ghost ms: seq<Member>, ghost r: set<Node>,
                        ghost it: Shape, ghost m: Member)
    requires IsList(list, kids, ms, r)
    requires Entry(it, m) && it.node == item && item in it.repr && list !in it.repr && r !! it.repr
    requires item.next == null && item.prev == null
    modifies list`child, item`prev, (set i | 0 <= i < |kids| :: kids[i].node)`next
    ensures IsList(list, kids + [it], ms + [m], r + it.repr)
  {
    var c := LastChild(list, kids, ms, r);
    Attach(list, c, item, kids, ms, r, it, m);
  }

  // ----- cJSON_DetachItemFromArray -----

  function RemoveAt<T>(s: seq<T>, i: nat): (r: seq<T>)
    requires i < |s|
    ensures |r| == |s| - 1 && forall j :: 0 <= j < |r| ==> r[j] == s[if j < i then j else j + 1]
  {
    s[..i] + s[i + 1..]
  }

  /** The neighbours of position `i`, as sets for frames. */
  ghost function Before(kids: seq<Shape>, i: nat): set<Node> {
    if 0 < i <= |kids| then {kids[i - 1].node} else {}
  }

  ghost function Behind(kids: seq<Shape>, i: nat): set<Node> {
    if i + 1 < |kids| then {kids[i + 1].node} else {}
  }

  /** The pointers of a chain in which `before` follows position i-1 and `behind`
      precedes position i+1; elsewhere the neighbours are as in `kids`. */
  ghost predicate Patched(first: Node?, kids: seq<Shape>, i: nat, next: Node?, prev: Node?, head: Node?, r: set<Node>)
    requires forall j :: 0 <= j < |kids| ==> kids[j].node in r
    reads r
  {
    && first == (if i == 0 then head else NodeAt(kids, 0))
    && (forall j {:trigger kids[j]} :: 0 <= j < |kids| && j != i ==>
          && kids[j].node.next == (if j == i - 1 then next else NodeAt(kids, j + 1))
          && kids[j].node.prev == (if j == i + 1 then prev else NodeAt(kids, j - 1)))
  }

  /** Unlink the child at position `i`. */
  method Unlink(list: Node, c: Node, ghost i: nat, ghost kids: seq<Shape>, ghost ms: seq<Member>, ghost r: set<Node>)
    requires IsList(list, kids, ms, r) && i < |kids| && c == kids[i].node
    modifies list`child, c`next, c`prev, Before(kids, i)`next, Behind(kids, i)`prev
    ensures forall j :: 0 <= j < |kids| ==> kids[j].node in r
    ensures Patched(list.child, kids, i, NodeAt(kids, i + 1), NodeAt(kids, i - 1), NodeAt(kids, i + 1), r)
    ensures c.next == null && c.prev == null
  {
    hide IsList;
    ChildrenApart(list, kids, ms, r);
    ChildLinks(list, kids, ms, r);
    if c.prev != null { c.prev.next := c.next; }
    if c.next != null { c.next.prev := c.prev; }
    if c == list.child { list.child := c.next; }
    c.prev, c.next := null, null;
    forall j | 0 <= j < |kids| && j != i
      ensures kids[j].node.next == (if j == i - 1 then NodeAt(kids, i + 1) else NodeAt(kids, j + 1))
      ensures kids[j].node.prev == (if j == i + 1 then NodeAt(kids, i - 1) else NodeAt(kids, j - 1))
    {
      assert old(kids[j].node.next) == NodeAt(kids, j + 1);
      assert old(kids[j].node.prev) == NodeAt(kids, j - 1);
    }
  }

  lemma RemovedChain(first: Node?, kids: seq<Shape>, i: nat, r: set<Node>)
    requires i < |kids| && Apart(kids)
    requires forall j :: 0 <= j < |kids| ==> kids[j].node in kids[j].repr && kids[j].repr <= r
    requires Patched(first, kids, i, NodeAt(kids, i + 1), NodeAt(kids, i - 1), NodeAt(kids, i + 1), r)
    ensures Linked(first, RemoveAt(kids, i), r - kids[i].repr)
  {
    var left := RemoveAt(kids, i);
    forall j | 0 <= j < |left|
      ensures left[j].node in left[j].repr && left[j].repr <= r - kids[i].repr
      ensures left[j].node.next == NodeAt(left, j + 1) && left[j].node.prev == NodeAt(left, j - 1)
    {
      var k := if j < i then j else j + 1;
      assert left[j] == kids[k];
      OtherRepr(kids, i, k, r);
    }
    hide Apart, Patched;
  }

  lemma RemovedApart(kids: seq<Shape>, i: nat)
    requires i < |kids| && Apart(kids)
    ensures Apart(RemoveAt(kids, i))
  {
  }

  /** The child at the position is removed; the others keep their order. */
  method DetachItemFromArray(list: Node, which: int, ghost kids: seq<Shape>, ghost ms: seq<Member>, ghost r: set<Node>)
    returns (c: Node?)
    requires IsList(list, kids, ms, r)
    modifies list`child, (set j | 0 <= j < |kids| :: kids[j].node)`next, (set j | 0 <= j < |kids| :: kids[j].node)`prev
    ensures c == NodeAt(kids, Position(which))
    ensures c == null ==> IsList(list, kids, ms, r)
    ensures c != null ==>
              var i := Position(which);
              && IsList(list, RemoveAt(kids, i), RemoveAt(ms, i), r - kids[i].repr)
              && Entry(kids[i], ms[i]) && c.next == null && c.prev == null
  {
    hide Tree, Linked, Patched;
    c := GetArrayItem(list, which, kids, ms, r);
    if c == null { return; }
    ghost var i := Position(which);
    ChildrenApart(list, kids, ms, r);
    ChildReprs(list, kids, ms, r);
    Unlink(list, c, i, kids, ms, r);
    RemovedChain(list.child, kids, i, r);
    RemovedApart(kids, i);
    forall j | 0 <= j < |kids|
      ensures Entry(kids[j], ms[j])
    {
      assert old(Entry(kids[j], ms[j]));
    }
  }

  lemma ChildReprs(list: Node, kids: seq<Shape>, ms: seq<Member>, r: set<Node>)
    requires IsList(list, kids, ms, r)
    ensures forall j :: 0 <= j < |kids| ==> kids[j].node in kids[j].repr && kids[j].repr <= r
  {
  }

  // ----- cJSON_ReplaceItemInArray -----

  /** Put `newitem` in the place of the child at position `i`. */
  method Exchange(list: Node, c: Node, newitem: Node, ghost i: nat, ghost kids: seq<Shape>, ghost ms: seq<Member>,
                  ghost r: set<Node>)
    requires IsList(list, kids, ms, r) && i < |kids| && c == kids[i].node
    requires newitem !in r && newitem != list
    modifies list`child, c`next, c`prev, Before(kids, i)`next, Behind(kids, i)`prev, newitem`next, newitem`prev
    ensures forall j :: 0 <= j < |kids| ==> kids[j].node in r
    ensures Patched(list.child, kids, i, newitem, newitem, newitem, r)
    ensures newitem.next == NodeAt(kids, i + 1) && newitem.prev == NodeAt(kids, i - 1)
    ensures c.next == null && c.prev == null
  {
    hide IsList;
    ChildrenApart(list, kids, ms, r);
    ChildLinks(list, kids, ms, r);
    newitem.next := c.next;
    newitem.prev := c.prev;
    if newitem.next != null { newitem.next.prev := newitem; }
    if c == list.child { list.child := newitem; } else { newitem.prev.next := newitem; }
    c.next, c.prev := null, null;
    forall j | 0 <= j < |kids| && j != i
      ensures kids[j].node.next == (if j == i - 1 then newitem else NodeAt(kids, j + 1))
      ensures kids[j].node.prev == (if j == i + 1 then newitem else NodeAt(kids, j - 1))
    {
      assert old(kids[j].node.next) == NodeAt(kids, j + 1);
      assert old(kids[j].node.prev) == NodeAt(kids, j - 1);
    }
  }

  lemma ReplacedChain(first: Node?, kids: seq<Shape>, i: nat, r: set<Node>, it: Shape)
    requires i < |kids| && Apart(kids) && it.node in it.repr && r !! it.repr
    requires forall j :: 0 <= j < |kids| ==> kids[j].node in kids[j].repr && kids[j].repr <= r
    requires Patched(first, kids, i, it.node, it.node, it.node, r)
    requires it.node.next == NodeAt(kids, i + 1) && it.node.prev == NodeAt(kids, i - 1)
    ensures Linked(first, kids[i := it], r - kids[i].repr + it.repr)
  {
    var all := kids[i := it];
    forall j | 0 <= j < |all|
      ensures all[j].node in all[j].repr && all[j].repr <= r - kids[i].repr + it.repr
      ensures all[j].node.next == NodeAt(all, j + 1) && all[j].node.prev == NodeAt(all, j - 1)
    {
      if j != i {
        assert all[j] == kids[j];
        OtherRepr(kids, i, j, r);
      }
    }
    hide Apart, Patched;
  }

  lemma OtherRepr(kids: seq<Shape>, i: nat, j: nat, r: set<Node>)
    requires i < |kids| && j < |kids| && i != j && Apart(kids) && kids[j].repr <= r
    ensures kids[j].repr <= r - kids[i].repr
  {
    assert if i < j then kids[i].repr !! kids[j].repr else kids[j].repr !! kids[i].repr;
  }

  lemma ReplacedApart(kids: seq<Shape>, i: nat, r: set<Node>, it: Shape)
    requires i < |kids| && Apart(kids) && r !! it.repr && forall j :: 0 <= j < |kids| ==> kids[j].repr <= r
    ensures Apart(kids[i := it])
  {
  }

  /** The child at the position is replaced; an index past the end changes
      nothing. */
  method ReplaceItemInArray(list: Node, which: int, newitem: Node, ghost kids: seq<Shape>, ghost ms: seq<Member>,
                            ghost r: set<Node>, ghost it: Shape, ghost m: Member)
    requires IsList(list, kids, ms, r) && Entry(it, m) && it.node == newitem && newitem in it.repr
    requires list !in it.repr && r !! it.repr
    modifies list`child, newitem`next, newitem`prev
    modifies (set j | 0 <= j < |kids| :: kids[j].node)`next, (set j | 0 <= j < |kids| :: kids[j].node)`prev
    ensures var i := Position(which);
            if i < |kids| then IsList(list, kids[i := it], ms[i := m], r - kids[i].repr + it.repr)
            else IsList(list, kids, ms, r)
  {
    hide Tree, Linked, Patched;
    var c := GetArrayItem(list, which, kids, ms, r);
    if c == null { return; }
    ghost var i := Position(which);
    ChildrenApart(list, kids, ms, r);
    ChildReprs(list, kids, ms, r);
    Exchange(list, c, newitem, i, kids, ms, r);
    ReplacedChain(list.child, kids, i, r, it);
    ReplacedApart(kids, i, r, it);
    forall j | 0 <= j < |kids|
      ensures Entry(kids[j], ms[j])
    {
      assert old(Entry(kids[j], ms[j]));
    }
    assert Entry(it, m);
  }

  // ----- cJSON_Duplicate -----

  /** A value without its children. */
  function Shallow(v: Json): Json {
    match v
    case Arr(_) => Arr([])
    case Obj(_) => Obj([])
    case _ => v
  }

  /** A fresh node with the scalar fields of `item`. */
  method CopyFields(item: Node, ghost sh: Shape, ghost v: Json) returns (copy: Node)
    requires Tree(sh, v) && sh.node == item
    ensures fresh(copy) && copy.next == null && copy.prev == null && copy.child == null
    ensures !copy.isReference && SameHead(copy, item)
    ensures Tree(Shape(copy, [], {copy}), Shallow(v)) && IsList(copy, [], [], {})
  {
    copy := new Node();
    copy.kind, copy.mantissa, copy.exponent := item.kind, item.mantissa, item.exponent;
    copy.valuestring, copy.name := item.valuestring, item.name;
  }

  /** The copy is fresh, shares nothing with the original and, when recursive,
      stands for the same value. */
  method Duplicate(item: Node, recurse: bool, ghost sh: Shape, ghost v: Json) returns (copy: Node, ghost sh': Shape)
    requires Tree(sh, v) && sh.node == item
    ensures fresh(sh'.repr) && sh'.node == copy && copy in sh'.repr
    ensures copy.next == null && copy.prev == null && !copy.isReference && copy.name == item.name
    ensures Tree(sh', if recurse then v else Shallow(v))
    decreases sh, 1
  {
    hide Tree, IsList;
    copy := CopyFields(item, sh, v);
    sh' := Shape(copy, [], {copy});
    if !recurse { return; }
    ghost var ms := KidsList(sh, v);
    ghost var kids', r := CopyChildren(item, copy, sh, ms);
    sh' := Shape(copy, kids', r + {copy});
    CopiedTree(sh, v, ms, copy, kids', r);
  }

  /** The loop over the ->next chain. */
  method CopyChildren(item: Node, copy: Node, ghost sh: Shape, ghost ms: seq<Member>)
    returns (ghost kids': seq<Shape>, ghost r: set<Node>)
    requires sh.node == item && IsList(item, sh.kids, ms, sh.repr - {item})
    requires copy !in sh.repr && copy != item && IsList(copy, [], [], {})
    modifies copy`child
    ensures IsList(copy, kids', ms, r) && fresh(r)
    decreases sh, 0
  {
    hide Tree, IsList, Entry;
    kids', r := [], {};
    ghost var i := 0;
    var cptr, nptr: Node? := item.child, null;
    FirstKid(item, sh.kids, ms, sh.repr - {item});
    while cptr != null
      invariant 0 <= i <= |sh.kids| == |ms| && cptr == NodeAt(sh.kids, i)
      invariant IsList(item, sh.kids, ms, sh.repr - {item})
      invariant |kids'| == i && IsList(copy, kids', ms[..i], r) && nptr == NodeAt(kids', i - 1)
      invariant fresh(r)
      decreases |sh.kids| - i
    {
      NextKid(item, sh.kids, ms, sh.repr - {item}, i);
      var newchild, k := Duplicate(cptr, true, sh.kids[i], ms[i].value);
      EntryOf(k, ms[i]);
      ChildrenApart(copy, kids', ms[..i], r);
      Attach(copy, nptr, newchild, kids', ms[..i], r, k, ms[i]);
      assert ms[..i] + [ms[i]] == ms[..i + 1];
      kids', r := kids' + [k], r + k.repr;
      nptr, cptr, i := newchild, cptr.next, i + 1;
    }
    assert ms[..i] == ms;
  }

  /** Same kind and scalar fields. */
  ghost predicate SameHead(a: Node, b: Node)
    reads a, b
  {
    && a.kind == b.kind && a.mantissa == b.mantissa && a.exponent == b.exponent
    && a.valuestring == b.valuestring && a.name == b.name
  }

  lemma KidsList(sh: Shape, v: Json) returns (ms: seq<Member>)
    requires Tree(sh, v)
    ensures IsList(sh.node, sh.kids, ms, sh.repr - {sh.node})
    ensures v.Obj? ==> v == Obj(ms)
    ensures v.Arr? ==> v == Arr(ValuesOf(ms))
  {
    if v.Obj? || v.Arr? { ms := TreeIsList(sh, v); } else { ms := []; }
  }

  lemma FirstKid(list: Node, kids: seq<Shape>, ms: seq<Member>, r: set<Node>)
    requires IsList(list, kids, ms, r)
    ensures list.child == NodeAt(kids, 0) && |kids| == |ms|
  {
  }

  lemma NextKid(list: Node, kids: seq<Shape>, ms: seq<Member>, r: set<Node>, i: nat)
    requires IsList(list, kids, ms, r) && i < |kids|
    ensures kids[i].node.next == NodeAt(kids, i + 1)
    ensures Dereference(kids[i].node.name) == ms[i].name && Tree(kids[i], ms[i].value)
  {
    assert Entry(kids[i], ms[i]);
  }

  lemma EntryOf(k: Shape, m: Member)
    requires Dereference(k.node.name) == m.name && Tree(k, m.value)
    ensures Entry(k, m)
  {
  }

  lemma CopiedTree(sh: Shape, v: Json, ms: seq<Member>, copy: Node, kids: seq<Shape>, r: set<Node>)
    requires Tree(sh, v) && SameHead(copy, sh.node)
    requires IsList(sh.node, sh.kids, ms, sh.repr - {sh.node}) && IsList(copy, kids, ms, r)
    requires (v.Obj? ==> v == Obj(ms)) && (v.Arr? ==> v == Arr(ValuesOf(ms)))
    ensures Tree(Shape(copy, kids, r + {copy}), v)
  {
    ListIsTree(copy, kids, ms, r);
    if !v.Arr? && !v.Obj? {
      assert kids == [] && (r + {copy}) - {copy} == r;
    }
  }
}
