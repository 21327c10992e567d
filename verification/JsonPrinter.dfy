/** print_value, print_array and print_object of application/http_client/cJSON.c
    over the linked tree, and the way back through the parser. */
module JsonPrinter {
  import opened Bytes
  import opened JsonText
  import opened JsonPrint
  import opened JsonStrings
  import opened JsonBuffers
  import opened JsonTree
  import opened JsonParser
  import opened Wrappers

  /** Every string node has a string, and every member of an object a name. */
  ghost predicate Written(sh: Shape)
    reads sh.repr
    decreases sh
  {
    && sh.node in sh.repr && (sh.node.kind == KString ==> sh.node.valuestring.Some?)
    && (forall i :: 0 <= i < |sh.kids| ==>
          && sh.kids[i].repr <= sh.repr && Written(sh.kids[i])
          && (sh.node.kind == KObject ==> sh.kids[i].node.name.Some?))
  }

  /** A tree of the int path, all of whose strings are there. */
  ghost predicate Ready(item: Node, sh: Shape, v: Json)
    reads sh.repr, sh.node
  {
    sh.node == item && Tree(sh, v) && Written(sh) && Printable(v)
  }

  /** Every tree prints into a fresh, sufficient buffer; `n` is the strlen of the
      result. */
  method PrintValue(item: Node, depth: nat, fmt: bool, ghost sh: Shape, ghost v: Json) returns (out: array<Byte>, n: nat)
    requires Ready(item, sh, v)
    ensures fresh(out) && CString(out, Print(v, depth, fmt)) && n == |Print(v, depth, fmt)|
    decreases sh, 2
  {
    match item.kind
    case KNull => out := Strdup(NULL_TEXT); n := 4;
    case KFalse => out := Strdup(FALSE_TEXT); n := 5;
    case KTrue => out := Strdup(TRUE_TEXT); n := 4;
    case KNumber => out := PrintNumber(item.mantissa); n := |PrintInt(item.mantissa)|;
    case KString => out, n := PrintStringPtr(item.valuestring.value);
    case KArray => out, n := PrintArray(item, depth, fmt, sh, v);
    case KObject => out, n := PrintObject(item, depth, fmt, sh, v);
  }

  // ----- Arrays -----

  method PrintArray(item: Node, depth: nat, fmt: bool, ghost sh: Shape, ghost v: Json) returns (out: array<Byte>, n: nat)
    requires Ready(item, sh, v) && item.kind == KArray
    ensures fresh(out) && CString(out, Print(v, depth, fmt)) && n == |Print(v, depth, fmt)|
    ensures out.Length == if v.items == [] then 3 else n + |v.items| + (if fmt then 5 else 4)
    decreases sh, 1
  {
    ghost var ms := KidsList(sh, v);
    var count := GetArraySize(item, sh.kids, ms, sh.repr - {item});
    if count == 0 {
      out := Strdup([LBRACKET, RBRACKET]);
      return out, 2;
    }
    var entries, len := PrintItemsPass(item, depth + 1, fmt, sh, v, ms);
    ItemsLengthCovers(v.items, depth + 1, fmt);
    out := new Byte[len];
    n := ComposeArray(out, v.items, entries, depth + 1, fmt);
  }

  /** First pass: print the children and add up the length. */
  method PrintItemsPass(item: Node, depth: nat, fmt: bool, ghost sh: Shape, ghost v: Json, ghost ms: seq<Member>)
    returns (entries: seq<seq<Byte>>, len: nat)
    requires Ready(item, sh, v) && v.Arr? && IsList(item, sh.kids, ms, sh.repr - {item}) && v == Arr(ValuesOf(ms))
    ensures |entries| == |v.items| && forall i :: 0 <= i < |v.items| ==> entries[i] == Print(v.items[i], depth, fmt)
    ensures len == 5 + ItemsLength(v.items, depth, fmt)
    decreases sh, 0
  {
    hide Print, PrintItems, ItemsLength, IsList, Tree;
    ghost var i := 0;
    FirstKid(item, sh.kids, ms, sh.repr - {item});
    var c := item.child;
    entries, len := [], 5;
    assert v.items[0..] == v.items;
    while c != null
      invariant 0 <= i <= |sh.kids| && c == NodeAt(sh.kids, i) && |entries| == i
      invariant forall j :: 0 <= j < i ==> entries[j] == Print(v.items[j], depth, fmt)
      invariant len + ItemsLength(v.items[i..], depth, fmt) == 5 + ItemsLength(v.items, depth, fmt)
      decreases |sh.kids| - i
    {
      NextKid(item, sh.kids, ms, sh.repr - {item}, i);
      ItemsNext(v.items, i, depth, fmt);
      ghost var kid := sh.kids[i];
      var ret, n := PrintValue(c, depth, fmt, kid, v.items[i]);
      assert ret[..n] == Print(v.items[i], depth, fmt);
      entries := entries + [ret[..n]];
      len := len + n + 2 + (if fmt then 1 else 0);
      c, i := c.next, i + 1;
    }
    ItemsLengthEnd(depth, fmt);
    assert v.items[i..] == [];
  }

  // ----- Objects -----

  method PrintObject(item: Node, depth: nat, fmt: bool, ghost sh: Shape, ghost v: Json) returns (out: array<Byte>, n: nat)
    requires Ready(item, sh, v) && item.kind == KObject
    ensures fresh(out) && CString(out, Print(v, depth, fmt)) && n == |Print(v, depth, fmt)|
    ensures out.Length == if v.members != [] then n + 6 else if fmt then depth + 4 else 3
    decreases sh, 1
  {
    ghost var ms := KidsList(sh, v);
    var count := GetArraySize(item, sh.kids, ms, sh.repr - {item});
    if count == 0 {
      out, n := PrintEmptyObject(depth, fmt);
      return;
    }
    var names, entries, len := PrintMembersPass(item, depth + 1, fmt, sh, v, ms);
    MembersLengthCovers(v.members, depth + 1, fmt);
    out := new Byte[len];
    n := ComposeObject(out, v.members, names, entries, depth + 1, fmt);
  }

  /** First pass of print_object. */
  method PrintMembersPass(item: Node, depth: nat, fmt: bool, ghost sh: Shape, ghost v: Json, ghost ms: seq<Member>)
    returns (names: seq<seq<Byte>>, entries: seq<seq<Byte>>, len: nat)
    requires Ready(item, sh, v) && v.Obj? && IsList(item, sh.kids, ms, sh.repr - {item}) && v == Obj(ms) && item.kind == KObject
    ensures |names| == |entries| == |v.members|
    ensures forall i :: 0 <= i < |v.members| ==> names[i] == PrintString(v.members[i].name)
    ensures forall i :: 0 <= i < |v.members| ==> entries[i] == Print(v.members[i].value, depth, fmt)
    ensures len == 7 + (if fmt then depth else 0) + MembersLength(v.members, depth, fmt)
    decreases sh, 0
  {
    hide Print, PrintMembers, MembersLength, PrintString, IsList, Tree;
    ghost var i := 0;
    FirstKid(item, sh.kids, ms, sh.repr - {item});
    var c := item.child;
    names, entries, len := [], [], 7 + (if fmt then depth else 0);
    assert ms[0..] == ms;
    while c != null
      invariant 0 <= i <= |sh.kids| && c == NodeAt(sh.kids, i) && |names| == |entries| == i
      invariant forall j :: 0 <= j < i ==> names[j] == PrintString(ms[j].name)
      invariant forall j :: 0 <= j < i ==> entries[j] == Print(ms[j].value, depth, fmt)
      invariant len + MembersLength(ms[i..], depth, fmt) == 7 + (if fmt then depth else 0) + MembersLength(ms, depth, fmt)
      decreases |sh.kids| - i
    {
      NextKid(item, sh.kids, ms, sh.repr - {item}, i);
      MembersNext(ms, i, depth, fmt);
      ghost var kid := sh.kids[i];
      var str, k := PrintStringPtr(c.name.value);
      var ret, n := PrintValue(c, depth, fmt, kid, ms[i].value);
      assert ret[..n] == Print(ms[i].value, depth, fmt);
      names, entries := names + [str[..k]], entries + [ret[..n]];
      len := len + n + k + 2 + (if fmt then 2 + depth else 0);
      c, i := c.next, i + 1;
    }
    MembersLengthEnd(depth, fmt);
    assert ms[i..] == [];
  }

  // ----- There and back -----

  /** Printing a tree into a buffer and parsing the buffer builds a fresh tree for
      the same value, in either print mode. */
  method PrintAndParse(item: Node, fmt: bool, ghost sh: Shape, ghost v: Json)
    returns (copy: Node?, end: nat, ghost sh': Shape)
    requires Ready(item, sh, v)
    ensures copy != null && sh'.node == copy && Tree(sh', v) && fresh(sh'.repr)
    ensures end == |Print(v, 0, fmt)|
  {
    hide Tree, Print, Parse, Written;
    var out, n := PrintValue(item, 0, fmt, sh, v);
    ParsePrinted(v, fmt, true);
    assert out[..n] == Print(v, 0, fmt);
    copy, end, sh' := ParseWithOpts(out[..n], true);
  }
}
