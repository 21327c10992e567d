/** The parser of application/http_client/cJSON.c as it runs: a cursor over the
    text, and a linked tree built child by child under a freshly zeroed node. */
module JsonParser {
  import opened JsonText
  import opened JsonPrint
  import opened JsonTree
  import opened JsonStrings
  import opened Wrappers

  // ----- Cursor loops -----

  method SkipBlanks(text: Text, pos: nat) returns (end: nat)
    requires pos <= |text|
    ensures pos <= end <= |text| && text[end..] == Skip(text[pos..])
  {
    end := pos;
    while end < |text| && text[end] <= 32
      invariant pos <= end <= |text| && Skip(text[end..]) == Skip(text[pos..])
    {
      assert text[end..][1..] == text[end + 1..];
      end := end + 1;
    }
  }

  method ReadDigits(text: Text, pos: nat, n0: nat) returns (n: nat, end: nat)
    requires pos <= |text|
    ensures pos <= end <= |text| && Digits(text[pos..], n0) == (n, text[end..])
  {
    n, end := n0, pos;
    while IsDigit(At(text, end))
      invariant pos <= end <= |text| && Digits(text[end..], n) == Digits(text[pos..], n0)
      decreases |text| - end
    {
      assert text[end..][1..] == text[end + 1..];
      n, end := n * 10 + (text[end] as int - 48), end + 1;
    }
  }

  method ReadExponent(text: Text, pos: nat) returns (e: int, end: nat)
    requires pos <= |text|
    ensures pos <= end <= |text| && Exponent(text[pos..]) == (e, text[end..])
  {
    e, end := 0, pos;
    if At(text, pos) == 101 || At(text, pos) == 69 {
      assert text[pos..][1..] == text[pos + 1..];
      var sign: int := 1;
      end := pos + 1;
      if At(text, end) == 43 {
        assert text[end..][1..] == text[end + 1..];
        end := end + 1;
      } else if At(text, end) == MINUS {
        assert text[end..][1..] == text[end + 1..];
        sign, end := -1, end + 1;
      }
      var n;
      n, end := ReadDigits(text, end, 0);
      e := sign * n;
    }
  }

  method ReadInteger(text: Text, pos: nat) returns (negative: bool, n: nat, end: nat)
    requires pos <= |text|
    ensures pos <= end <= |text| && IntegerPart(text[pos..]) == (negative, n, text[end..])
  {
    hide Digits;
    end, negative, n := pos, false, 0;
    if At(text, end) == MINUS {
      assert text[pos..][1..] == text[pos + 1..];
      negative, end := true, end + 1;
    }
    ghost var s1 := text[end..];
    if At(text, end) == 48 {
      assert s1[1..] == text[end + 1..];
      end := end + 1;
    }
    if 49 <= At(text, end) <= 57 { n, end := ReadDigits(text, end, 0); }
  }

  method ReadFraction(text: Text, pos: nat, n: nat) returns (m: nat, scale: int, end: nat)
    requires pos <= |text|
    ensures pos <= end <= |text| && Fraction(text[pos..], n) == (m, scale, text[end..])
  {
    hide Digits;
    m, scale, end := n, 0, pos;
    if At(text, pos) == 46 && IsDigit(At(text, pos + 1)) {
      assert text[pos..][1..] == text[pos + 1..];
      m, end := ReadDigits(text, pos + 1, n);
      scale := pos + 1 - end;
    }
  }

  /** parse_number, up to the two integers handed to pow(). */
  method ReadNumber(text: Text, pos: nat) returns (m: int, e: int, end: nat)
    requires pos <= |text|
    ensures pos <= end <= |text| && ParseNumber(text[pos..]) == Ok(Num(m, e), text[end..])
  {
    hide IntegerPart, Fraction, Exponent;
    var negative, n, scale;
    negative, n, end := ReadInteger(text, pos);
    n, scale, end := ReadFraction(text, end, n);
    e, end := ReadExponent(text, end);
    m, e := if negative then -(n as int) else n, scale + e;
  }

  // ----- The element and member loops, from the byte after a value -----

  /** What parse_array does with the byte after an element. */
  function MoreElements(t: Text): Parsed<seq<Json>> {
    if At(t, 0) == COMMA then ParseElements(t[1..])
    else if At(t, 0) == RBRACKET then Ok([], t[1..])
    else Fail(t)
  }

  function MoreMembers(t: Text): Parsed<seq<Member>> {
    if At(t, 0) == COMMA then ParseMembers(t[1..])
    else if At(t, 0) == RBRACE then Ok([], t[1..])
    else Fail(t)
  }

  function Onto<T>(done: seq<T>, r: Parsed<seq<T>>): Parsed<seq<T>> {
    if r.Ok? then Ok(done + r.value, r.rest) else r
  }

  lemma ElementsUnfold(s: Text)
    ensures var v := ParseValue(Skip(s));
            ParseElements(s) == if v.Ok? then Onto([v.value], MoreElements(Skip(v.rest))) else Again(v)
  {
    hide ParseValue;
    var v := ParseValue(Skip(s));
    if v.Ok? { assert [v.value] + [] == [v.value]; }
  }

  lemma MembersUnfold(s: Text)
    ensures var k := ParseString(Skip(s));
            ParseMembers(s) ==
            if !k.Ok? then Again(k)
            else if At(Skip(k.rest), 0) != COLON then Fail(Skip(k.rest))
            else
              var v := ParseValue(Skip(Skip(k.rest)[1..]));
              if v.Ok? then Onto([Member(k.value, v.value)], MoreMembers(Skip(v.rest))) else Again(v)
  {
    hide ParseValue, ParseString;
    var k := ParseString(Skip(s));
    if k.Ok? && At(Skip(k.rest), 0) == COLON {
      var v := ParseValue(Skip(Skip(k.rest)[1..]));
      if v.Ok? { assert [Member(k.value, v.value)] + [] == [Member(k.value, v.value)]; }
    }
  }

  lemma OntoOnto<T>(a: seq<T>, b: seq<T>, r: Parsed<seq<T>>)
    ensures Onto(a, Onto(b, r)) == Onto(a + b, r)
  {
    if r.Ok? { assert a + (b + r.value) == a + b + r.value; }
  }

  // ----- Building the tree -----

  /** A node as cJSON_New_Item leaves it, seen as a child without children. */
  lemma BlankEntry(c: Node)
    requires c.child == null && c.kind == KFalse && c.name == None
    ensures Entry(Shape(c, [], {c}), Member([], Bool(false)))
  {
  }

  /** The list again, once its last child has been filled in. */
  lemma Assemble(list: Node, kids: seq<Shape>, ms: seq<Member>, k: Shape, m: Member, r: set<Node>)
    requires Parted(list, kids, ms, r, k.node) && list !in k.repr && r !! k.repr
    requires k.node in k.repr && Entry(k, m)
    ensures IsList(list, kids + [k], ms + [m], r + k.repr)
  {
    hide Entry;
    var now := kids + [k];
    assert Apart(now);
    forall i | 0 <= i < |now|
      ensures now[i].node in now[i].repr && now[i].repr <= r + k.repr
      ensures now[i].node.next == NodeAt(now, i + 1) && now[i].node.prev == NodeAt(now, i - 1)
    {
      assert now[i] == if i < |kids| then kids[i] else k;
      assert i < |kids| ==> now[i + 1] == if i + 1 < |kids| then kids[i + 1] else k;
      assert i > 0 ==> now[i - 1] == kids[i - 1];
    }
  }

  /** parse_value: fills `item` in, and builds what is below it from fresh nodes.
      On failure `end` is where `ep` points. */
  method ReadValue(item: Node, text: Text, pos: nat) returns (ok: bool, end: nat, ghost sh: Shape)
    requires pos <= |text| && item.child == null && !ParseValue(text[pos..]).Malformed?
    modifies item`child, item`kind, item`mantissa, item`exponent, item`valuestring
    ensures pos <= end <= |text|
    ensures var r := ParseValue(text[pos..]);
            && ok == r.Ok?
            && (ok ==> text[end..] == r.rest && sh.node == item && item in sh.repr && Tree(sh, r.value))
            && (!ok ==> text[end..] == r.at)
    ensures ok ==> fresh(sh.repr - {item})
    decreases |text| - pos, 2
  {
    hide ParseElements, ParseMembers, ParseChars, ParseNumber;
    var s := text[pos..];
    sh := Shape(item, [], {item});
    if NULL_TEXT <= s {
      item.kind := KNull;
      return true, pos + 4, sh;
    }
    if FALSE_TEXT <= s {
      item.kind := KFalse;
      return true, pos + 5, sh;
    }
    if TRUE_TEXT <= s {
      item.kind := KTrue;
      return true, pos + 4, sh;
    }
    if At(text, pos) == QUOTE {
      ok, end := ReadString(item, text, pos);
    } else if At(text, pos) == MINUS || IsDigit(At(text, pos)) {
      var m, e;
      m, e, end := ReadNumber(text, pos);
      item.mantissa, item.exponent, item.kind := m, e, KNumber;
      ok := true;
    } else if At(text, pos) == LBRACKET {
      ok, end, sh := ReadArray(item, text, pos);
    } else if At(text, pos) == LBRACE {
      ok, end, sh := ReadObject(item, text, pos);
    } else {
      ok, end := false, pos;
    }
  }

  /** parse_string into an item. */
  method ReadString(item: Node, text: Text, pos: nat) returns (ok: bool, end: nat)
    requires pos <= |text| && !ParseString(text[pos..]).Malformed?
    modifies item`kind, item`valuestring
    ensures pos <= end <= |text|
    ensures var r := ParseString(text[pos..]);
            && ok == r.Ok?
            && (ok ==> text[end..] == r.rest && item.kind == KString && item.valuestring == Some(r.value))
            && (!ok ==> text[end..] == r.at)
  {
    if At(text, pos) != QUOTE { return false, pos; }
    var out, n;
    out, n, end := ParseStringBuffer(text, pos);
    assert |text[end..]| <= |text[pos..]|;
    item.valuestring, item.kind := Some(out[..n]), KString;
    ok := true;
  }

  /** A new child is linked in and then parsed into. */
  method ReadElement(list: Node, last: Node?, text: Text, pos: nat,
                     ghost kids: seq<Shape>, ghost ms: seq<Member>, ghost r: set<Node>)
    returns (ok: bool, end: nat, child: Node, ghost k: Shape)
    requires pos <= |text| && !ParseValue(Skip(text[pos..])).Malformed?
    requires IsList(list, kids, ms, r) && last == NodeAt(kids, |kids| - 1)
    modifies list`child, (set i | 0 <= i < |kids| :: kids[i].node)`next
    ensures pos <= end <= |text|
    ensures var v := ParseValue(Skip(text[pos..]));
            && ok == v.Ok?
            && (ok ==> text[end..] == Skip(v.rest) && child == k.node
                       && IsList(list, kids + [k], ms + [Member([], v.value)], r + k.repr))
            && (!ok ==> text[end..] == v.at)
    ensures ok ==> fresh(k.repr)
    decreases |text| - pos, 3
  {
    hide Tree, Entry, IsList, ParseValue, Parted;
    child := NewChild(list, last, kids, ms, r);
    var p := SkipBlanks(text, pos);
    ok, end, k := ReadValue(child, text, p);
    if ok {
      ghost var v := ParseValue(text[p..]).value;
      EntryOf(k, Member([], v));
      Assemble(list, kids, ms, k, Member([], v), r);
      end := SkipBlanks(text, end);
    }
  }

  /** A zeroed node, linked in behind the last child. */
  method NewChild(list: Node, last: Node?, ghost kids: seq<Shape>, ghost ms: seq<Member>, ghost r: set<Node>)
    returns (child: Node)
    requires IsList(list, kids, ms, r) && last == NodeAt(kids, |kids| - 1)
    modifies list`child, (set i | 0 <= i < |kids| :: kids[i].node)`next
    ensures fresh(child) && child.child == null && child.name == None
    ensures child !in r && list !in r && Parted(list, kids, ms, r, child)
  {
    hide Tree, Entry, IsList, Linked, Parted;
    child := new Node();
    BlankEntry(child);
    ListFrame(list, kids, ms, r);
    ChildReprs(list, kids, ms, r);
    ghost var blank, m := Shape(child, [], {child}), Member([], Bool(false));
    Attach(list, last, child, kids, ms, r, blank, m);
    ListParts(list, kids, ms, r, blank, m);
  }

  /** A list split before its last child. */
  ghost predicate Parted(list: Node, kids: seq<Shape>, ms: seq<Member>, r: set<Node>, c: Node)
    reads list`child, r, c`next, c`prev
  {
    && list !in r && |kids| == |ms| && Apart(kids)
    && list.child == (if kids == [] then c else kids[0].node)
    && (forall i {:trigger kids[i]} :: 0 <= i < |kids| ==>
          && kids[i].node in kids[i].repr && kids[i].repr <= r && Entry(kids[i], ms[i])
          && kids[i].node.next == (if i + 1 == |kids| then c else kids[i + 1].node)
          && kids[i].node.prev == NodeAt(kids, i - 1))
    && c.next == null && c.prev == NodeAt(kids, |kids| - 1)
  }

  lemma ListParts(list: Node, kids: seq<Shape>, ms: seq<Member>, r: set<Node>, last: Shape, m: Member)
    requires IsList(list, kids + [last], ms + [m], r + last.repr) && r !! last.repr
    requires forall i :: 0 <= i < |kids| ==> kids[i].repr <= r
    ensures Parted(list, kids, ms, r, last.node)
  {
    PrefixApart(kids, last);
    hide Entry, Apart;
    var all := kids + [last];
    forall i | 0 <= i < |kids|
      ensures kids[i].node in kids[i].repr && Entry(kids[i], ms[i])
      ensures kids[i].node.next == (if i + 1 == |kids| then last.node else kids[i + 1].node)
      ensures kids[i].node.prev == NodeAt(kids, i - 1)
    {
      PartAt(list, kids, ms, r, last, m, i);
    }
    assert all[|kids|] == last;
    assert last.node.next == null && last.node.prev == NodeAt(kids, |kids| - 1);
    assert list !in r && list.child == (if kids == [] then last.node else kids[0].node);
    hide IsList, Linked;
  }

  lemma PartAt(list: Node, kids: seq<Shape>, ms: seq<Member>, r: set<Node>, last: Shape, m: Member, i: nat)
    requires IsList(list, kids + [last], ms + [m], r + last.repr) && i < |kids|
    ensures kids[i].node in kids[i].repr && |kids| == |ms| && Entry(kids[i], ms[i])
    ensures kids[i].node.next == (if i + 1 == |kids| then last.node else kids[i + 1].node)
    ensures kids[i].node.prev == NodeAt(kids, i - 1)
  {
    hide Entry, Apart;
    var all := kids + [last];
    assert all[i] == kids[i] && Entry(all[i], (ms + [m])[i]);
  }

  lemma PrefixApart(kids: seq<Shape>, last: Shape)
    requires Apart(kids + [last])
    ensures Apart(kids)
  {
    var all := kids + [last];
    forall i, j | 0 <= i < j < |kids| ensures kids[i].repr !! kids[j].repr {
      assert all[i].repr !! all[j].repr;
    }
  }

  lemma ListFrame(list: Node, kids: seq<Shape>, ms: seq<Member>, r: set<Node>)
    requires IsList(list, kids, ms, r)
    ensures list !in r && |kids| == |ms| && forall i :: 0 <= i < |kids| ==> kids[i].node in r && kids[i].node != list
  {
    ChildrenApart(list, kids, ms, r);
  }

  /** One more element, when the cursor is on a comma. */
  lemma ElementStep(goal: Parsed<seq<Json>>, vs: seq<Json>, text: Text, end: nat)
    requires end < |text| && text[end] == COMMA && goal == Onto(vs, MoreElements(text[end..]))
    ensures var v := ParseValue(Skip(text[end + 1..]));
            goal == if v.Ok? then Onto(vs + [v.value], MoreElements(Skip(v.rest))) else Again(v)
  {
    hide ParseElements, ParseValue;
    assert text[end..][1..] == text[end + 1..];
    ElementsUnfold(text[end + 1..]);
    var v := ParseValue(Skip(text[end + 1..]));
    if v.Ok? { OntoOnto(vs, [v.value], MoreElements(Skip(v.rest))); }
  }

  /** Where the loop stops. */
  lemma ElementsDone(goal: Parsed<seq<Json>>, vs: seq<Json>, text: Text, end: nat)
    requires end <= |text| && At(text, end) != COMMA && goal == Onto(vs, MoreElements(text[end..]))
    ensures goal == if At(text, end) == RBRACKET then Ok(vs, text[end + 1..]) else Fail(text[end..])
  {
    hide ParseElements;
    if At(text, end) == RBRACKET {
      assert text[end..][1..] == text[end + 1..] && vs + [] == vs;
    }
  }

  /** parse_array */
  method ReadArray(item: Node, text: Text, pos: nat) returns (ok: bool, end: nat, ghost sh: Shape)
    requires pos < |text| && text[pos] == LBRACKET && item.child == null && !ParseValue(text[pos..]).Malformed?
    modifies item`child, item`kind
    ensures pos <= end <= |text|
    ensures var r := ParseValue(text[pos..]);
            && ok == r.Ok?
            && (ok ==> text[end..] == r.rest && sh.node == item && item in sh.repr && Tree(sh, r.value))
            && (!ok ==> text[end..] == r.at)
    ensures ok ==> fresh(sh.repr - {item})
    decreases |text| - pos, 1
  {
    hide Tree, IsList, ParseValue, ParseElements;
    item.kind := KArray;
    var p := SkipBlanks(text, pos + 1);
    ArrayUnfold(text, pos);
    sh := Shape(item, [], {item});
    if At(text, p) == RBRACKET {
      EmptyContainer(item);
      assert text[p..][1..] == text[p + 1..];
      return true, p + 1, sh;
    }
    ghost var kids, vs, r;
    ok, end, kids, vs, r := ReadElements(item, text, p);
    if ok {
      ListIsTree(item, kids, Nameless(vs), r);
      assert ValuesOf(Nameless(vs)) == vs;
      sh := Shape(item, kids, r + {item});
    }
  }

  /** The first element and the loop of parse_array. */
  method ReadElements(item: Node, text: Text, pos: nat)
    returns (ok: bool, end: nat, ghost kids: seq<Shape>, ghost vs: seq<Json>, ghost r: set<Node>)
    requires pos <= |text| && item.child == null && !ParseElements(text[pos..]).Malformed?
    modifies item`child
    ensures pos <= end <= |text|
    ensures var goal := ParseElements(text[pos..]);
            && ok == goal.Ok?
            && (ok ==> goal == Ok(vs, text[end..]) && IsList(item, kids, Nameless(vs), r))
            && (!ok ==> text[end..] == goal.at)
    ensures ok ==> fresh(r)
    decreases |text| - pos, 4
  {
    hide Tree, IsList, ParseValue, ParseElements, MoreElements, Skip;
    ghost var goal := ParseElements(text[pos..]);
    ElementsUnfold(text[pos..]);
    EmptyList(item);
    kids, vs, r := [], [], {};
    var child: Node?;
    ghost var k;
    ok, end, child, k := ReadElement(item, null, text, pos, [], [], {});
    if !ok { return; }
    vs := [ParseValue(Skip(text[pos..])).value];
    kids, r := [] + [k], {} + k.repr;
    assert Nameless(vs) == [] + [Member([], vs[0])];
    while At(text, end) == COMMA
      invariant pos <= end <= |text| && goal == Onto(vs, MoreElements(text[end..]))
      invariant |vs| == |kids| && child == NodeAt(kids, |kids| - 1)
      invariant IsList(item, kids, Nameless(vs), r) && fresh(r)
      decreases |text| - end
    {
      ElementStep(goal, vs, text, end);
      ListFrame(item, kids, Nameless(vs), r);
      ghost var v := ParseValue(Skip(text[end + 1..]));
      ok, end, child, k := ReadElement(item, child, text, end + 1, kids, Nameless(vs), r);
      if !ok { return; }
      assert Nameless(vs) + [Member([], v.value)] == Nameless(vs + [v.value]);
      kids, r, vs := kids + [k], r + k.repr, vs + [v.value];
    }
    ElementsDone(goal, vs, text, end);
    if At(text, end) == RBRACKET { end := end + 1; } else { ok := false; }
  }

  /** One more member, when the cursor is on a comma. */
  lemma MemberStep(goal: Parsed<seq<Member>>, ms: seq<Member>, text: Text, end: nat)
    requires end < |text| && text[end] == COMMA && goal == Onto(ms, MoreMembers(text[end..]))
    ensures var one := OneMember(text[end + 1..]);
            goal == if one.Ok? then Onto(ms + [one.value], MoreMembers(one.rest)) else Again(one)
  {
    hide ParseMembers, OneMember;
    assert text[end..][1..] == text[end + 1..];
    FirstMember(text[end + 1..]);
    var one := OneMember(text[end + 1..]);
    if one.Ok? { OntoOnto(ms, [one.value], MoreMembers(one.rest)); }
  }

  /** A name and a colon, up to the value. */
  function NamePart(s: Text): Parsed<Text> {
    var k := ParseString(Skip(s));
    if !k.Ok? then k
    else
      var c := Skip(k.rest);
      if At(c, 0) != COLON then Fail(c) else Ok(k.value, Skip(c[1..]))
  }

  /** A name, a colon and a value, up to the byte after the value. */
  function OneMember(s: Text): Parsed<Member> {
    var k := NamePart(s);
    if !k.Ok? then Again(k)
    else
      var v := ParseValue(k.rest);
      if v.Ok? then Ok(Member(k.value, v.value), Skip(v.rest)) else Again(v)
  }

  lemma FirstMember(s: Text)
    ensures var one := OneMember(s);
            ParseMembers(s) == if one.Ok? then Onto([one.value], MoreMembers(one.rest)) else Again(one)
  {
    hide ParseMembers, ParseString, ParseValue;
    MembersUnfold(s);
  }

  lemma MembersDone(goal: Parsed<seq<Member>>, ms: seq<Member>, text: Text, end: nat)
    requires end <= |text| && At(text, end) != COMMA && goal == Onto(ms, MoreMembers(text[end..]))
    ensures goal == if At(text, end) == RBRACE then Ok(ms, text[end + 1..]) else Fail(text[end..])
  {
    hide ParseMembers;
    if At(text, end) == RBRACE {
      assert text[end..][1..] == text[end + 1..] && ms + [] == ms;
    }
  }

  /** A new child is linked in, named and then parsed into. */
  method ReadMember(list: Node, last: Node?, text: Text, pos: nat,
                    ghost kids: seq<Shape>, ghost ms: seq<Member>, ghost r: set<Node>)
    returns (ok: bool, end: nat, child: Node, ghost k: Shape)
    requires pos <= |text| && !OneMember(text[pos..]).Malformed?
    requires IsList(list, kids, ms, r) && last == NodeAt(kids, |kids| - 1)
    modifies list`child, (set i | 0 <= i < |kids| :: kids[i].node)`next
    ensures pos <= end <= |text|
    ensures var one := OneMember(text[pos..]);
            && ok == one.Ok?
            && (ok ==> text[end..] == one.rest && child == k.node
                       && IsList(list, kids + [k], ms + [one.value], r + k.repr))
            && (!ok ==> text[end..] == one.at)
    ensures ok ==> fresh(k.repr)
    decreases |text| - pos, 3
  {
    hide Tree, Entry, IsList, ParseValue, NamePart, Parted;
    child := NewChild(list, last, kids, ms, r);
    k := Shape(child, [], {child});
    ok, end := ReadName(child, text, pos);
    if !ok { return; }
    ghost var name := NamePart(text[pos..]);
    ok, end, k := ReadValue(child, text, end);
    if ok {
      ghost var m := Member(name.value, ParseValue(name.rest).value);
      EntryOf(k, m);
      Assemble(list, kids, ms, k, m, r);
      end := SkipBlanks(text, end);
    }
  }

  /** The name is parsed as the child's string and then moved to its name. */
  method ReadName(child: Node, text: Text, pos: nat) returns (ok: bool, end: nat)
    requires pos <= |text| && !NamePart(text[pos..]).Malformed?
    modifies child`kind, child`valuestring, child`name
    ensures pos <= end <= |text|
    ensures var k := NamePart(text[pos..]);
            && ok == k.Ok?
            && (ok ==> text[end..] == k.rest && child.name == Some(k.value))
            && (!ok ==> text[end..] == k.at)
  {
    hide ParseString;
    var p := SkipBlanks(text, pos);
    ok, end := ReadString(child, text, p);
    if !ok { return; }
    child.name, child.valuestring := child.valuestring, None;
    end := SkipBlanks(text, end);
    if At(text, end) != COLON { return false, end; }
    assert text[end..][1..] == text[end + 1..];
    end := SkipBlanks(text, end + 1);
  }

  /** The first member and the loop of parse_object. */
  method ReadMembers(item: Node, text: Text, pos: nat)
    returns (ok: bool, end: nat, ghost kids: seq<Shape>, ghost ms: seq<Member>, ghost r: set<Node>)
    requires pos <= |text| && item.child == null && !ParseMembers(text[pos..]).Malformed?
    modifies item`child
    ensures pos <= end <= |text|
    ensures var goal := ParseMembers(text[pos..]);
            && ok == goal.Ok?
            && (ok ==> goal == Ok(ms, text[end..]) && IsList(item, kids, ms, r))
            && (!ok ==> text[end..] == goal.at)
    ensures ok ==> fresh(r)
    decreases |text| - pos, 4
  {
    hide Tree, IsList, ParseMembers, OneMember;
    ghost var goal := ParseMembers(text[pos..]);
    FirstMember(text[pos..]);
    EmptyList(item);
    kids, ms, r := [], [], {};
    var child: Node?;
    ghost var k;
    ok, end, child, k := ReadMember(item, null, text, pos, [], [], {});
    if !ok { return; }
    kids, ms, r := [] + [k], [] + [OneMember(text[pos..]).value], {} + k.repr;
    assert ms == [OneMember(text[pos..]).value];
    while At(text, end) == COMMA
      invariant pos <= end <= |text| && goal == Onto(ms, MoreMembers(text[end..]))
      invariant |ms| == |kids| && child == NodeAt(kids, |kids| - 1)
      invariant IsList(item, kids, ms, r) && fresh(r)
      decreases |text| - end
    {
      MemberStep(goal, ms, text, end);
      ListFrame(item, kids, ms, r);
      ghost var one := OneMember(text[end + 1..]);
      ok, end, child, k := ReadMember(item, child, text, end + 1, kids, ms, r);
      if !ok { return; }
      kids, r, ms := kids + [k], r + k.repr, ms + [one.value];
    }
    MembersDone(goal, ms, text, end);
    if At(text, end) == RBRACE { end := end + 1; } else { ok := false; }
  }

  /** parse_object */
  method ReadObject(item: Node, text: Text, pos: nat) returns (ok: bool, end: nat, ghost sh: Shape)
    requires pos < |text| && text[pos] == LBRACE && item.child == null && !ParseValue(text[pos..]).Malformed?
    modifies item`child, item`kind
    ensures pos <= end <= |text|
    ensures var r := ParseValue(text[pos..]);
            && ok == r.Ok?
            && (ok ==> text[end..] == r.rest && sh.node == item && item in sh.repr && Tree(sh, r.value))
            && (!ok ==> text[end..] == r.at)
    ensures ok ==> fresh(sh.repr - {item})
    decreases |text| - pos, 1
  {
    hide Tree, IsList, ParseValue, ParseMembers;
    item.kind := KObject;
    var p := SkipBlanks(text, pos + 1);
    ObjectUnfold(text, pos);
    sh := Shape(item, [], {item});
    if At(text, p) == RBRACE {
      EmptyContainer(item);
      assert text[p..][1..] == text[p + 1..];
      return true, p + 1, sh;
    }
    ghost var kids, ms, r;
    ok, end, kids, ms, r := ReadMembers(item, text, p);
    if ok {
      ListIsTree(item, kids, ms, r);
      sh := Shape(item, kids, r + {item});
    }
  }

  lemma ObjectUnfold(text: Text, pos: nat)
    requires pos < |text| && text[pos] == LBRACE
    ensures var t := Skip(text[pos + 1..]);
            ParseValue(text[pos..]) ==
            if At(t, 0) == RBRACE then Ok(Obj([]), t[1..])
            else var r := ParseMembers(t); if r.Ok? then Ok(Obj(r.value), r.rest) else Again(r)
  {
    hide ParseMembers;
    var s := text[pos..];
    NotPrefix(NULL_TEXT, s);
    NotPrefix(FALSE_TEXT, s);
    NotPrefix(TRUE_TEXT, s);
    assert s[1..] == text[pos + 1..];
  }

  // ----- cJSON_ParseWithOpts -----

  /** Parsing a text yields a fresh tree for exactly the value the grammar
      functions assign to it, or the position of the error. */
  method ParseWithOpts(text: Text, requireEnd: bool)
    returns (item: Node?, end: nat, ghost sh: Shape)
    requires !Parse(text, requireEnd).Malformed?
    ensures end <= |text|
    ensures var r := Parse(text, requireEnd);
            && (item != null <==> r.Ok?)
            && (r.Ok? ==> sh.node == item && Tree(sh, r.value) && fresh(sh.repr) && text[end..] == r.rest)
            && (r.Fail? ==> text[end..] == r.at)
  {
    hide Tree, ParseValue;
    var root := new Node();
    var p := SkipBlanks(text, 0);
    assert text[0..] == text;
    var ok;
    ok, end, sh := ReadValue(root, text, p);
    item := null;
    if !ok { return; }
    if requireEnd {
      end := SkipBlanks(text, end);
      if end < |text| { return; }
    }
    item := root;
  }

  /** Array elements carry no name. */
  ghost function Nameless(vs: seq<Json>): (ms: seq<Member>)
    ensures |ms| == |vs|
  {
    seq(|vs|, i requires 0 <= i < |vs| => Member([], vs[i]))
  }

  lemma ArrayUnfold(text: Text, pos: nat)
    requires pos < |text| && text[pos] == LBRACKET
    ensures var t := Skip(text[pos + 1..]);
            ParseValue(text[pos..]) ==
            if At(t, 0) == RBRACKET then Ok(Arr([]), t[1..])
            else var r := ParseElements(t); if r.Ok? then Ok(Arr(r.value), r.rest) else Again(r)
  {
    hide ParseElements;
    var s := text[pos..];
    NotPrefix(NULL_TEXT, s);
    NotPrefix(FALSE_TEXT, s);
    NotPrefix(TRUE_TEXT, s);
    assert s[1..] == text[pos + 1..];
  }

  lemma EmptyContainer(item: Node)
    requires item.child == null && item.kind in {KArray, KObject}
    ensures Tree(Shape(item, [], {item}), if item.kind == KArray then Arr([]) else Obj([]))
  {
  }

  lemma EmptyList(item: Node)
    requires item.child == null
    ensures IsList(item, [], [], {})
  {
  }
}
