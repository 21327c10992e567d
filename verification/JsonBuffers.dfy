/** The output buffers of print_number, print_array and print_object in
    application/http_client/cJSON.c: the length computed in the first pass always
    covers what the second pass writes, terminator included. */
module JsonBuffers {
  import opened JsonText
  import opened JsonPrint
  import opened JsonStrings
  import opened Bytes

  /** A NUL-terminated copy of `t` at the start of the buffer. */
  ghost predicate CString(out: array<Byte>, t: Text)
    reads out
  {
    |t| < out.Length && Holds(out, t) && out[|t|] == 0
  }

  method Strdup(t: Text) returns (out: array<Byte>)
    ensures fresh(out) && CString(out, t) && out.Length == |t| + 1
  {
    out := new Byte[|t| + 1];
    var ptr := PutText(out, 0, t, []);
    assert [] + t == t;
    out[ptr] := 0;
  }

  // ----- Numbers: 21 bytes are enough for "%d" -----

  function Ten(k: nat): nat {
    if k == 0 then 1 else 10 * Ten(k - 1)
  }

  lemma {:induction false} DecimalLength(n: nat, k: nat)
    requires k >= 1 && n < Ten(k)
    ensures |Decimal(n)| <= k
  {
    if n >= 10 {
      assert Ten(1) == 10;
      DecimalLength(n / 10, k - 1);
    }
  }

  lemma IntLength(n: int)
    requires -0x8000_0000 <= n < 0x8000_0000
    ensures |PrintInt(n)| <= 11
  {
    assert Ten(4) == 10000;
    assert Ten(7) == 10000000;
    assert Ten(10) == 10000000000;
    DecimalLength(if n < 0 then -n else n, 10);
  }

  method PrintNumber(n: int) returns (out: array<Byte>)
    requires -0x8000_0000 <= n < 0x8000_0000
    ensures fresh(out) && CString(out, PrintInt(n)) && out.Length == 21
  {
    IntLength(n);
    out := new Byte[21];
    var ptr := PutText(out, 0, PrintInt(n), []);
    assert [] + PrintInt(n) == PrintInt(n);
    out[ptr] := 0;
  }

  // ----- Arrays -----

  /** What the first pass of print_array adds for these items. */
  ghost function ItemsLength(items: seq<Json>, depth: nat, fmt: bool): nat
    decreases items, 1
  {
    if items == [] then 0
    else |Print(items[0], depth, fmt)| + 2 + (if fmt then 1 else 0) + ItemsLength(items[1..], depth, fmt)
  }

  /** The sum is the length of the text and one byte for every item and separator byte more. */
  lemma {:induction false} ItemsLengthCovers(items: seq<Json>, depth: nat, fmt: bool)
    requires items != []
    ensures ItemsLength(items, depth, fmt) == |PrintItems(items, depth, fmt)| + |items| + (if fmt then 2 else 1)
  {
    hide Print;
    if |items| > 1 { ItemsLengthCovers(items[1..], depth, fmt); }
  }

  /** What is still to be composed from item `i` on. */
  ghost function ItemsFrom(items: seq<Json>, i: nat, depth: nat, fmt: bool): Text
    requires i <= |items|
  {
    if i == |items| then [] else PrintItems(items[i..], depth, fmt)
  }

  lemma ItemsNext(items: seq<Json>, i: nat, depth: nat, fmt: bool)
    requires i < |items|
    ensures ItemsFrom(items, i, depth, fmt)
            == Print(items[i], depth, fmt) + (if i != |items| - 1 then ItemGap(fmt) else []) + ItemsFrom(items, i + 1, depth, fmt)
    ensures ItemsLength(items[i..], depth, fmt)
            == |Print(items[i], depth, fmt)| + 2 + (if fmt then 1 else 0) + ItemsLength(items[i + 1..], depth, fmt)
  {
    hide Print;
    assert items[i..][1..] == items[i + 1..];
  }

  lemma ItemsLengthEnd(depth: nat, fmt: bool)
    ensures ItemsLength([], depth, fmt) == 0
  {
  }

  /** Second pass: brackets, entries and separators in place. */
  method ComposeArray(out: array<Byte>, ghost items: seq<Json>, entries: seq<seq<Byte>>, ghost depth: nat, fmt: bool)
    returns (n: nat)
    requires items != [] && |entries| == |items|
    requires forall i :: 0 <= i < |items| ==> entries[i] == Print(items[i], depth, fmt)
    requires |PrintItems(items, depth, fmt)| + 3 <= out.Length
    modifies out
    ensures var t := [LBRACKET] + PrintItems(items, depth, fmt) + [RBRACKET];
            CString(out, t) && n == |t|
  {
    hide Print, PrintItems;
    ghost var whole := [LBRACKET] + PrintItems(items, depth, fmt);
    var ptr := PutByte(out, 0, LBRACKET, []);
    ghost var w: Text := [LBRACKET];
    assert items[0..] == items;
    for i := 0 to |entries|
      invariant Holds(out, w) && ptr == |w| && w + ItemsFrom(items, i, depth, fmt) == whole
    {
      ghost var p, later := Print(items[i], depth, fmt), ItemsFrom(items, i + 1, depth, fmt);
      ghost var gap := if i != |items| - 1 then ItemGap(fmt) else [];
      ItemsNext(items, i, depth, fmt);
      Concat3(w, p, gap, later);
      ptr := PutString(out, ptr, entries[i], w);
      ptr := PutGap(out, ptr, i == |entries| - 1, fmt, w + p);
      w := w + p + gap;
    }
    assert w + [] == w;
    ptr := PutByte(out, ptr, RBRACKET, w);
    out[ptr] := 0;
    n := ptr;
  }

  /** strcpy, terminator included. */
  method PutString(out: array<Byte>, ptr: nat, t: Text, ghost w: Text) returns (ptr': nat)
    requires Holds(out, w) && ptr == |w| && ptr + |t| < out.Length
    modifies out
    ensures ptr' == ptr + |t| && Holds(out, w + t)
  {
    ptr' := PutText(out, ptr, t, w);
    out[ptr'] := 0;
  }

  method PutGap(out: array<Byte>, ptr: nat, last: bool, fmt: bool, ghost w: Text) returns (ptr': nat)
    requires Holds(out, w) && ptr == |w| && (!last ==> ptr + |ItemGap(fmt)| < out.Length)
    modifies out
    ensures var gap := if last then [] else ItemGap(fmt);
            ptr' == ptr + |gap| && Holds(out, w + gap)
  {
    ptr' := ptr;
    if last {
      assert w + [] == w;
    } else {
      ptr' := PutByte(out, ptr', COMMA, w);
      if fmt {
        ptr' := PutByte(out, ptr', 32, w + [COMMA]);
        assert w + [COMMA] + [32] == w + ItemGap(fmt);
      }
      out[ptr'] := 0;
    }
  }

  lemma Concat3(w: Text, p: Text, gap: Text, later: Text)
    ensures w + (p + gap + later) == w + p + gap + later
    ensures |w| + |p| + |gap| <= |w + p + gap + later|
  {
  }

  // ----- Objects -----

  ghost function MemberLength(m: Member, depth: nat, fmt: bool): nat {
    |Print(m.value, depth, fmt)| + |PrintString(m.name)| + 2 + (if fmt then 2 + depth else 0)
  }

  /** What the first pass of print_object adds for these members. */
  ghost function MembersLength(members: seq<Member>, depth: nat, fmt: bool): nat {
    if members == [] then 0
    else MemberLength(members[0], depth, fmt) + MembersLength(members[1..], depth, fmt)
  }

  /** The sum counts one comma too many. */
  lemma {:induction false} MembersLengthCovers(members: seq<Member>, depth: nat, fmt: bool)
    requires members != []
    ensures MembersLength(members, depth, fmt) == |PrintMembers(members, depth, fmt)| + 1
  {
    hide Print, PrintString;
    if |members| > 1 { MembersLengthCovers(members[1..], depth, fmt); }
  }

  ghost function MembersFrom(members: seq<Member>, i: nat, depth: nat, fmt: bool): Text
    requires i <= |members|
  {
    if i == |members| then [] else PrintMembers(members[i..], depth, fmt)
  }

  /** The separator after a member. */
  function MemberGap(last: bool, fmt: bool): Text {
    (if last then [] else [COMMA]) + LineEnd(fmt)
  }

  lemma MembersNext(members: seq<Member>, i: nat, depth: nat, fmt: bool)
    requires i < |members|
    ensures MembersFrom(members, i, depth, fmt)
            == MemberHead(members[i].name, depth, fmt) + Print(members[i].value, depth, fmt)
               + MemberGap(i == |members| - 1, fmt) + MembersFrom(members, i + 1, depth, fmt)
    ensures MembersLength(members[i..], depth, fmt)
            == MemberLength(members[i], depth, fmt) + MembersLength(members[i + 1..], depth, fmt)
  {
    hide Print, MemberHead;
    assert members[i..][1..] == members[i + 1..];
    var h, p := MemberHead(members[i].name, depth, fmt), Print(members[i].value, depth, fmt);
    if i == |members| - 1 {
      assert h + p + LineEnd(fmt) == h + p + ([] + LineEnd(fmt)) + [];
    } else {
      var more := PrintMembers(members[i + 1..], depth, fmt);
      assert h + p + ([COMMA] + LineEnd(fmt) + more) == h + p + ([COMMA] + LineEnd(fmt)) + more;
    }
  }

  lemma MembersLengthEnd(depth: nat, fmt: bool)
    ensures MembersLength([], depth, fmt) == 0
  {
  }

  method PrintEmptyObject(depth: nat, fmt: bool) returns (out: array<Byte>, n: nat)
    ensures fresh(out) && CString(out, Print(Obj([]), depth, fmt)) && n == |Print(Obj([]), depth, fmt)|
    ensures out.Length == if fmt then depth + 4 else 3
  {
    out := new Byte[if fmt then depth + 4 else 3];
    ghost var t: Text := [LBRACE];
    n := PutByte(out, 0, LBRACE, []);
    if fmt {
      n := PutByte(out, n, 10, t);
      n := PutTabs(out, n, depth - 1, t + [10]);
      t := t + ([10] + Tabs(depth - 1));
      assert [LBRACE] + [10] + Tabs(depth - 1) == t;
    }
    n := PutByte(out, n, RBRACE, t);
    out[n] := 0;
  }

  method PutTabs(out: array<Byte>, ptr: nat, count: int, ghost w: Text) returns (ptr': nat)
    requires Holds(out, w) && ptr == |w| && ptr + |Tabs(count)| <= out.Length
    modifies out
    ensures ptr' == ptr + |Tabs(count)| && Holds(out, w + Tabs(count))
  {
    ptr' := PutText(out, ptr, Tabs(count), w);
  }

  /** Second pass of print_object; `depth` has already been incremented. */
  method ComposeObject(out: array<Byte>, ghost members: seq<Member>, names: seq<seq<Byte>>, entries: seq<seq<Byte>>,
                       depth: nat, fmt: bool)
    returns (n: nat)
    requires members != [] && depth > 0 && |names| == |entries| == |members|
    requires forall i :: 0 <= i < |members| ==> names[i] == PrintString(members[i].name)
    requires forall i :: 0 <= i < |members| ==> entries[i] == Print(members[i].value, depth, fmt)
    requires |PrintMembers(members, depth, fmt)| + 4 + (if fmt then depth else 0) <= out.Length
    modifies out
    ensures var t := [LBRACE] + LineEnd(fmt) + PrintMembers(members, depth, fmt)
                     + (if fmt then Tabs(depth - 1) else []) + [RBRACE];
            CString(out, t) && n == |t|
  {
    hide Print, PrintMembers, PrintString, Tabs;
    ghost var open: Text := [LBRACE] + LineEnd(fmt);
    ghost var whole := open + PrintMembers(members, depth, fmt);
    var ptr := PutByte(out, 0, LBRACE, []);
    if fmt { ptr := PutByte(out, ptr, 10, [LBRACE]); }
    ghost var w: Text := open;
    assert members[0..] == members;
    for i := 0 to |entries|
      invariant Holds(out, w) && ptr == |w| && w + MembersFrom(members, i, depth, fmt) == whole
    {
      ghost var h, p := MemberHead(members[i].name, depth, fmt), Print(members[i].value, depth, fmt);
      ghost var gap, later := MemberGap(i == |entries| - 1, fmt), MembersFrom(members, i + 1, depth, fmt);
      MembersNext(members, i, depth, fmt);
      Concat4(w, h, p, gap, later);
      ptr := PutHead(out, ptr, members[i].name, names[i], depth, fmt, w);
      ptr := PutString(out, ptr, entries[i], w + h);
      ptr := PutMemberGap(out, ptr, i == |entries| - 1, fmt, w + h + p);
      w := w + h + p + gap;
    }
    assert w + [] == w;
    if fmt {
      ptr := PutTabs(out, ptr, depth - 1, w);
      w := w + Tabs(depth - 1);
    }
    ptr := PutByte(out, ptr, RBRACE, w);
    out[ptr] := 0;
    n := ptr;
  }

  lemma Concat4(w: Text, h: Text, p: Text, gap: Text, later: Text)
    ensures w + (h + p + gap + later) == w + h + p + gap + later
    ensures |w| + |h| + |p| + |gap| <= |w + h + p + gap + later|
  {
  }

  method PutHead(out: array<Byte>, ptr: nat, ghost name: Text, str: Text, depth: nat, fmt: bool, ghost w: Text)
    returns (ptr': nat)
    requires str == PrintString(name)
    requires Holds(out, w) && ptr == |w| && ptr + |MemberHead(name, depth, fmt)| <= out.Length
    modifies out
    ensures ptr' == ptr + |MemberHead(name, depth, fmt)| && Holds(out, w + MemberHead(name, depth, fmt))
  {
    hide PrintString, Tabs;
    ghost var t := if fmt then Tabs(depth) else [];
    ptr' := ptr;
    if fmt { ptr' := PutTabs(out, ptr', depth, w); } else { assert w + [] == w; }
    ptr' := PutString(out, ptr', str, w + t);
    ptr' := PutByte(out, ptr', COLON, w + t + str);
    if fmt { ptr' := PutByte(out, ptr', 9, w + t + str + [COLON]); }
    HeadLayout(w, t, str, fmt);
  }

  lemma HeadLayout(w: Text, t: Text, str: Text, fmt: bool)
    ensures fmt ==> w + t + str + [COLON] + [9] == w + (t + str + [COLON, 9])
    ensures !fmt ==> w + t + str + [COLON] == w + (t + str + [COLON])
  {
  }

  method PutMemberGap(out: array<Byte>, ptr: nat, last: bool, fmt: bool, ghost w: Text) returns (ptr': nat)
    requires Holds(out, w) && ptr == |w| && ptr + |MemberGap(last, fmt)| < out.Length
    modifies out
    ensures ptr' == ptr + |MemberGap(last, fmt)| && Holds(out, w + MemberGap(last, fmt))
  {
    ptr' := ptr;
    ghost var c: Text := if last then [] else [COMMA];
    if last { assert w + [] == w; } else { ptr' := PutByte(out, ptr', COMMA, w); }
    if fmt { ptr' := PutByte(out, ptr', 10, w + c); }
    assert w + c + LineEnd(fmt) == w + MemberGap(last, fmt);
    assert !fmt ==> w + c + LineEnd(fmt) == w + c;
    out[ptr'] := 0;
  }
}
