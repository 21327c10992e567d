/** What printed text looks like, as a scan of the text alone: indentation and
    separators of the formatted text, no white space in the compact one. */
module JsonLayout {
  import opened Wrappers
  import opened JsonText
  import opened JsonPrint
  import opened JsonMinify

  // ----- The scans -----

  /** The tabs at the front. */
  function TabRun(s: Text): (n: nat)
    ensures n <= |s|
  {
    if s != [] && s[0] == 9 then 1 + TabRun(s[1..]) else 0
  }

  /** Formatted text.  `open` are the brackets still open, true for a brace.  Outside
      literals: a line feed stands only after an opening brace, after a comma in an
      object and before a closing brace, each time followed by one tab for every open
      bracket, before a closing brace by one fewer, and in an empty object by one fewer
      than are open around it; a comma in an array is followed by one blank and a colon
      by one tab; there is no other white space. */
  predicate Formatted(s: Text, open: seq<bool>)
    decreases |s|
  {
    if s == [] then open == []
    else if s[0] == 34 then
      var n := LiteralLength(s[1..]);
      n.Some? && Formatted(s[1 + n.value..], open)
    else if s[0] == 91 then At(s, 1) > 32 && Formatted(s[1..], open + [false])
    else if s[0] == 93 then open != [] && !open[|open| - 1] && Formatted(s[1..], open[..|open| - 1])
    else if s[0] == 123 then
      && At(s, 1) == 10
      && var n := TabRun(s[2..]);
         var t := s[2 + n..];
         if At(t, 0) == 125 then n == (if open == [] then 0 else |open| - 1) && Formatted(t[1..], open)
         else n == |open| + 1 && At(t, 0) == 34 && Formatted(t, open + [true])
    else if s[0] == 44 then
      && open != []
      && if open[|open| - 1]
         then At(s, 1) == 10 && TabRun(s[2..]) == |open| && At(s, 2 + |open|) == 34 && Formatted(s[2 + |open|..], open)
         else At(s, 1) == 32 && At(s, 2) > 32 && Formatted(s[2..], open)
    else if s[0] == 58 then open != [] && open[|open| - 1] && At(s, 1) == 9 && At(s, 2) > 32 && Formatted(s[2..], open)
    else if s[0] == 10 then
      && open != [] && open[|open| - 1] && TabRun(s[1..]) == |open| - 1
      && At(s, |open|) == 125 && Formatted(s[|open| + 1..], open[..|open| - 1])
    else s[0] > 32 && s[0] != 125 && Formatted(s[1..], open)
  }

  /** Compact text: no white space outside literals. */
  predicate Compact(s: Text)
    decreases |s|
  {
    if s == [] then true
    else if s[0] == 34 then
      var n := LiteralLength(s[1..]);
      n.Some? && Compact(s[1 + n.value..])
    else s[0] > 32 && Compact(s[1..])
  }

  // ----- Tokens -----

  /** A byte of a number, null, true or false. */
  predicate Ordinary(c: int) {
    c > 32 && c != 34 && c != 44 && c != 58 && c != 91 && c != 93 && c != 123 && c != 125
  }

  predicate AllOrdinary(p: Text) {
    forall i :: 0 <= i < |p| ==> Ordinary(p[i])
  }

  lemma {:induction false} OrdinaryScan(p: Text, rest: Text, open: seq<bool>)
    requires AllOrdinary(p)
    ensures Formatted(rest, open) ==> Formatted(p + rest, open)
    ensures Compact(rest) ==> Compact(p + rest)
  {
    if p == [] {
      assert p + rest == rest;
    } else {
      assert (p + rest)[1..] == p[1..] + rest;
      OrdinaryScan(p[1..], rest, open);
    }
  }

  lemma LiteralScan(t: Text, rest: Text, open: seq<bool>)
    ensures Formatted(rest, open) ==> Formatted(PrintString(t) + rest, open)
    ensures Compact(rest) ==> Compact(PrintString(t) + rest)
  {
    var p := PrintString(t);
    var s := p + rest;
    LiteralLengthEscape(t, rest);
    assert s[0] == 34 && s[1..] == Escape(t) + [QUOTE] + rest;
    assert s[|p|..] == rest;
    hide LiteralLength, Escape;
  }

  lemma {:induction false} TabsRun(n: int, t: Text)
    requires At(t, 0) != 9
    ensures TabRun(Tabs(n) + t) == (if n < 0 then 0 else n) && (Tabs(n) + t)[if n < 0 then 0 else n..] == t
    decreases if n < 0 then 0 else n
  {
    if n <= 0 {
      assert Tabs(n) + t == t;
    } else {
      assert (Tabs(n) + t)[1..] == Tabs(n - 1) + t;
      TabsRun(n - 1, t);
    }
  }

  lemma IntOrdinary(n: int)
    ensures AllOrdinary(PrintInt(n))
  {
    var d := Decimal(if n < 0 then -n else n);
    forall i | 0 <= i < |PrintInt(n)| ensures Ordinary(PrintInt(n)[i]) {
      assert PrintInt(n)[i] == MINUS || IsDigit(PrintInt(n)[i]);
    }
  }

  // ----- Compact text -----

  /** The compact print of any value has no white space outside literals. */
  lemma {:induction false} CompactPrint(v: Json, depth: nat, rest: Text)
    requires Compact(rest)
    ensures Compact(Print(v, depth, false) + rest)
    decreases v, 0
  {
    match v
    case Null => OrdinaryScan(NULL_TEXT, rest, []);
    case Bool(b) => OrdinaryScan(if b then TRUE_TEXT else FALSE_TEXT, rest, []);
    case Num(m, e) => IntOrdinary(m); OrdinaryScan(PrintInt(m), rest, []);
    case Str(t) => LiteralScan(t, rest, []);
    case Arr(items) => CompactArray(items, depth, rest);
    case Obj(members) => CompactObject(members, depth, rest);
  }

  lemma CompactByte(c: Octet, rest: Text)
    requires c > 32 && c != 34 && Compact(rest)
    ensures Compact([c] + rest)
  {
    assert ([c] + rest)[1..] == rest;
  }

  lemma {:induction false} CompactArray(items: seq<Json>, depth: nat, rest: Text)
    requires Compact(rest)
    ensures Compact(Print(Arr(items), depth, false) + rest)
    decreases items, 2
  {
    hide Compact, PrintItems;
    CompactByte(RBRACKET, rest);
    var close := [RBRACKET] + rest;
    if items == [] {
      CompactByte(LBRACKET, close);
      assert [LBRACKET, RBRACKET] + rest == [LBRACKET] + close;
    } else {
      CompactItems(items, depth + 1, close);
      CompactByte(LBRACKET, PrintItems(items, depth + 1, false) + close);
      assert Print(Arr(items), depth, false) + rest == [LBRACKET] + (PrintItems(items, depth + 1, false) + close);
    }
  }

  lemma {:induction false} CompactItems(items: seq<Json>, depth: nat, tail: Text)
    requires items != [] && Compact(tail)
    ensures Compact(PrintItems(items, depth, false) + tail)
    decreases items, 1
  {
    hide Compact, Print;
    var first := Print(items[0], depth, false);
    if |items| == 1 {
      assert PrintItems(items, depth, false) + tail == first + tail;
      CompactPrint(items[0], depth, tail);
    } else {
      var more := PrintItems(items[1..], depth, false) + tail;
      CompactItems(items[1..], depth, tail);
      CompactByte(COMMA, more);
      CompactPrint(items[0], depth, [COMMA] + more);
      assert PrintItems(items, depth, false) + tail == first + ([COMMA] + more);
    }
  }

  lemma {:induction false} CompactObject(members: seq<Member>, depth: nat, rest: Text)
    requires Compact(rest)
    ensures Compact(Print(Obj(members), depth, false) + rest)
    decreases members, 2
  {
    hide Compact, PrintMembers;
    CompactByte(RBRACE, rest);
    var close := [RBRACE] + rest;
    if members == [] {
      CompactByte(LBRACE, close);
      assert Print(Obj(members), depth, false) + rest == [LBRACE] + close;
    } else {
      CompactMembers(members, depth + 1, close);
      CompactByte(LBRACE, PrintMembers(members, depth + 1, false) + close);
      assert Print(Obj(members), depth, false) + rest == [LBRACE] + (PrintMembers(members, depth + 1, false) + close);
    }
  }

  lemma {:induction false} CompactMembers(members: seq<Member>, depth: nat, tail: Text)
    requires members != [] && Compact(tail)
    ensures Compact(PrintMembers(members, depth, false) + tail)
    decreases members, 1
  {
    hide Compact, Print, PrintString, PrintMembers;
    var name, first := PrintString(members[0].name), Print(members[0].value, depth, false);
    var after := tail;
    if |members| > 1 {
      CompactMembers(members[1..], depth, tail);
      var more := PrintMembers(members[1..], depth, false) + tail;
      CompactByte(COMMA, more);
      after := [COMMA] + more;
    }
    CompactPrint(members[0].value, depth, after);
    CompactByte(COLON, first + after);
    LiteralScan(members[0].name, [COLON] + (first + after), []);
    CompactShape(members, depth, name, first, after, tail);
  }

  lemma CompactShape(members: seq<Member>, d: nat, name: Text, first: Text, after: Text, tail: Text)
    requires members != [] && name == PrintString(members[0].name) && first == Print(members[0].value, d, false)
    requires after == if |members| == 1 then tail else [COMMA] + (PrintMembers(members[1..], d, false) + tail)
    ensures PrintMembers(members, d, false) + tail == name + ([COLON] + (first + after))
  {
    hide Print, PrintString;
  }

  // ----- Formatted text -----

  /** The formatted print of any value, inside as many brackets as its depth says, is
      laid out like this. */
  lemma {:induction false} FormattedPrint(v: Json, open: seq<bool>, rest: Text)
    requires Formatted(rest, open)
    ensures Formatted(Print(v, |open|, true) + rest, open)
    decreases v, 0
  {
    match v
    case Null => OrdinaryScan(NULL_TEXT, rest, open);
    case Bool(b) => OrdinaryScan(if b then TRUE_TEXT else FALSE_TEXT, rest, open);
    case Num(m, e) => IntOrdinary(m); OrdinaryScan(PrintInt(m), rest, open);
    case Str(t) => LiteralScan(t, rest, open);
    case Arr(items) => FormattedArray(items, open, rest);
    case Obj(members) => FormattedObject(members, open, rest);
  }

  lemma OpenBracket(t: Text, open: seq<bool>)
    requires At(t, 0) > 32 && Formatted(t, open + [false])
    ensures Formatted([LBRACKET] + t, open)
  {
    assert ([LBRACKET] + t)[1..] == t;
  }

  lemma CloseBracket(rest: Text, open: seq<bool>)
    requires Formatted(rest, open)
    ensures Formatted([RBRACKET] + rest, open + [false])
  {
    assert ([RBRACKET] + rest)[1..] == rest && (open + [false])[..|open|] == open;
  }

  lemma ArrayComma(t: Text, open: seq<bool>)
    requires open != [] && !open[|open| - 1] && At(t, 0) > 32 && Formatted(t, open)
    ensures Formatted([COMMA, 32] + t, open)
  {
    var s := [COMMA, 32] + t;
    assert s[2..] == t && At(s, 2) == At(t, 0);
  }

  lemma {:induction false} FormattedArray(items: seq<Json>, open: seq<bool>, rest: Text)
    requires Formatted(rest, open)
    ensures Formatted(Print(Arr(items), |open|, true) + rest, open)
    decreases items, 2
  {
    hide Formatted, PrintItems;
    CloseBracket(rest, open);
    var close := [RBRACKET] + rest;
    if items == [] {
      OpenBracket(close, open);
      assert Print(Arr(items), |open|, true) + rest == [LBRACKET] + close;
    } else {
      var d := |open| + 1;
      FormattedItems(items, open + [false], close);
      var body := PrintItems(items, d, true) + close;
      OpenBracket(body, open);
      assert Print(Arr(items), |open|, true) + rest == [LBRACKET] + body;
    }
  }

  lemma {:induction false} FormattedItems(items: seq<Json>, open: seq<bool>, tail: Text)
    requires items != [] && open != [] && !open[|open| - 1] && Formatted(tail, open)
    ensures var body := PrintItems(items, |open|, true) + tail; Formatted(body, open) && At(body, 0) > 32
    decreases items, 1
  {
    hide Formatted, Print;
    var first := Print(items[0], |open|, true);
    PrintStart(items[0], |open|, true);
    if |items| == 1 {
      assert PrintItems(items, |open|, true) + tail == first + tail;
      FormattedPrint(items[0], open, tail);
    } else {
      var more := PrintItems(items[1..], |open|, true) + tail;
      FormattedItems(items[1..], open, tail);
      ArrayComma(more, open);
      FormattedPrint(items[0], open, [COMMA, 32] + more);
      assert PrintItems(items, |open|, true) + tail == first + ([COMMA, 32] + more);
    }
  }

  /** A brace, a line feed and `n` tabs before `t`. */
  lemma BraceUnfolds(s: Text, n: nat, t: Text, open: seq<bool>)
    requires s != [] && s[0] == 123 && At(s, 1) == 10 && |s| >= 2 && TabRun(s[2..]) == n && s[2 + n..] == t
    ensures Formatted(s, open) ==
            if At(t, 0) == 125 then n == (if open == [] then 0 else |open| - 1) && Formatted(t[1..], open)
            else n == |open| + 1 && At(t, 0) == 34 && Formatted(t, open + [true])
  {
    hide TabRun, LiteralLength;
  }

  lemma SecondOn(a: Octet, b: Octet, u: Text)
    ensures var s := [a] + ([b] + u); s[0] == a && At(s, 1) == b as int && s[2..] == u
  {
  }

  lemma BraceShape(n: int, t: Text)
    requires At(t, 0) != 9
    ensures var s, k := [LBRACE] + ([10] + (Tabs(n) + t)), if n < 0 then 0 else n;
            s[0] == 123 && At(s, 1) == 10 && TabRun(s[2..]) == k && 2 + k <= |s| && s[2 + k..] == t
  {
    hide Tabs, TabRun;
    var s, u := [LBRACE] + ([10] + (Tabs(n) + t)), Tabs(n) + t;
    TabsRun(n, t);
    SecondOn(123, 10, u);
    assert s[2 + TabRun(u)..] == s[2..][TabRun(u)..];
  }

  lemma EmptyBraces(rest: Text, open: seq<bool>)
    requires Formatted(rest, open)
    ensures Formatted([LBRACE] + ([10] + (Tabs(|open| - 1) + ([RBRACE] + rest))), open)
  {
    hide Formatted, Tabs, TabRun;
    var n, t := |open| - 1, [RBRACE] + rest;
    BraceShape(n, t);
    assert t[1..] == rest;
    BraceUnfolds([LBRACE] + ([10] + (Tabs(n) + t)), if n < 0 then 0 else n, t, open);
  }

  lemma OpenBrace(t: Text, open: seq<bool>)
    requires At(t, 0) == 34 && Formatted(t, open + [true])
    ensures Formatted([LBRACE] + ([10] + (Tabs(|open| + 1) + t)), open)
  {
    hide Formatted, Tabs, TabRun;
    BraceShape(|open| + 1, t);
    BraceUnfolds([LBRACE] + ([10] + (Tabs(|open| + 1) + t)), |open| + 1, t, open);
  }

  lemma FeedUnfolds(s: Text, t: Text, open: seq<bool>)
    requires s != [] && s[0] == 10 && open != [] && open[|open| - 1] && TabRun(s[1..]) == |open| - 1
    requires |open| <= |s| && s[|open|..] == t && At(t, 0) == 125
    ensures Formatted(s, open) == Formatted(t[1..], open[..|open| - 1])
  {
    hide TabRun, LiteralLength;
    assert At(s, |open|) == At(t, 0);
    assert s[|open| + 1..] == t[1..];
  }

  lemma CloseBrace(rest: Text, open: seq<bool>)
    requires Formatted(rest, open)
    ensures Formatted([10] + (Tabs(|open|) + ([RBRACE] + rest)), open + [true])
  {
    hide Formatted, Tabs, TabRun;
    var t, wide := [RBRACE] + rest, open + [true];
    var s, u := [10] + (Tabs(|open|) + t), Tabs(|open|) + t;
    TabsRun(|open|, t);
    assert s[1..] == u && s[|wide|..] == u[|open|..];
    assert t[1..] == rest && wide[..|open|] == open;
    FeedUnfolds(s, t, wide);
  }

  lemma CommaUnfolds(s: Text, t: Text, open: seq<bool>)
    requires s != [] && s[0] == 44 && At(s, 1) == 10 && open != [] && open[|open| - 1]
    requires TabRun(s[2..]) == |open| && 2 + |open| <= |s| && s[2 + |open|..] == t && At(t, 0) == 34
    ensures Formatted(s, open) == Formatted(t, open)
  {
    hide TabRun, LiteralLength;
    assert At(s, 2 + |open|) == At(t, 0);
  }

  lemma ObjectComma(t: Text, open: seq<bool>)
    requires open != [] && open[|open| - 1] && At(t, 0) == 34 && Formatted(t, open)
    ensures Formatted([COMMA] + ([10] + (Tabs(|open|) + t)), open)
  {
    hide Formatted, Tabs, TabRun;
    var s, u := [COMMA] + ([10] + (Tabs(|open|) + t)), Tabs(|open|) + t;
    TabsRun(|open|, t);
    assert s[2..] == u && s[2 + |open|..] == u[|open|..];
    CommaUnfolds(s, t, open);
  }

  lemma ColonTab(t: Text, open: seq<bool>)
    requires open != [] && open[|open| - 1] && At(t, 0) > 32 && Formatted(t, open)
    ensures Formatted([COLON, 9] + t, open)
  {
    var s := [COLON, 9] + t;
    assert s[2..] == t && At(s, 2) == At(t, 0);
  }

  lemma {:induction false} FormattedObject(members: seq<Member>, open: seq<bool>, rest: Text)
    requires Formatted(rest, open)
    ensures Formatted(Print(Obj(members), |open|, true) + rest, open)
    decreases members, 2
  {
    hide Formatted, PrintMembers;
    var d := |open|;
    if members == [] {
      EmptyBraces(rest, open);
      assert Print(Obj(members), d, true) + rest == [LBRACE] + ([10] + (Tabs(d - 1) + ([RBRACE] + rest)));
    } else {
      CloseBrace(rest, open);
      var close := Tabs(d) + ([RBRACE] + rest);
      var t := FormattedMembers(members, open + [true], close);
      OpenBrace(t, open);
      assert Print(Obj(members), d, true) + rest == [LBRACE] + ([10] + (PrintMembers(members, d + 1, true) + close));
    }
  }

  /** The members without the tabs in front of the first. */
  lemma {:induction false} FormattedMembers(members: seq<Member>, open: seq<bool>, close: Text) returns (t: Text)
    requires members != [] && open != [] && open[|open| - 1] && Formatted([10] + close, open)
    ensures PrintMembers(members, |open|, true) + close == Tabs(|open|) + t && At(t, 0) == 34 && Formatted(t, open)
    decreases members, 1
  {
    hide Formatted, Print, PrintString;
    var d := |open|;
    var name, first := PrintString(members[0].name), Print(members[0].value, d, true);
    var after := [10] + close;
    if |members| > 1 {
      var more := FormattedMembers(members[1..], open, close);
      ObjectComma(more, open);
      after := [COMMA] + ([10] + (Tabs(d) + more));
    }
    FormattedPrint(members[0].value, open, after);
    PrintStart(members[0].value, d, true);
    ColonTab(first + after, open);
    LiteralScan(members[0].name, [COLON, 9] + (first + after), open);
    t := name + ([COLON, 9] + (first + after));
    QuoteFirst(members[0].name);
    MembersShape(members, d, name, first, after, close, t);
  }

  lemma MembersShape(members: seq<Member>, d: nat, name: Text, first: Text, after: Text, close: Text, t: Text)
    requires members != [] && name == PrintString(members[0].name) && first == Print(members[0].value, d, true)
    requires after == if |members| == 1 then [10] + close else [COMMA] + ([10] + (PrintMembers(members[1..], d, true) + close))
    requires t == name + ([COLON, 9] + (first + after))
    ensures PrintMembers(members, d, true) + close == Tabs(d) + t
  {
    hide Print, PrintString;
  }

  /** The formatted print of any value, as a whole. */
  lemma FormattedText(v: Json)
    ensures Formatted(Print(v, 0, true), []) && Compact(Print(v, 0, false))
  {
    FormattedPrint(v, [], []);
    CompactPrint(v, 0, []);
    assert Print(v, 0, true) + [] == Print(v, 0, true) && Print(v, 0, false) + [] == Print(v, 0, false);
  }

  // ----- Escapes and numbers -----

  /** Which bytes of a string are escaped, and how: seven with a letter, the other
      control bytes as \u and four lower-case digits, nothing else. */
  lemma EscapeLaw(c: Octet)
    ensures var e := EscapeOctet(c);
            if c in {34, 92} then e == [92, c]
            else if c == 8 then e == [92, 98]
            else if c == 9 then e == [92, 116]
            else if c == 10 then e == [92, 110]
            else if c == 12 then e == [92, 102]
            else if c == 13 then e == [92, 114]
            else if c < 32 then
              && |e| == 6 && e[..4] == [92, 117, 48, 48] && HexDigit(e[4]) * 16 + HexDigit(e[5]) == c as int
              && e[4] <= 57 && (e[5] <= 57 || e[5] >= 97)
            else e == [c]
  {
  }

  /** A number is a sign, if negative, and digits without a leading zero. */
  lemma IntLaw(n: int)
    ensures var p := PrintInt(n);
            var d := if n < 0 then p[1..] else p;
            && p != [] && (n < 0 <==> p[0] == 45) && d != [] && (d[0] == 48 ==> n == 0 && d == [48])
            && forall i :: 0 <= i < |d| ==> 48 <= d[i] <= 57
  {
    if n < 0 { assert PrintInt(n)[1..] == Decimal(-n); }
  }
}
