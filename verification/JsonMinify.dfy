/** cJSON_Minify (application/http_client/cJSON.c): the in-place loop, and the
    proof that it turns the formatted print of a value into its compact print. */
module JsonMinify {
  import opened JsonText
  import opened JsonPrint
  import opened Wrappers
  import opened Bytes

  // ----- The transformation on texts; None where the C loop would run past
  // ----- the terminator (an unterminated literal or comment) -----

  function After(head: Text, r: Option<Text>): Option<Text> {
    if r.Some? then Some(head + r.value) else None
  }

  predicate Blank(c: int) {
    c == 32 || c == 9 || c == 13 || c == 10
  }

  /** Length of a string body up to and including its closing quote. */
  function LiteralLength(s: Text): (n: Option<nat>)
    ensures n.Some? ==> 1 <= n.value <= |s|
  {
    if s == [] then None
    else if s[0] == QUOTE then Some(1)
    else
      var k := if s[0] == BACKSLASH then 2 else 1;
      if k > |s| then None
      else
        var n := LiteralLength(s[k..]);
        if n.Some? then Some(k + n.value) else None
  }

  /** Bytes before the next line feed. */
  function LineLength(s: Text): (n: nat)
    ensures n <= |s|
  {
    if s == [] || s[0] == 10 then 0 else 1 + LineLength(s[1..])
  }

  /** Bytes up to and including the next star-slash. */
  function CommentLength(s: Text): (n: Option<nat>)
    ensures n.Some? ==> 2 <= n.value <= |s|
  {
    if s == [] then None
    else if s[0] == 42 && At(s, 1) == 47 then Some(2)
    else
      var n := CommentLength(s[1..]);
      if n.Some? then Some(1 + n.value) else None
  }

  function Minify(s: Text): (r: Option<Text>)
    decreases |s|
  {
    if s == [] then Some([])
    else if Blank(s[0]) then Minify(s[1..])
    else if s[0] == 47 && At(s, 1) == 47 then Minify(s[1 + LineLength(s[1..])..])
    else if s[0] == 47 && At(s, 1) == 42 then
      var n := CommentLength(s[1..]);
      if n.Some? then Minify(s[1 + n.value..]) else None
    else if s[0] == QUOTE then
      var n := LiteralLength(s[1..]);
      if n.Some? then After(s[..1 + n.value], Minify(s[1 + n.value..])) else None
    else After([s[0]], Minify(s[1..]))
  }

  // ----- Minify of a formatted print is the compact print -----

  /** A byte that Minify copies and that cannot open a comment or a literal. */
  predicate Solid(c: int) {
    !Blank(c) && c != 47 && c != QUOTE
  }

  lemma {:induction false} MinifySolid(p: Text, rest: Text)
    requires forall i :: 0 <= i < |p| ==> Solid(p[i])
    ensures Minify(p + rest) == After(p, Minify(rest))
  {
    if p == [] {
      assert p + rest == rest;
      AfterNothing(Minify(rest));
    } else {
      assert (p + rest)[1..] == p[1..] + rest;
      MinifySolid(p[1..], rest);
      AfterAfter([p[0]], p[1..], Minify(rest));
      assert [p[0]] + p[1..] == p;
    }
  }

  lemma {:induction false} MinifyBlanks(p: Text, rest: Text)
    requires forall i :: 0 <= i < |p| ==> Blank(p[i])
    ensures Minify(p + rest) == Minify(rest)
  {
    if p == [] {
      assert p + rest == rest;
    } else {
      assert (p + rest)[1..] == p[1..] + rest;
      MinifyBlanks(p[1..], rest);
    }
  }

  lemma {:induction false} LiteralLengthEscape(s: Text, rest: Text)
    ensures LiteralLength(Escape(s) + [QUOTE] + rest) == Some(|Escape(s)| + 1)
  {
    var all := Escape(s) + [QUOTE] + rest;
    if s != [] {
      var tail := Escape(s[1..]) + [QUOTE] + rest;
      assert all == EscapeOctet(s[0]) + tail;
      LiteralLengthEscape(s[1..], rest);
      LiteralLengthOctet(s[0], tail);
    }
  }

  lemma LiteralLengthOctet(c: Octet, tail: Text)
    requires LiteralLength(tail).Some?
    ensures LiteralLength(EscapeOctet(c) + tail) == Some(|EscapeOctet(c)| + LiteralLength(tail).value)
  {
    hide LiteralLength, EscapeOctet;
    EscapeShape(c);
    var e := EscapeOctet(c);
    if |e| == 1 {
      LiteralLengthPlain(e, tail);
    } else if |e| == 2 {
      LiteralLengthPair(e[1], tail);
    } else {
      LiteralLengthControl(ControlDigits(c), tail);
    }
  }

  lemma LiteralLengthControl(d: Text, tail: Text)
    requires LiteralLength(tail).Some? && forall i :: 0 <= i < |d| ==> d[i] != QUOTE && d[i] != BACKSLASH
    ensures LiteralLength([BACKSLASH, LETTER_U] + d + tail) == Some(|d| + 2 + LiteralLength(tail).value)
  {
    hide LiteralLength;
    LiteralLengthPlain(d, tail);
    LiteralLengthPair(LETTER_U, d + tail);
    assert [BACKSLASH, LETTER_U] + d + tail == [BACKSLASH, LETTER_U] + (d + tail);
  }

  lemma LiteralLengthPair(x: Octet, tail: Text)
    requires LiteralLength(tail).Some?
    ensures LiteralLength([BACKSLASH, x] + tail) == Some(2 + LiteralLength(tail).value)
  {
    hide LiteralLength;
    var s := [BACKSLASH, x] + tail;
    LiteralLengthSkips(s);
    assert s[2..] == tail;
  }

  lemma LiteralLengthSkips(s: Text)
    requires |s| >= 2 && s[0] == BACKSLASH
    ensures var n := LiteralLength(s[2..]); LiteralLength(s) == if n.Some? then Some(2 + n.value) else None
  {
  }

  lemma {:induction false} LiteralLengthPlain(p: Text, tail: Text)
    requires LiteralLength(tail).Some? && forall i :: 0 <= i < |p| ==> p[i] != QUOTE && p[i] != BACKSLASH
    ensures LiteralLength(p + tail) == Some(|p| + LiteralLength(tail).value)
  {
    if p == [] {
      assert p + tail == tail;
    } else {
      assert (p + tail)[1..] == p[1..] + tail;
      LiteralLengthPlain(p[1..], tail);
    }
  }

  lemma MinifyString(s: Text, rest: Text)
    ensures Minify(PrintString(s) + rest) == After(PrintString(s), Minify(rest))
  {
    var p := PrintString(s);
    var all := p + rest;
    LiteralLengthEscape(s, rest);
    assert all[1..] == Escape(s) + [QUOTE] + rest;
    assert all[..|p|] == p && all[|p|..] == rest;
  }

  lemma AfterNothing(r: Option<Text>)
    ensures After([], r) == r
  {
    if r.Some? { assert [] + r.value == r.value; }
  }

  lemma AfterAfter(a: Text, b: Text, r: Option<Text>)
    ensures After(a, After(b, r)) == After(a + b, r)
  {
    if r.Some? { assert a + (b + r.value) == a + b + r.value; }
  }

  /** Minify of the formatted text of a value, at any depth and before any
      rest, is the compact text followed by the minified rest. */
  lemma {:induction false} MinifyPrint(v: Json, depth: nat, depth': nat, rest: Text)
    ensures Minify(Print(v, depth, true) + rest) == After(Print(v, depth', false), Minify(rest))
    decreases v, 0
  {
    match v
    case Null => MinifySolid(NULL_TEXT, rest);
    case Bool(b) => MinifySolid(if b then TRUE_TEXT else FALSE_TEXT, rest);
    case Num(m, e) => MinifySolid(PrintInt(m), rest);
    case Str(s) => MinifyString(s, rest);
    case Arr(items) => MinifyArray(items, depth, depth', rest);
    case Obj(members) => MinifyObject(members, depth, depth', rest);
  }

  lemma {:induction false} MinifyArray(items: seq<Json>, depth: nat, depth': nat, rest: Text)
    ensures Minify(Print(Arr(items), depth, true) + rest) == After(Print(Arr(items), depth', false), Minify(rest))
    decreases items, 2
  {
    hide Minify, PrintItems;
    if items == [] {
      MinifySolid([LBRACKET, RBRACKET], rest);
    } else {
      var body, compact := PrintItems(items, depth + 1, true), PrintItems(items, depth' + 1, false);
      var close := [RBRACKET] + rest;
      assert Print(Arr(items), depth, true) + rest == [LBRACKET] + (body + close);
      MinifySolid([LBRACKET], body + close);
      MinifyItems(items, depth + 1, depth' + 1, close);
      MinifySolid([RBRACKET], rest);
      AfterAfter(compact, [RBRACKET], Minify(rest));
      AfterAfter([LBRACKET], compact + [RBRACKET], Minify(rest));
      assert [LBRACKET] + (compact + [RBRACKET]) == Print(Arr(items), depth', false);
    }
  }

  lemma {:induction false} MinifyItems(items: seq<Json>, depth: nat, depth': nat, rest: Text)
    requires items != []
    ensures Minify(PrintItems(items, depth, true) + rest) == After(PrintItems(items, depth', false), Minify(rest))
    decreases items, 1
  {
    hide Minify, Print;
    var first, first' := Print(items[0], depth, true), Print(items[0], depth', false);
    if |items| == 1 {
      MinifyPrint(items[0], depth, depth', rest);
      assert PrintItems(items, depth, true) == first && PrintItems(items, depth', false) == first';
    } else {
      var more, more' := PrintItems(items[1..], depth, true), PrintItems(items[1..], depth', false);
      var tail := more + rest;
      assert PrintItems(items, depth, true) + rest == first + ([COMMA] + ([32] + tail));
      MinifyPrint(items[0], depth, depth', [COMMA] + ([32] + tail));
      MinifySolid([COMMA], [32] + tail);
      MinifyBlanks([32], tail);
      MinifyItems(items[1..], depth, depth', rest);
      AfterAfter([COMMA], more', Minify(rest));
      AfterAfter(first', [COMMA] + more', Minify(rest));
      assert first' + ([COMMA] + more') == PrintItems(items, depth', false);
    }
  }

  lemma {:induction false} MinifyObject(members: seq<Member>, depth: nat, depth': nat, rest: Text)
    ensures Minify(Print(Obj(members), depth, true) + rest) == After(Print(Obj(members), depth', false), Minify(rest))
    decreases members, 2
  {
    hide Minify, PrintMembers;
    var close := [RBRACE] + rest;
    if members == [] {
      assert Print(Obj(members), depth, true) + rest == [LBRACE] + ([10] + Tabs(depth - 1) + close);
      MinifySolid([LBRACE], [10] + Tabs(depth - 1) + close);
      MinifyBlanks([10] + Tabs(depth - 1), close);
      MinifySolid([RBRACE], rest);
      AfterAfter([LBRACE], [RBRACE], Minify(rest));
      assert Print(Obj(members), depth', false) == [LBRACE] + [RBRACE];
    } else {
      var body, compact := PrintMembers(members, depth + 1, true), PrintMembers(members, depth' + 1, false);
      var end := Tabs(depth) + close;
      assert Print(Obj(members), depth, true) + rest == [LBRACE] + ([10] + (body + end));
      MinifySolid([LBRACE], [10] + (body + end));
      MinifyBlanks([10], body + end);
      MinifyMembers(members, depth + 1, depth' + 1, end);
      MinifyBlanks(Tabs(depth), close);
      MinifySolid([RBRACE], rest);
      AfterAfter(compact, [RBRACE], Minify(rest));
      AfterAfter([LBRACE], compact + [RBRACE], Minify(rest));
      assert [LBRACE] + (compact + [RBRACE]) == Print(Obj(members), depth', false);
    }
  }

  lemma MinifyHead(name: Text, depth: nat, depth': nat, s: Text)
    ensures Minify(MemberHead(name, depth, true) + s) == After(MemberHead(name, depth', false), Minify(s))
  {
    hide Minify, PrintString;
    var p := PrintString(name);
    assert MemberHead(name, depth, true) + s == Tabs(depth) + (p + ([COLON] + ([9] + s)));
    MinifyBlanks(Tabs(depth), p + ([COLON] + ([9] + s)));
    MinifyString(name, [COLON] + ([9] + s));
    MinifySolid([COLON], [9] + s);
    MinifyBlanks([9], s);
    AfterAfter(p, [COLON], Minify(s));
    assert MemberHead(name, depth', false) == p + [COLON];
  }

  lemma {:induction false} MinifyMembers(members: seq<Member>, depth: nat, depth': nat, rest: Text)
    requires members != []
    ensures Minify(PrintMembers(members, depth, true) + rest) == After(PrintMembers(members, depth', false), Minify(rest))
    decreases members, 1
  {
    hide Minify, Print, MemberHead;
    var m := members[0];
    var h, h' := MemberHead(m.name, depth, true), MemberHead(m.name, depth', false);
    var first, first' := Print(m.value, depth, true), Print(m.value, depth', false);
    if |members| == 1 {
      var tail := [10] + rest;
      assert PrintMembers(members, depth, true) + rest == h + (first + tail);
      MinifyHead(m.name, depth, depth', first + tail);
      MinifyPrint(m.value, depth, depth', tail);
      MinifyBlanks([10], rest);
      AfterAfter(h', first', Minify(rest));
      assert PrintMembers(members, depth', false) == h' + first';
    } else {
      var more, more' := PrintMembers(members[1..], depth, true), PrintMembers(members[1..], depth', false);
      var tail := [COMMA] + ([10] + (more + rest));
      assert PrintMembers(members, depth, true) + rest == h + (first + tail);
      MinifyHead(m.name, depth, depth', first + tail);
      MinifyPrint(m.value, depth, depth', tail);
      MinifySolid([COMMA], [10] + (more + rest));
      MinifyBlanks([10], more + rest);
      MinifyMembers(members[1..], depth, depth', rest);
      AfterAfter([COMMA], more', Minify(rest));
      AfterAfter(first', [COMMA] + more', Minify(rest));
      AfterAfter(h', first' + ([COMMA] + more'), Minify(rest));
      assert PrintMembers(members, depth', false) == h' + (first' + ([COMMA] + more'));
    }
  }

  /** cJSON_Minify(cJSON_Print(v)) is cJSON_PrintUnformatted(v). */
  lemma MinifyFormatted(v: Json)
    ensures Minify(Print(v, 0, true)) == Some(Print(v, 0, false))
  {
    MinifyPrint(v, 0, 0, []);
    assert Print(v, 0, true) + [] == Print(v, 0, true);
    assert Print(v, 0, false) + [] == Print(v, 0, false);
  }

  // ----- The in-place loop -----

  /** The buffer holds `out` below `into`, and from `json` on the unread part of
      the text and its terminator. */
  ghost predicate Moving(buf: array<Byte>, text: Text, json: nat, into: nat, out: Text)
    reads buf
  {
    && |text| < buf.Length && into == |out| <= json <= |text| && buf[|text|] == 0
    && (forall i :: json <= i < |text| ==> buf[i] == text[i])
    && (forall i :: 0 <= i < into ==> buf[i] == out[i])
  }

  /** *into++ = *json++ */
  method MoveByte(buf: array<Byte>, ghost text: Text, json: nat, into: nat, ghost out: Text)
    requires Moving(buf, text, json, into, out) && json < |text|
    modifies buf
    ensures Moving(buf, text, json + 1, into + 1, out + [text[json]])
  {
    buf[into] := buf[json];
  }

  method SkipLineComment(buf: array<Byte>, ghost text: Text, start: nat, ghost into: nat, ghost out: Text)
    returns (json: nat)
    requires start < |text| && Moving(buf, text, start, into, out)
    ensures start < json <= |text| && json == start + 1 + LineLength(text[start + 1..])
  {
    json := start + 1;
    while buf[json] != 0 && buf[json] != 10
      invariant start < json <= |text|
      invariant start + 1 + LineLength(text[start + 1..]) == json + LineLength(text[json..])
      decreases |text| - json
    {
      assert text[json..][1..] == text[json + 1..];
      json := json + 1;
    }
  }

  method SkipComment(buf: array<Byte>, ghost text: Text, start: nat, ghost into: nat, ghost out: Text)
    returns (json: nat)
    requires start < |text| && Moving(buf, text, start, into, out)
    requires CommentLength(text[start + 1..]).Some?
    ensures start < json <= |text| && json == start + 1 + CommentLength(text[start + 1..]).value
  {
    json := start + 1;
    while buf[json] != 0 && !(buf[json] == 42 && buf[json + 1] == 47)
      invariant start < json <= |text| && CommentLength(text[json..]).Some?
      invariant CommentLength(text[start + 1..]).value + start + 1 == CommentLength(text[json..]).value + json
      decreases |text| - json
    {
      assert text[json..][1..] == text[json + 1..];
      json := json + 1;
    }
    json := json + 2;
  }

  lemma LiteralStep(text: Text, json: nat)
    requires json <= |text| && LiteralLength(text[json..]).Some?
    ensures json < |text|
    ensures text[json] == QUOTE ==> LiteralLength(text[json..]) == Some(1)
    ensures text[json] != QUOTE ==>
              var k := if text[json] == BACKSLASH then 2 else 1;
              && json + k <= |text| && LiteralLength(text[json + k..]).Some?
              && LiteralLength(text[json..]).value == k + LiteralLength(text[json + k..]).value
  {
    var s := text[json..];
    assert |s| >= 2 ==> s[2..] == text[json + 2..];
    assert |s| >= 1 ==> s[1..] == text[json + 1..];
  }

  /** Copy a string literal down to `into`. */
  method CopyLiteral(buf: array<Byte>, ghost text: Text, start: nat, to: nat, ghost out: Text)
    returns (json: nat, into: nat)
    requires start < |text| && Moving(buf, text, start, to, out)
    requires text[start] == QUOTE && LiteralLength(text[start + 1..]).Some?
    modifies buf
    ensures start < json == start + 1 + LiteralLength(text[start + 1..]).value <= |text|
    ensures Moving(buf, text, json, into, out + text[start..json])
  {
    hide LiteralLength, Moving;
    json, into := start, to;
    assert out + text[start..json] == out;
    json, into := MoveOn(buf, text, start, json, into, out);
    LiteralStep(text, json);
    while && Peek(buf, text, json, into, out + text[start..json]) != 0
          && Peek(buf, text, json, into, out + text[start..json]) != QUOTE
      invariant start < json < |text| && Moving(buf, text, json, into, out + text[start..json])
      invariant LiteralLength(text[json..]).Some?
      invariant start + 1 + LiteralLength(text[start + 1..]).value == json + LiteralLength(text[json..]).value
      decreases |text| - json
    {
      LiteralStep(text, json);
      if Peek(buf, text, json, into, out + text[start..json]) == BACKSLASH {
        json, into := MoveOn(buf, text, start, json, into, out);
      }
      json, into := MoveOn(buf, text, start, json, into, out);
      LiteralStep(text, json);
    }
    LiteralStep(text, json);
    json, into := MoveOn(buf, text, start, json, into, out);
  }

  /** The byte under `json`. */
  function Peek(buf: array<Byte>, ghost text: Text, json: nat, ghost into: nat, ghost out: Text): (c: Byte)
    requires Moving(buf, text, json, into, out)
    reads buf
    ensures c == At(text, json)
  {
    buf[json]
  }

  method MoveOn(buf: array<Byte>, ghost text: Text, ghost start: nat, json: nat, into: nat, ghost out: Text)
    returns (json': nat, into': nat)
    requires start <= json < |text| && Moving(buf, text, json, into, out + text[start..json])
    modifies buf
    ensures json' == json + 1 && Moving(buf, text, json', into', out + text[start..json'])
  {
    MoveByte(buf, text, json, into, out + text[start..json]);
    assert out + text[start..json] + [text[json]] == out + text[start..json + 1];
    json', into' := json + 1, into + 1;
  }

  /** What Minify does at a position of the text, case by case. */
  lemma MinifyStep(text: Text, json: nat)
    requires json < |text| && Minify(text[json..]).Some?
    ensures var c, d := text[json], At(text, json + 1);
            if Blank(c) then Minify(text[json..]) == Minify(text[json + 1..])
            else if c == 47 && d == 47 then
              Minify(text[json..]) == Minify(text[json + 1 + LineLength(text[json + 1..])..])
            else if c == 47 && d == 42 then
              && CommentLength(text[json + 1..]).Some?
              && Minify(text[json..]) == Minify(text[json + 1 + CommentLength(text[json + 1..]).value..])
            else if c == QUOTE then
              && LiteralLength(text[json + 1..]).Some?
              && var e := json + 1 + LiteralLength(text[json + 1..]).value;
                 Minify(text[json..]) == After(text[json..e], Minify(text[e..]))
            else Minify(text[json..]) == After([c], Minify(text[json + 1..]))
  {
    hide LineLength, CommentLength, LiteralLength;
    var s := text[json..];
    assert s[1..] == text[json + 1..] && At(s, 1) == At(text, json + 1);
    forall k | 1 <= k <= |s|
      ensures s[k..] == text[json + k..] && s[..k] == text[json..json + k]
    {
    }
  }

  /** cJSON_Minify: the buffer ends up holding the minified text and its
      terminator. */
  method MinifyInPlace(buf: array<Byte>, ghost text: Text) returns (into: nat)
    requires Moving(buf, text, 0, 0, []) && Minify(text).Some?
    modifies buf
    ensures into < buf.Length && buf[..into] == Minify(text).value && buf[into] == 0
  {
    hide Minify, LineLength, CommentLength, LiteralLength;
    var json: nat := 0;
    into := 0;
    ghost var out: Text := [];   // what has been written
    assert text[0..] == text;
    AfterNothing(Minify(text));
    while buf[json] != 0
      invariant Moving(buf, text, json, into, out)
      invariant Minify(text[json..]).Some? && Minify(text) == After(out, Minify(text[json..]))
      decreases |text| - json
    {
      MinifyStep(text, json);
      if Blank(buf[json]) {
        json := json + 1;
      } else if buf[json] == 47 && buf[json + 1] == 47 {
        json := SkipLineComment(buf, text, json, into, out);
      } else if buf[json] == 47 && buf[json + 1] == 42 {
        json := SkipComment(buf, text, json, into, out);
      } else if buf[json] == QUOTE {
        ghost var start := json;
        json, into := CopyLiteral(buf, text, json, into, out);
        AfterAfter(out, text[start..json], Minify(text[json..]));
        out := out + text[start..json];
      } else {
        AfterAfter(out, [text[json]], Minify(text[json + 1..]));
        MoveByte(buf, text, json, into, out);
        out := out + [text[json]];
        json, into := json + 1, into + 1;
      }
    }
    MinifyEnd(text, json);
    buf[into] := 0;
    assert buf[..into] == out + [];
  }

  lemma MinifyEnd(text: Text, json: nat)
    requires json == |text|
    ensures Minify(text[json..]) == Some([])
  {
  }
}
