/** The printer of application/http_client/cJSON.c (compact and formatted) as
    functions of the value, and the proof that the parser inverts it. */
module JsonPrint {
  import opened JsonText

  // ----- Printing -----

  function HexLetter(h: int): Octet
    requires 0 <= h < 16
  {
    if h < 10 then 48 + h else 87 + h
  }

  /** One byte of a string as print_string_ptr writes it. */
  function EscapeOctet(c: Octet): (r: Text)
    ensures 1 <= |r| <= 6
  {
    if c > 31 && c != QUOTE && c != BACKSLASH then [c]
    else if c == QUOTE || c == BACKSLASH then [BACKSLASH, c]
    else if c == 8 then [BACKSLASH, 98]
    else if c == 12 then [BACKSLASH, 102]
    else if c == 10 then [BACKSLASH, 110]
    else if c == 13 then [BACKSLASH, 114]
    else if c == 9 then [BACKSLASH, 116]
    else [BACKSLASH, LETTER_U, 48, 48, 48 + c as int / 16, HexLetter(c as int % 16)]   // u%04x
  }

  function Escape(s: Text): Text {
    if s == [] then [] else EscapeOctet(s[0]) + Escape(s[1..])
  }

  function PrintString(s: Text): Text {
    [QUOTE] + Escape(s) + [QUOTE]
  }

  /** Decimal digits, most significant first. */
  function Decimal(n: nat): (r: Text)
    ensures |r| >= 1 && forall i :: 0 <= i < |r| ==> IsDigit(r[i])
    ensures n > 0 ==> r[0] != 48
    ensures n == 0 ==> r == [48]
  {
    if n < 10 then [48 + n] else Decimal(n / 10) + [48 + n % 10]
  }

  /** sprintf("%d"). */
  function PrintInt(n: int): Text {
    if n < 0 then [MINUS] + Decimal(-n) else Decimal(n)
  }

  function Tabs(n: int): (r: Text)
    ensures |r| == if n < 0 then 0 else n
    ensures forall i :: 0 <= i < |r| ==> r[i] == 9
    decreases if n < 0 then 0 else n
  {
    if n <= 0 then [] else [9] + Tabs(n - 1)
  }

  function Print(v: Json, depth: nat, fmt: bool): (r: Text)
    decreases v, 0
  {
    match v
    case Null => NULL_TEXT
    case Bool(b) => if b then TRUE_TEXT else FALSE_TEXT
    case Num(m, e) => PrintInt(m)
    case Str(s) => PrintString(s)
    case Arr(items) =>
      if items == [] then [LBRACKET, RBRACKET]
      else [LBRACKET] + PrintItems(items, depth + 1, fmt) + [RBRACKET]
    case Obj(members) =>
      if members == [] then [LBRACE] + (if fmt then [10] + Tabs(depth - 1) else []) + [RBRACE]
      else [LBRACE] + (if fmt then [10] else []) + PrintMembers(members, depth + 1, fmt)
           + (if fmt then Tabs(depth) else []) + [RBRACE]
  }

  function PrintItems(items: seq<Json>, depth: nat, fmt: bool): Text
    requires items != []
    decreases items, 1
  {
    Print(items[0], depth, fmt)
    + (if |items| == 1 then [] else ItemGap(fmt) + PrintItems(items[1..], depth, fmt))
  }

  function ItemGap(fmt: bool): Text {
    if fmt then [COMMA, 32] else [COMMA]
  }

  function PrintMembers(members: seq<Member>, depth: nat, fmt: bool): Text
    requires members != []
    decreases members, 1
  {
    MemberHead(members[0].name, depth, fmt) + Print(members[0].value, depth, fmt)
    + (if |members| == 1 then LineEnd(fmt) else [COMMA] + LineEnd(fmt) + PrintMembers(members[1..], depth, fmt))
  }

  function LineEnd(fmt: bool): Text {
    if fmt then [10] else []
  }

  function MemberHead(name: Text, depth: nat, fmt: bool): Text {
    (if fmt then Tabs(depth) else []) + PrintString(name) + (if fmt then [COLON, 9] else [COLON])
  }

  /** Values whose numbers take the "%d" path of print_number. */
  predicate Printable(v: Json)
    decreases v
  {
    match v
    case Num(m, e) => e == 0 && -0x8000_0000 <= m < 0x8000_0000
    case Arr(items) => forall i :: 0 <= i < |items| ==> Printable(items[i])
    case Obj(members) => forall i :: 0 <= i < |members| ==> Printable(members[i].value)
    case _ => true
  }

  // ----- Strings round trip -----

  lemma {:induction false} CharsInverse(s: Text, rest: Text)
    ensures ParseChars(Escape(s) + [QUOTE] + rest) == Ok(s, rest)
  {
    var all := Escape(s) + [QUOTE] + rest;
    if s == [] {
      assert all[1..] == rest;
    } else {
      var tail := Escape(s[1..]) + [QUOTE] + rest;
      hide ParseChars, EscapeOctet;
      assert all == EscapeOctet(s[0]) + tail;
      CharsInverse(s[1..], rest);
      OctetInverse(s[0], tail);
      assert [s[0]] + s[1..] == s;
    }
  }

  lemma CharPlain(c: Octet, t: Text)
    requires c != QUOTE && c != BACKSLASH
    ensures ParseChars([c] + t) == Prepend([c], ParseChars(t))
  {
    assert ([c] + t)[1..] == t;
  }

  lemma CharSimple(x: Octet, t: Text)
    requires x != LETTER_U
    ensures ParseChars([BACKSLASH, x] + t) == Prepend([SimpleEscape(x)], ParseChars(t))
  {
    assert ([BACKSLASH, x] + t)[2..] == t;
  }

  lemma CharUnicode(u: Text, bytes: Text, t: Text)
    requires UnicodeEscape(u) == Ok(bytes, t)
    ensures ParseChars([BACKSLASH, LETTER_U] + u) == Prepend(bytes, ParseChars(t))
  {
    hide UnicodeEscape;
    assert ([BACKSLASH, LETTER_U] + u)[2..] == u;
  }

  /** A byte is printed as itself, as a two-byte escape, or as \u00xx. */
  lemma EscapeShape(c: Octet)
    ensures var e := EscapeOctet(c);
            || (e == [c] && c != QUOTE && c != BACKSLASH)
            || (|e| == 2 && e == [BACKSLASH, e[1]] && e[1] != LETTER_U && SimpleEscape(e[1]) == c)
            || (|e| == 6 && c < 32 && e == [BACKSLASH, LETTER_U] + ControlDigits(c))
  {
  }

  /** The parser reads one printed byte back. */
  lemma OctetInverse(c: Octet, tail: Text)
    ensures ParseChars(EscapeOctet(c) + tail) == Prepend([c], ParseChars(tail))
  {
    hide ParseChars, EscapeOctet;
    EscapeShape(c);
    var e := EscapeOctet(c);
    if |e| == 1 {
      CharPlain(c, tail);
    } else if |e| == 2 {
      CharSimple(e[1], tail);
    } else {
      ControlInverse(c, tail);
      CharUnicode(ControlDigits(c) + tail, [c], tail);
      assert e + tail == [BACKSLASH, LETTER_U] + (ControlDigits(c) + tail);
    }
  }

  function ControlDigits(c: Octet): Text
    requires c < 32
  {
    [48, 48, 48 + c as int / 16, HexLetter(c as int % 16)]
  }

  lemma ControlInverse(c: Octet, tail: Text)
    requires c < 32
    ensures UnicodeEscape(ControlDigits(c) + tail) == Ok([c], tail)
  {
    var d := ControlDigits(c);
    var u := d + tail;
    assert u[4..] == tail && u[0] == d[0] && u[1] == d[1] && u[2] == d[2] && u[3] == d[3];
    assert HexDigit(u[2]) == c as int / 16;
    assert HexDigit(u[3]) == c as int % 16;
  }

  lemma StringInverse(s: Text, rest: Text)
    ensures ParseString(PrintString(s) + rest) == Ok(s, rest)
  {
    CharsInverse(s, rest);
    hide ParseChars, Escape;
    var all := PrintString(s) + rest;
    assert all[0] == QUOTE;
    assert all[1..] == Escape(s) + [QUOTE] + rest;
  }

  // ----- Numbers round trip -----

  /** Text that cannot be taken for more of a number. */
  predicate NumberEnds(rest: Text) {
    && !IsDigit(At(rest, 0)) && At(rest, 0) != 101 && At(rest, 0) != 69
    && !(At(rest, 0) == 46 && IsDigit(At(rest, 1)))
  }

  /** Value of a digit string after a prefix of value `acc`. */
  function Value(ds: Text, acc: nat): nat
    requires forall i :: 0 <= i < |ds| ==> IsDigit(ds[i])
  {
    if ds == [] then acc else assert IsDigit(ds[0]); Value(ds[1..], acc * 10 + (ds[0] as int - 48))
  }

  lemma {:induction false} DigitsRead(ds: Text, acc: nat, rest: Text)
    requires forall i :: 0 <= i < |ds| ==> IsDigit(ds[i])
    requires !IsDigit(At(rest, 0))
    ensures Digits(ds + rest, acc) == (Value(ds, acc), rest)
  {
    if ds == [] {
      assert ds + rest == rest;
    } else {
      assert (ds + rest)[1..] == ds[1..] + rest;
      DigitsRead(ds[1..], acc * 10 + (ds[0] as int - 48), rest);
    }
  }

  lemma {:induction false} ValueSnoc(ds: Text, d: Octet, acc: nat)
    requires IsDigit(d) && forall i :: 0 <= i < |ds| ==> IsDigit(ds[i])
    ensures Value(ds + [d], acc) == Value(ds, acc) * 10 + (d as int - 48)
  {
    if ds == [] {
      assert (ds + [d])[1..] == [];
    } else {
      assert (ds + [d])[1..] == ds[1..] + [d];
      ValueSnoc(ds[1..], d, acc * 10 + (ds[0] as int - 48));
    }
  }

  lemma {:induction false} DecimalValue(n: nat)
    ensures Value(Decimal(n), 0) == n
  {
    if n >= 10 {
      DecimalValue(n / 10);
      ValueSnoc(Decimal(n / 10), 48 + n % 10, 0);
    } else {
      assert Value([48 + n], 0) == Value([], n);
    }
  }

  lemma NumberInverse(n: int, rest: Text)
    requires NumberEnds(rest)
    ensures ParseNumber(PrintInt(n) + rest) == Ok(Num(n, 0), rest)
  {
    var m: nat := if n < 0 then -n else n;
    var s := PrintInt(n) + rest;
    var s1 := if n < 0 then s[1..] else s;
    assert s1 == Decimal(m) + rest;
    if m == 0 {
      assert s1[1..] == rest;
    } else {
      DecimalValue(m);
      DigitsRead(Decimal(m), 0, rest);
    }
  }

  // ----- Values round trip -----

  /** A printed value starts with a byte the parser does not skip and that is
      none of the closing brackets. */
  lemma PrintStart(v: Json, depth: nat, fmt: bool)
    ensures var p := Print(v, depth, fmt);
            p != [] && p[0] > 32 && p[0] != RBRACKET && p[0] != RBRACE
  {
  }

  lemma SkipNone(s: Text)
    requires s != [] && s[0] > 32
    ensures Skip(s) == s
  {
  }

  lemma {:induction false} SkipTabs(n: int, s: Text)
    ensures Skip(Tabs(n) + s) == Skip(s)
    decreases if n < 0 then 0 else n
  {
    if n <= 0 {
      assert Tabs(n) + s == s;
    } else {
      assert (Tabs(n) + s)[1..] == Tabs(n - 1) + s;
      SkipTabs(n - 1, s);
    }
  }

  /** Parsing the printed text of a value, whatever follows it, gives the value
      back and leaves exactly what follows. */
  lemma {:induction false} PrintParse(v: Json, depth: nat, fmt: bool, rest: Text)
    requires Printable(v) && NumberEnds(rest)
    ensures ParseValue(Print(v, depth, fmt) + rest) == Ok(v, rest)
    decreases v, 0
  {
    var s := Print(v, depth, fmt) + rest;
    match v
    case Null => assert s[4..] == rest;
    case Bool(b) => BoolParse(b, rest);
    case Num(m, e) => NumberInverse(m, rest); NumberStart(m, rest);
    case Str(t) => StringInverse(t, rest);
    case Arr(items) => ArrayParse(items, depth, fmt, rest);
    case Obj(members) => ObjectParse(members, depth, fmt, rest);
  }

  lemma BoolParse(b: bool, rest: Text)
    ensures ParseValue((if b then TRUE_TEXT else FALSE_TEXT) + rest) == Ok(Bool(b), rest)
  {
    var t := if b then TRUE_TEXT else FALSE_TEXT;
    var s := t + rest;
    assert s[0] == t[0] && s[..|t|] == t && s[|t|..] == rest;
    NotPrefix(NULL_TEXT, s);
    if b { NotPrefix(FALSE_TEXT, s); }
  }

  lemma NotPrefix(p: Text, s: Text)
    requires p != [] && s != [] && p[0] != s[0]
    ensures !(p <= s)
  {
  }

  lemma NumberStart(m: int, rest: Text)
    ensures var s := PrintInt(m) + rest; At(s, 0) == MINUS || IsDigit(At(s, 0))
  {
  }

  lemma {:induction false} ArrayParse(items: seq<Json>, depth: nat, fmt: bool, rest: Text)
    requires Printable(Arr(items))
    ensures ParseValue(Print(Arr(items), depth, fmt) + rest) == Ok(Arr(items), rest)
    decreases items, 2
  {
    var s := Print(Arr(items), depth, fmt) + rest;
    hide ParseValue, ParseElements, PrintItems;
    if items == [] {
      var close := [RBRACKET] + rest;
      assert s[1..] == close;
      SkipNone(close);
      ArrayStep(s, close);
      assert close[1..] == rest;
    } else {
      var body := PrintItems(items, depth + 1, fmt) + [RBRACKET] + rest;
      assert s[1..] == body;
      ItemsStart(items, depth + 1, fmt, [RBRACKET] + rest);
      assert PrintItems(items, depth + 1, fmt) + ([RBRACKET] + rest) == body;
      ItemsParse(items, depth + 1, fmt, rest);
      ArrayStep(s, body);
    }
  }

  /** parse_array on an opening bracket. */
  lemma ArrayStep(s: Text, t: Text)
    requires s != [] && s[0] == LBRACKET && Skip(s[1..]) == t
    ensures At(t, 0) == RBRACKET ==> ParseValue(s) == Ok(Arr([]), t[1..])
    ensures forall vs, rest :: At(t, 0) != RBRACKET && ParseElements(t) == Ok(vs, rest) ==>
              ParseValue(s) == Ok(Arr(vs), rest)
  {
    NotPrefix(NULL_TEXT, s);
    NotPrefix(FALSE_TEXT, s);
    NotPrefix(TRUE_TEXT, s);
  }

  /** The items begin with the first one, which is neither blank nor a bracket. */
  lemma ItemsStart(items: seq<Json>, depth: nat, fmt: bool, tail: Text)
    requires items != []
    ensures var body := PrintItems(items, depth, fmt) + tail; Skip(body) == body && At(body, 0) != RBRACKET
  {
    hide Print;
    PrintStart(items[0], depth, fmt);
    SkipNone(PrintItems(items, depth, fmt) + tail);
  }

  /** One turn of the loops of parse_array and parse_object. */
  lemma ElementsStep(s: Text, v: Json, r: Text)
    requires ParseValue(Skip(s)) == Ok(v, r)
    ensures At(Skip(r), 0) == RBRACKET ==> ParseElements(s) == Ok([v], Skip(r)[1..])
    ensures forall vs, rest :: At(Skip(r), 0) == COMMA && ParseElements(Skip(r)[1..]) == Ok(vs, rest) ==>
              ParseElements(s) == Ok([v] + vs, rest)
  {
  }

  lemma {:induction false} ItemsParse(items: seq<Json>, depth: nat, fmt: bool, rest: Text)
    requires items != [] && forall i :: 0 <= i < |items| ==> Printable(items[i])
    ensures ParseElements(PrintItems(items, depth, fmt) + [RBRACKET] + rest) == Ok(items, rest)
    decreases items, 1
  {
    hide ParseElements, ParseValue, Print;
    var first := Print(items[0], depth, fmt);
    var s := PrintItems(items, depth, fmt) + [RBRACKET] + rest;
    PrintStart(items[0], depth, fmt);
    SkipNone(s);
    if |items| == 1 {
      var tail := [RBRACKET] + rest;
      assert s == first + tail;
      PrintParse(items[0], depth, fmt, tail);
      SkipNone(tail);
      ElementsStep(s, items[0], tail);
      assert tail[1..] == rest;
      assert [items[0]] == items;
    } else {
      var next := PrintItems(items[1..], depth, fmt) + [RBRACKET] + rest;
      var tail := ItemGap(fmt) + next;
      assert s == first + tail;
      PrintParse(items[0], depth, fmt, tail);
      SkipNone(tail);
      ElementsStep(s, items[0], tail);
      ItemsParse(items[1..], depth, fmt, rest);
      SkipGap(next, fmt);
      assert [items[0]] + items[1..] == items;
    }
  }

  /** The blank after a comma is skipped again by the next element. */
  lemma SkipGap(next: Text, fmt: bool)
    ensures ParseElements((ItemGap(fmt) + next)[1..]) == ParseElements(next)
  {
    var t := (ItemGap(fmt) + next)[1..];
    if fmt {
      assert t == [32] + next && t[1..] == next;
    } else {
      assert t == next;
    }
  }

  /** parse_object on an opening brace. */
  lemma ObjectStep(s: Text, t: Text)
    requires s != [] && s[0] == LBRACE && Skip(s[1..]) == t
    ensures At(t, 0) == RBRACE ==> ParseValue(s) == Ok(Obj([]), t[1..])
    ensures forall ms, rest :: At(t, 0) != RBRACE && ParseMembers(t) == Ok(ms, rest) ==>
              ParseValue(s) == Ok(Obj(ms), rest)
  {
    NotPrefix(NULL_TEXT, s);
    NotPrefix(FALSE_TEXT, s);
    NotPrefix(TRUE_TEXT, s);
  }

  lemma {:induction false} ObjectParse(members: seq<Member>, depth: nat, fmt: bool, rest: Text)
    requires Printable(Obj(members))
    ensures ParseValue(Print(Obj(members), depth, fmt) + rest) == Ok(Obj(members), rest)
    decreases members, 2
  {
    hide ParseValue, ParseMembers, PrintMembers;
    var s := Print(Obj(members), depth, fmt) + rest;
    var close := [RBRACE] + rest;
    if members == [] {
      EmptyObjectParse(depth, fmt, rest);
    } else {
      var indent := if fmt then depth else 0;
      var end := Tabs(indent) + close;
      var body := PrintMembers(members, depth + 1, fmt) + end;
      assert s[1..] == (if fmt then [10] + Tabs(0) else []) + body;
      SkipLine(body, 0, fmt);
      SkipTabs(indent, close);
      SkipNone(close);
      MembersParse(members, depth + 1, fmt, end, rest);
      MembersStart(members, depth + 1, fmt, body);
      ObjectStep(s, Skip(body));
    }
  }

  lemma EmptyObjectParse(depth: nat, fmt: bool, rest: Text)
    ensures ParseValue(Print(Obj([]), depth, fmt) + rest) == Ok(Obj([]), rest)
  {
    hide ParseValue, ParseMembers, PrintMembers;
    var s := Print(Obj([]), depth, fmt) + rest;
    var close := [RBRACE] + rest;
    SkipLine(close, depth - 1, fmt);
    assert s[1..] == (if fmt then [10] + Tabs(depth - 1) else []) + close;
    SkipNone(close);
    ObjectStep(s, close);
    assert close[1..] == rest;
  }

  lemma SkipLine(s: Text, n: int, fmt: bool)
    ensures Skip((if fmt then [10] + Tabs(n) else []) + s) == Skip(s)
  {
    if fmt {
      assert ([10] + Tabs(n) + s)[1..] == Tabs(n) + s;
      SkipTabs(n, s);
    } else {
      assert [] + s == s;
    }
  }

  /** White space before a name is skipped, so parsing may start after it. */
  lemma MembersStart(members: seq<Member>, depth: nat, fmt: bool, body: Text)
    requires members != [] && PrintMembers(members, depth, fmt) <= body
    ensures At(Skip(body), 0) == QUOTE
    ensures ParseMembers(Skip(body)) == ParseMembers(body)
  {
    hide ParseMembers, Print, PrintString;
    var tabs := Tabs(if fmt then depth else 0);
    var p := PrintMembers(members, depth, fmt);
    QuoteFirst(members[0].name);
    assert p[..|tabs|] == tabs && p[|tabs|] == QUOTE;
    var s := body[|tabs|..];
    assert body == tabs + s && s[0] == QUOTE;
    SkipTabs(if fmt then depth else 0, s);
    SkipNone(s);
    MembersSkip(body);
  }

  lemma QuoteFirst(name: Text)
    ensures PrintString(name) != [] && PrintString(name)[0] == QUOTE
  {
  }

  lemma MembersSkip(s: Text)
    requires Skip(s) != []
    ensures ParseMembers(Skip(s)) == ParseMembers(s)
  {
    SkipNone(Skip(s));
  }

  lemma MembersStep(s: Text, name: Text, c: Text, v: Json, r: Text)
    requires ParseString(Skip(s)) == Ok(name, c) && At(Skip(c), 0) == COLON
    requires ParseValue(Skip(Skip(c)[1..])) == Ok(v, r)
    ensures At(Skip(r), 0) == RBRACE ==> ParseMembers(s) == Ok([Member(name, v)], Skip(r)[1..])
    ensures forall ms, rest :: At(Skip(r), 0) == COMMA && ParseMembers(Skip(r)[1..]) == Ok(ms, rest) ==>
              ParseMembers(s) == Ok([Member(name, v)] + ms, rest)
  {
  }

  /** What the printer writes after a member's value. */
  function MemberTail(members: seq<Member>, depth: nat, fmt: bool): Text
    requires members != []
  {
    if |members| == 1 then LineEnd(fmt) else [COMMA] + LineEnd(fmt) + PrintMembers(members[1..], depth, fmt)
  }

  /** A printed member is read back, given that its value is. */
  lemma MemberParse(m: Member, depth: nat, fmt: bool, tail: Text)
    requires ParseValue(Print(m.value, depth, fmt) + tail) == Ok(m.value, tail)
    ensures var s := MemberHead(m.name, depth, fmt) + (Print(m.value, depth, fmt) + tail);
            && (At(Skip(tail), 0) == RBRACE ==> ParseMembers(s) == Ok([m], Skip(tail)[1..]))
            && (forall ms, rest :: At(Skip(tail), 0) == COMMA && ParseMembers(Skip(tail)[1..]) == Ok(ms, rest) ==>
                  ParseMembers(s) == Ok([m] + ms, rest))
  {
    hide ParseMembers, ParseValue, ParseString, Print, MemberHead;
    var first := Print(m.value, depth, fmt);
    var sep := if fmt then [COLON, 9] else [COLON];
    HeadParse(m.name, depth, fmt, first + tail);
    PrintStart(m.value, depth, fmt);
    SkipColon(first + tail, fmt);
    MembersStep(MemberHead(m.name, depth, fmt) + (first + tail), m.name, sep + (first + tail), m.value, tail);
    assert Member(m.name, m.value) == m;
  }

  lemma MembersLayout(members: seq<Member>, depth: nat, fmt: bool, end: Text, s: Text, tail: Text)
    requires members != [] && end != [] && end[0] in {9, RBRACE}
    requires s == PrintMembers(members, depth, fmt) + end && tail == MemberTail(members, depth, fmt) + end
    ensures s == MemberHead(members[0].name, depth, fmt) + (Print(members[0].value, depth, fmt) + tail)
    ensures tail != [] && NumberEnds(tail)
    ensures |members| > 1 ==> tail[0] == COMMA
  {
    hide MemberHead, Print;
    var h, p, t := MemberHead(members[0].name, depth, fmt), Print(members[0].value, depth, fmt), MemberTail(members, depth, fmt);
    assert PrintMembers(members, depth, fmt) == h + p + t;
    Regroup(h, p, t, end);
    assert t == [] ==> tail == end;
    assert t != [] ==> tail[0] == t[0];
  }

  lemma Regroup(a: Text, b: Text, c: Text, d: Text)
    ensures a + b + c + d == a + (b + (c + d))
  {
  }

  lemma TailLayout(members: seq<Member>, depth: nat, fmt: bool, end: Text)
    requires |members| > 1
    ensures (MemberTail(members, depth, fmt) + end)[1..]
            == LineEnd(fmt) + (PrintMembers(members[1..], depth, fmt) + end)
  {
    hide PrintMembers;
  }

  /** The printed members, closed by indentation and a brace, are read back. */
  lemma {:induction false} MembersParse(members: seq<Member>, depth: nat, fmt: bool, end: Text, rest: Text)
    requires members != [] && forall i :: 0 <= i < |members| ==> Printable(members[i].value)
    requires end != [] && end[0] in {9, RBRACE} && Skip(end) == [RBRACE] + rest
    ensures ParseMembers(PrintMembers(members, depth, fmt) + end) == Ok(members, rest)
    decreases members, 1
  {
    hide ParseMembers, ParseValue, ParseString, Print, MemberHead, PrintMembers, MemberTail;
    var s := PrintMembers(members, depth, fmt) + end;
    var m, tail := members[0], MemberTail(members, depth, fmt) + end;
    MembersLayout(members, depth, fmt, end, s, tail);
    PrintParse(m.value, depth, fmt, tail);
    MemberParse(m, depth, fmt, tail);
    if |members| == 1 {
      assert [m] == members;
      LastTail(members, depth, fmt, end, rest);
    } else {
      var next := PrintMembers(members[1..], depth, fmt) + end;
      SkipNone(tail);
      TailLayout(members, depth, fmt, end);
      MembersParse(members[1..], depth, fmt, end, rest);
      NextLine(next, fmt);
      assert [m] + members[1..] == members;
    }
  }

  lemma LastTail(members: seq<Member>, depth: nat, fmt: bool, end: Text, rest: Text)
    requires |members| == 1 && Skip(end) == [RBRACE] + rest
    ensures var tail := MemberTail(members, depth, fmt) + end;
            Skip(tail) == [RBRACE] + rest && Skip(tail)[1..] == rest
  {
    assert LineEnd(fmt) + end == (if fmt then [10] + Tabs(0) else []) + end;
    SkipLine(end, 0, fmt);
    assert ([RBRACE] + rest)[1..] == rest;
  }

  lemma NextLine(next: Text, fmt: bool)
    ensures ParseMembers(LineEnd(fmt) + next) == ParseMembers(next)
  {
    assert LineEnd(fmt) + next == (if fmt then [10] + Tabs(0) else []) + next;
    SkipLine(next, 0, fmt);
  }

  lemma SkipColon(s: Text, fmt: bool)
    requires s != [] && s[0] > 32
    ensures Skip((if fmt then [COLON, 9] else [COLON])[1..] + s) == s
  {
    SkipNone(s);
    if fmt { assert ([COLON, 9][1..] + s)[1..] == s; } else { assert [COLON][1..] + s == s; }
  }

  /** Indentation, name and colon are read back as the name. */
  lemma HeadParse(name: Text, depth: nat, fmt: bool, s: Text)
    ensures var sep := if fmt then [COLON, 9] else [COLON];
            var k := ParseString(Skip(MemberHead(name, depth, fmt) + s));
            k == Ok(name, sep + s) && Skip(sep + s) == sep + s && (sep + s)[1..] == sep[1..] + s
  {
    var sep := if fmt then [COLON, 9] else [COLON];
    var q := PrintString(name) + (sep + s);
    assert MemberHead(name, depth, fmt) + s == Tabs(if fmt then depth else 0) + q;
    SkipTabs(if fmt then depth else 0, q);
    SkipNone(q);
    StringInverse(name, sep + s);
    SkipNone(sep + s);
  }

  /** cJSON_ParseWithOpts of cJSON_Print or cJSON_PrintUnformatted. */
  lemma ParsePrinted(v: Json, fmt: bool, requireEnd: bool)
    requires Printable(v)
    ensures Parse(Print(v, 0, fmt), requireEnd) == Ok(v, [])
  {
    hide ParseValue;
    var s := Print(v, 0, fmt);
    PrintStart(v, 0, fmt);
    SkipNone(s);
    PrintParse(v, 0, fmt, []);
    assert s + [] == s;
  }
}
