/** String literals of application/http_client/cJSON.c: parse_string on every
    well-formed literal of section 7 of RFC 8259, its UTF-8 output (section 3 of
    RFC 3629), and the two passes of parse_string and print_string_ptr over
    heap buffers whose size the first pass computes. */
module JsonStrings {
  import opened JsonText
  import opened JsonPrint
  import opened Bytes

  // ----- UTF-8 -----

  predicate Continuation(b: int) {
    0x80 <= b < 0xC0
  }

  /** The code point a UTF-8 sequence stands for, read off the bit layout of
      section 3 of RFC 3629; -1 for anything that is not a shortest form. */
  function Utf8Decode(b: Text): int {
    if |b| == 1 && b[0] < 0x80 then b[0]
    else if |b| == 2 && 0xC2 <= b[0] < 0xE0 && Continuation(b[1]) then
      (b[0] as int - 0xC0) * 64 + (b[1] as int - 0x80)
    else if |b| == 3 && 0xE0 <= b[0] < 0xF0 && Continuation(b[1]) && Continuation(b[2])
            && (b[0] == 0xE0 ==> b[1] >= 0xA0) then
      (b[0] as int - 0xE0) * 4096 + (b[1] as int - 0x80) * 64 + (b[2] as int - 0x80)
    else if |b| == 4 && 0xF0 <= b[0] < 0xF5 && Continuation(b[1]) && Continuation(b[2]) && Continuation(b[3])
            && (b[0] == 0xF0 ==> b[1] >= 0x90) then
      (b[0] as int - 0xF0) * 262144 + (b[1] as int - 0x80) * 4096 + (b[2] as int - 0x80) * 64 + (b[3] as int - 0x80)
    else -1
  }

  /** What parse_string stores is the shortest UTF-8 form of the code point. */
  lemma Utf8Inverse(u: int)
    requires 0 < u < 0x11_0000
    ensures Utf8Decode(Utf8(u)) == u
  {
    assert u == u / 64 * 64 + u % 64;
    assert u / 64 == u / 64 / 64 * 64 + u / 64 % 64 && u / 64 / 64 == u / 4096;
    assert u / 4096 == u / 4096 / 64 * 64 + u / 4096 % 64 && u / 4096 / 64 == u / 262144;
  }

  // ----- Well-formed literals -----

  /** The productions of `char` in section 7 of RFC 8259, as parse_string groups them:
      `Pair` is the escape of a high surrogate with the escape behind it, `Lone` one
      with none behind it, `Unit` any other escaped code unit. */
  datatype Char =
    | Plain(octet: Octet)
    | Letter(letter: Octet)
    | Unit(hex: Text)
    | Pair(high: Text, low: Text)
    | Lone(high: Text)
  {
    /** What parse_string takes: any byte but the quote and the backslash stands for
        itself, and any byte but u may follow a backslash. */
    ghost predicate Readable() {
      match this
      case Plain(c) => c != QUOTE && c != BACKSLASH
      case Letter(l) => l != LETTER_U
      case Unit(h) => |h| == 4 && IsHex4(h) && !HighSurrogate(Hex4(h))
      case Pair(h, l) => |h| == |l| == 4 && IsHex4(h) && IsHex4(l) && HighSurrogate(Hex4(h))
      case Lone(h) => |h| == 4 && IsHex4(h) && HighSurrogate(Hex4(h))
    }

    /** What the standard allows: no control bytes, and eight letters. */
    ghost predicate Standard() {
      && Readable() && (Plain? ==> octet >= 32)
      && (Letter? ==> letter in {QUOTE, BACKSLASH, 47, 98, 102, 110, 114, 116})
    }

    function Source(): Text {
      match this
      case Plain(c) => [c]
      case Letter(l) => [BACKSLASH, l]
      case Unit(h) => [BACKSLASH, LETTER_U] + h
      case Pair(h, l) => [BACKSLASH, LETTER_U] + h + [BACKSLASH, LETTER_U] + l
      case Lone(h) => [BACKSLASH, LETTER_U] + h
    }

    /** Zero and surrogates that make no pair are dropped. */
    ghost function Meaning(): Text
      requires Readable()
    {
      match this
      case Plain(c) => [c]
      case Letter(l) => [SimpleEscape(l)]
      case Unit(h) => if Hex4(h) == 0 || LowSurrogate(Hex4(h)) then [] else Utf8(Hex4(h))
      case Pair(h, l) => if LowSurrogate(Hex4(l)) then Utf8(PairValue(Hex4(h), Hex4(l))) else []
      case Lone(h) => []
    }
  }

  function Source(cs: seq<Char>): Text {
    if cs == [] then [] else cs[0].Source() + Source(cs[1..])
  }

  /** Characters one after the other, no escape of a code unit behind a lone one. */
  ghost predicate ReadableChars(cs: seq<Char>) {
    cs == [] ||
    (&& cs[0].Readable() && ReadableChars(cs[1..])
     && (cs[0].Lone? && |cs| > 1 ==> cs[1].Plain? || cs[1].Letter?))
  }

  ghost predicate StandardChars(cs: seq<Char>) {
    ReadableChars(cs) && forall i :: 0 <= i < |cs| ==> cs[i].Standard()
  }

  ghost function Meaning(cs: seq<Char>): Text
    requires ReadableChars(cs)
  {
    if cs == [] then [] else cs[0].Meaning() + Meaning(cs[1..])
  }

  lemma HexPrefix(h: Text, t: Text)
    requires |h| == 4 && IsHex4(h)
    ensures IsHex4(h + t) && Hex4(h + t) == Hex4(h) && (h + t)[4..] == t
  {
    var s := h + t;
    assert s[0] == h[0] && s[1] == h[1] && s[2] == h[2] && s[3] == h[3];
  }

  predicate StartsUnit(t: Text) {
    At(t, 0) == BACKSLASH && At(t, 1) == LETTER_U
  }

  /** parse_string consumes exactly one character of the grammar. */
  lemma CharParse(c: Char, tail: Text)
    requires c.Readable() && (c.Lone? ==> !StartsUnit(tail))
    ensures ParseChars(c.Source() + tail) == Prepend(c.Meaning(), ParseChars(tail))
  {
    hide ParseChars, UnicodeEscape, Utf8, Hex4, IsHex4, PairValue;
    match c
    case Plain(o) => CharPlain(o, tail);
    case Letter(l) => CharSimple(l, tail);
    case Unit(h) =>
      UnitParse(h, tail);
      CharUnicode(h + tail, c.Meaning(), tail);
      assert c.Source() + tail == [BACKSLASH, LETTER_U] + (h + tail);
    case Pair(h, l) =>
      PairParse(h, l, tail);
      CharUnicode(h + ([BACKSLASH, LETTER_U] + (l + tail)), c.Meaning(), tail);
      PairLayout([BACKSLASH, LETTER_U], h, l, tail);
    case Lone(h) =>
      LoneParse(h, tail);
      CharUnicode(h + tail, [], tail);
      assert c.Source() + tail == [BACKSLASH, LETTER_U] + (h + tail);
  }

  lemma PairLayout(u: Text, h: Text, l: Text, tail: Text)
    ensures u + h + u + l + tail == u + (h + (u + (l + tail)))
  {
  }

  lemma UnitParse(h: Text, tail: Text)
    requires Unit(h).Readable()
    ensures UnicodeEscape(h + tail) == Ok(Unit(h).Meaning(), tail)
  {
    hide Utf8, Hex4, IsHex4;
    HexPrefix(h, tail);
  }

  lemma PairParse(h: Text, l: Text, tail: Text)
    requires Pair(h, l).Readable()
    ensures UnicodeEscape(h + ([BACKSLASH, LETTER_U] + (l + tail))) == Ok(Pair(h, l).Meaning(), tail)
  {
    hide Utf8, Hex4, IsHex4, PairValue;
    var t := [BACKSLASH, LETTER_U] + (l + tail);
    HexPrefix(h, t);
    HexPrefix(l, tail);
    assert t[2..] == l + tail && t[6..] == tail;
  }

  lemma LoneParse(h: Text, tail: Text)
    requires Lone(h).Readable() && !StartsUnit(tail)
    ensures UnicodeEscape(h + tail) == Ok([], tail)
  {
    hide Utf8, Hex4, IsHex4;
    HexPrefix(h, tail);
  }

  // ----- Code points -----

  /** A hexadecimal digit, in lower or upper case. */
  function HexOf(d: int, upper: bool): Octet
    requires 0 <= d < 16
  {
    if d < 10 then d + 48 else if upper then d + 55 else d + 87
  }

  /** The four digits of a code unit, each in either case. */
  function UnitDigits(v: int, upper: nat -> bool): (h: Text)
    requires 0 <= v < 0x1_0000
    ensures |h| == 4
  {
    [HexOf(v / 4096, upper(0)), HexOf(v / 256 % 16, upper(1)), HexOf(v / 16 % 16, upper(2)), HexOf(v % 16, upper(3))]
  }

  /** The escape of a code point: its code unit, or the two of UTF-16. */
  function CodeEscape(u: int, upper: nat -> bool): Char
    requires 0 < u < 0x11_0000
  {
    if u < 0x1_0000 then Unit(UnitDigits(u, upper))
    else
      var v := u - 0x1_0000;
      Pair(UnitDigits(0xD800 + v / 0x400, upper), UnitDigits(0xDC00 + v % 0x400, upper))
  }

  lemma UnitDigitsValue(v: int, upper: nat -> bool)
    requires 0 <= v < 0x1_0000
    ensures IsHex4(UnitDigits(v, upper)) && Hex4(UnitDigits(v, upper)) == v
  {
    var a, b, c := v / 16, v / 16 / 16, v / 16 / 16 / 16;
    assert v == a * 16 + v % 16 && a == b * 16 + a % 16 && b == c * 16 + b % 16;
    assert v / 256 == b && v / 4096 == c;
    HexOfValue(c, upper(0));
    HexOfValue(b % 16, upper(1));
    HexOfValue(a % 16, upper(2));
    HexOfValue(v % 16, upper(3));
    hide HexOf, HexDigit;
  }

  lemma HexOfValue(d: int, upper: bool)
    requires 0 <= d < 16
    ensures HexDigit(HexOf(d, upper)) == d
  {
  }

  /** The escape of every code point but the surrogates is read as its UTF-8 bytes. */
  lemma CodeEscapeParse(u: int, upper: nat -> bool, tail: Text)
    requires 0 < u < 0x11_0000 && !(0xD800 <= u < 0xE000)
    ensures exists b :: ParseChars(CodeEscape(u, upper).Source() + tail) == Prepend(b, ParseChars(tail)) && Utf8Decode(b) == u
  {
    var c := CodeEscape(u, upper);
    CodeEscapeMeans(u, upper);
    CharParse(c, tail);
    hide ParseChars, Utf8Decode;
    assert ParseChars(c.Source() + tail) == Prepend(c.Meaning(), ParseChars(tail));
  }

  lemma CodeEscapeMeans(u: int, upper: nat -> bool)
    requires 0 < u < 0x11_0000 && !(0xD800 <= u < 0xE000)
    ensures var c := CodeEscape(u, upper); c.Readable() && Utf8Decode(c.Meaning()) == u && !c.Lone?
  {
    hide Utf8, Utf8Decode, Hex4, IsHex4, UnitDigits;
    Utf8Inverse(u);
    if u < 0x1_0000 {
      UnitDigitsValue(u, upper);
    } else {
      var v := u - 0x1_0000;
      UnitDigitsValue(0xD800 + v / 0x400, upper);
      UnitDigitsValue(0xDC00 + v % 0x400, upper);
      assert v == v / 0x400 * 0x400 + v % 0x400;
    }
  }

  /** The letters of section 7 of RFC 8259, and the bytes they stand for. */
  lemma LetterMeanings(tail: Text)
    ensures forall x :: x in {(34, 34), (92, 92), (47, 47), (98, 8), (102, 12), (110, 10), (114, 13), (116, 9)} ==>
              ParseChars([92, x.0] + tail) == Prepend([x.1], ParseChars(tail))
  {
    forall x | x in {(34, 34), (92, 92), (47, 47), (98, 8), (102, 12), (110, 10), (114, 13), (116, 9)}
      ensures ParseChars([92, x.0] + tail) == Prepend([x.1], ParseChars(tail))
    {
      CharParse(Letter(x.0), tail);
      hide ParseChars;
    }
  }

  /** For every literal parse_string takes, it stops just after the closing quote and
      returns the decoded characters. */
  lemma {:induction false} LiteralParse(cs: seq<Char>, rest: Text)
    requires ReadableChars(cs)
    ensures ParseString([QUOTE] + Source(cs) + [QUOTE] + rest) == Ok(Meaning(cs), rest)
  {
    hide ParseChars, Source, Meaning;
    var s := [QUOTE] + Source(cs) + [QUOTE] + rest;
    BodyParse(cs, [QUOTE] + rest);
    QuoteEnds(rest);
    assert s[1..] == Source(cs) + ([QUOTE] + rest);
    assert Meaning(cs) + [] == Meaning(cs);
  }

  lemma QuoteEnds(rest: Text)
    ensures ParseChars([QUOTE] + rest) == Ok([], rest) && ParseChars([]) == Ok([], [])
  {
    assert ([QUOTE] + rest)[1..] == rest;
  }

  /** Characters in front of a quote, or of the end of the text. */
  lemma {:induction false} BodyParse(cs: seq<Char>, end: Text)
    requires ReadableChars(cs) && (end == [] || end[0] == QUOTE)
    ensures ParseChars(Source(cs) + end) == Prepend(Meaning(cs), ParseChars(end))
  {
    hide ParseChars, Source, Prepend;
    if cs == [] {
      SourceEmpty(end);
      PrependNone(ParseChars(end));
    } else {
      var tail := Source(cs[1..]) + end;
      NoUnitBehind(cs, end);
      CharParse(cs[0], tail);
      BodyParse(cs[1..], end);
      SourceCons(cs, end);
      PrependTwice(cs[0].Meaning(), Meaning(cs[1..]), ParseChars(end));
    }
  }

  lemma PrependNone(r: Parsed<Text>)
    ensures Prepend([], r) == r
  {
    if r.Ok? { assert [] + r.value == r.value; }
  }

  lemma PrependTwice(a: Text, b: Text, r: Parsed<Text>)
    ensures Prepend(a, Prepend(b, r)) == Prepend(a + b, r)
  {
    if r.Ok? { assert a + (b + r.value) == a + b + r.value; }
  }

  lemma NoUnitBehind(cs: seq<Char>, end: Text)
    requires ReadableChars(cs) && cs != [] && (end == [] || end[0] == QUOTE)
    ensures cs[0].Lone? ==> !StartsUnit(Source(cs[1..]) + end)
  {
    hide Source;
    if cs[0].Lone? {
      if |cs| == 1 {
        assert cs[1..] == [];
        SourceEmpty(end);
      } else {
        SourceCons(cs[1..], end);
        SourceStarts(cs[1], Source(cs[1..][1..]) + end);
      }
    }
  }

  lemma SourceEmpty(end: Text)
    ensures Source([]) + end == end
  {
  }

  lemma SourceCons(cs: seq<Char>, end: Text)
    requires cs != []
    ensures Source(cs) + end == cs[0].Source() + (Source(cs[1..]) + end)
  {
  }

  lemma SourceStarts(c: Char, x: Text)
    requires c.Readable()
    ensures StartsUnit(c.Source() + x) <==> !c.Plain? && !c.Letter?
  {
    var t := c.Source() + x;
    assert t[0] == c.Source()[0];
    if !c.Plain? { assert t[1] == c.Source()[1]; }
  }

  // ----- Every literal parse_string accepts is one of these -----

  lemma HexSplit(s: Text)
    requires IsHex4(s)
    ensures |s[..4]| == 4 && IsHex4(s[..4]) && Hex4(s[..4]) == Hex4(s) && s == s[..4] + s[4..]
  {
    assert s[..4][0] == s[0] && s[..4][1] == s[1] && s[..4][2] == s[2] && s[..4][3] == s[3];
  }

  /** The character at the front of a literal that is accepted. */
  lemma CharRead(s: Text) returns (c: Char, tail: Text)
    requires s != [] && s[0] != QUOTE && ParseChars(s).Ok?
    ensures c.Readable() && s == c.Source() + tail && (c.Lone? ==> !StartsUnit(tail)) && |tail| < |s|
    ensures ParseChars(s) == Prepend(c.Meaning(), ParseChars(tail))
  {
    if s[0] != BACKSLASH {
      c, tail := Plain(s[0]), s[1..];
      assert s == [s[0]] + s[1..];
    } else if s[1] != LETTER_U {
      c, tail := Letter(s[1]), s[2..];
      assert s == [BACKSLASH, s[1]] + s[2..];
    } else {
      c, tail := UnitRead(s);
    }
    hide ParseChars;
    CharParse(c, tail);
  }

  lemma UnitRead(s: Text) returns (c: Char, tail: Text)
    requires |s| >= 2 && s[0] == BACKSLASH && s[1] == LETTER_U && ParseChars(s).Ok?
    ensures c.Readable() && s == c.Source() + tail && (c.Lone? ==> !StartsUnit(tail)) && |tail| < |s|
  {
    var t := s[2..];
    assert UnicodeEscape(t).Ok?;
    hide ParseChars;
    HexSplit(t);
    var h, rest := t[..4], t[4..];
    assert s == [BACKSLASH, LETTER_U] + h + rest;
    if !HighSurrogate(Hex4(h)) {
      c, tail := Unit(h), rest;
    } else if !StartsUnit(rest) {
      c, tail := Lone(h), rest;
    } else {
      HexSplit(rest[2..]);
      c, tail := Pair(h, rest[2..][..4]), rest[6..];
      assert rest == [BACKSLASH, LETTER_U] + rest[2..][..4] + rest[6..];
      PairLayout([BACKSLASH, LETTER_U], h, c.low, tail);
    }
  }

  /** Every text parse_string accepts begins with characters of the grammar, closed by
      a quote or cut by the end of the text. */
  lemma {:induction false} BodyRead(s: Text) returns (cs: seq<Char>, closed: bool)
    requires ParseChars(s).Ok?
    ensures ReadableChars(cs) && Meaning(cs) == ParseChars(s).value
    ensures s == Source(cs) + (if closed then [QUOTE] + ParseChars(s).rest else [])
    ensures !closed ==> ParseChars(s).rest == []
    decreases |s|
  {
    if s == [] {
      cs, closed := [], false;
    } else if s[0] == QUOTE {
      cs, closed := [], true;
      assert s == [] + ([QUOTE] + s[1..]);
    } else {
      var c, tail := CharRead(s);
      hide ParseChars;
      var more;
      more, closed := BodyRead(tail);
      var end := if closed then [QUOTE] + ParseChars(tail).rest else [];
      cs := [c] + more;
      CharsCons(c, more, end);
      hide Source, ReadableChars, Meaning;
    }
  }

  lemma CharsCons(c: Char, more: seq<Char>, end: Text)
    requires c.Readable() && ReadableChars(more) && (c.Lone? ==> !StartsUnit(Source(more) + end))
    ensures ReadableChars([c] + more) && Meaning([c] + more) == c.Meaning() + Meaning(more)
    ensures Source([c] + more) + end == c.Source() + (Source(more) + end)
  {
    var cs := [c] + more;
    assert cs[1..] == more;
    if c.Lone? && more != [] { UnitStarts(more, end); }
    SourceCons(cs, end);
    hide Source;
  }

  lemma UnitStarts(cs: seq<Char>, end: Text)
    requires cs != [] && cs[0].Readable() && !StartsUnit(Source(cs) + end)
    ensures cs[0].Plain? || cs[0].Letter?
  {
    hide Source;
    SourceCons(cs, end);
    SourceStarts(cs[0], Source(cs[1..]) + end);
  }

  // ----- Buffers -----

  /** The first `|w|` bytes of the buffer are `w`. */
  ghost predicate Holds(out: array<Byte>, w: Text)
    reads out
  {
    |w| <= out.Length && forall i :: 0 <= i < |w| ==> out[i] == w[i]
  }

  /** *ptr++ = c */
  method PutByte(out: array<Byte>, ptr: nat, c: Octet, ghost w: Text) returns (ptr': nat)
    requires Holds(out, w) && ptr == |w| < out.Length
    modifies out
    ensures ptr' == ptr + 1 && Holds(out, w + [c])
  {
    out[ptr] := c;
    ptr' := ptr + 1;
  }

  /** strcpy without the terminator; also sprintf of a known text. */
  method PutText(out: array<Byte>, ptr: nat, t: Text, ghost w: Text) returns (ptr': nat)
    requires Holds(out, w) && ptr == |w| && ptr + |t| <= out.Length
    modifies out
    ensures ptr' == ptr + |t| && Holds(out, w + t)
  {
    ptr' := ptr;
    for i := 0 to |t|
      invariant ptr' == ptr + i && Holds(out, w + t[..i])
    {
      assert w + t[..i] + [t[i]] == w + t[..i + 1];
      ptr' := PutByte(out, ptr', t[i], w + t[..i]);
    }
    assert t[..|t|] == t;
  }

  // ----- print_string_ptr -----

  /** The two-byte escapes, as the strchr set of the first pass. */
  predicate ShortEscape(c: int) {
    c == QUOTE || c == BACKSLASH || c == 8 || c == 12 || c == 10 || c == 13 || c == 9
  }

  method EscapedLength(str: Text) returns (len: nat)
    ensures len == |Escape(str)|
  {
    len := 0;
    assert str[0..] == str;
    for i := 0 to |str|
      invariant len + |Escape(str[i..])| == |Escape(str)|
    {
      assert str[i..][1..] == str[i + 1..];
      var token := str[i];
      len := len + 1;
      if ShortEscape(token) { len := len + 1; }
      else if token < 32 { len := len + 5; }
    }
  }

  /** One byte of the second pass. */
  method PutEscaped(out: array<Byte>, ptr: nat, c: Octet, ghost w: Text) returns (ptr': nat)
    requires Holds(out, w) && ptr == |w| && ptr + |EscapeOctet(c)| <= out.Length
    modifies out
    ensures ptr' == ptr + |EscapeOctet(c)| && Holds(out, w + EscapeOctet(c))
  {
    if c > 31 && c != QUOTE && c != BACKSLASH {
      ptr' := PutByte(out, ptr, c, w);
    } else {
      ptr' := PutByte(out, ptr, BACKSLASH, w);
      if ShortEscape(c) {
        var x: Octet := if c == 8 then 98 else if c == 12 then 102 else if c == 10 then 110
                        else if c == 13 then 114 else if c == 9 then 116 else c;
        ptr' := PutByte(out, ptr', x, w + [BACKSLASH]);
        assert w + [BACKSLASH] + [x] == w + EscapeOctet(c);
      } else {
        ptr' := PutText(out, ptr', [LETTER_U] + ControlDigits(c), w + [BACKSLASH]);
        assert w + [BACKSLASH] + ([LETTER_U] + ControlDigits(c)) == w + EscapeOctet(c);
      }
    }
  }

  /** Both passes: the buffer is exactly as long as what is written to it. */
  method PrintStringPtr(str: Text) returns (out: array<Byte>, n: nat)
    ensures fresh(out) && n + 1 == out.Length
    ensures out[..n] == PrintString(str) && out[n] == 0
  {
    hide Escape, EscapeOctet;
    var len := EscapedLength(str);
    out := new Byte[len + 3];
    var ptr := PutByte(out, 0, QUOTE, []);
    ghost var w: Text := [QUOTE];
    assert str[0..] == str;
    for i := 0 to |str|
      invariant Holds(out, w) && ptr == |w|
      invariant w + Escape(str[i..]) == [QUOTE] + Escape(str)
    {
      EscapeNext(str, i);
      ghost var e := EscapeOctet(str[i]);
      assert w + (e + Escape(str[i + 1..])) == (w + e) + Escape(str[i + 1..]);
      ptr := PutEscaped(out, ptr, str[i], w);
      w := w + e;
    }
    EscapeEnd();
    assert str[|str|..] == [] && w + [] == w;
    ptr := PutByte(out, ptr, QUOTE, w);
    out[ptr] := 0;
    n := ptr;
    assert out[..n] == w + [QUOTE] == PrintString(str);
  }

  lemma EscapeNext(str: Text, i: nat)
    requires i < |str|
    ensures Escape(str[i..]) == EscapeOctet(str[i]) + Escape(str[i + 1..])
  {
    assert str[i..][1..] == str[i + 1..];
  }

  lemma EscapeEnd()
    ensures Escape([]) == []
  {
  }

  // ----- parse_string -----

  /** What the first pass of parse_string counts. */
  function LiteralCount(s: Text): nat {
    if s == [] || s[0] == QUOTE then 0
    else if s[0] != BACKSLASH then 1 + LiteralCount(s[1..])
    else if |s| == 1 then 1
    else 1 + LiteralCount(s[2..])
  }

  lemma {:induction false} CountPlain(p: nat, s: Text)
    requires p <= |s| && forall i :: 0 <= i < p ==> s[i] != QUOTE && s[i] != BACKSLASH
    ensures LiteralCount(s) == p + LiteralCount(s[p..])
  {
    if p == 0 {
      assert s[0..] == s;
    } else {
      CountPlain(p - 1, s[1..]);
      assert s[1..][p - 1..] == s[p..];
    }
  }

  lemma CountHex(s: Text)
    requires IsHex4(s)
    ensures LiteralCount(s) == 4 + LiteralCount(s[4..])
  {
    CountPlain(4, s);
  }

  /** Decoding an escape produces no more bytes than the first pass counted. */
  lemma CountUnicode(s: Text)
    requires UnicodeEscape(s).Ok?
    ensures var e := UnicodeEscape(s); |e.value| + LiteralCount(e.rest) <= LiteralCount(s)
  {
    hide Utf8;
    CountHex(s);
    var t := s[4..];
    if At(t, 0) == BACKSLASH && At(t, 1) == LETTER_U && IsHex4(t[2..]) {
      CountHex(t[2..]);
      assert t[2..][4..] == t[6..];
    }
  }

  lemma {:induction false} CountBounds(s: Text)
    requires ParseChars(s).Ok?
    ensures |ParseChars(s).value| <= LiteralCount(s)
    decreases |s|
  {
    if s == [] || s[0] == QUOTE {
    } else if s[0] != BACKSLASH {
      CountBounds(s[1..]);
    } else if s[1] != LETTER_U {
      CountBounds(s[2..]);
    } else {
      hide UnicodeEscape;
      CountUnicode(s[2..]);
      CountBounds(UnicodeEscape(s[2..]).rest);
    }
  }

  /** How much the first pass counts for a character: an escape as one, and its four
      digits as four. */
  function Weight(c: Char): nat {
    match c
    case Plain(_) => 1
    case Letter(_) => 1
    case Unit(_) => 5
    case Pair(_, _) => 10
    case Lone(_) => 5
  }

  function Weights(cs: seq<Char>): nat {
    if cs == [] then 0 else Weight(cs[0]) + Weights(cs[1..])
  }

  lemma CountUnit(h: Text, tail: Text)
    requires |h| == 4 && IsHex4(h)
    ensures LiteralCount([BACKSLASH, LETTER_U] + (h + tail)) == 5 + LiteralCount(tail)
  {
    var s := [BACKSLASH, LETTER_U] + (h + tail);
    assert s[2..] == h + tail;
    HexPrefix(h, tail);
    CountHex(h + tail);
  }

  lemma CountOne(o: Octet, tail: Text)
    requires o != QUOTE && o != BACKSLASH
    ensures LiteralCount([o] + tail) == 1 + LiteralCount(tail)
  {
    assert ([o] + tail)[1..] == tail;
  }

  lemma CountEscape(l: Octet, tail: Text)
    ensures LiteralCount([BACKSLASH, l] + tail) == 1 + LiteralCount(tail)
  {
    assert ([BACKSLASH, l] + tail)[2..] == tail;
  }

  lemma CharCount(c: Char, tail: Text)
    requires c.Readable()
    ensures LiteralCount(c.Source() + tail) == Weight(c) + LiteralCount(tail)
  {
    hide IsHex4, Hex4, LiteralCount;
    match c
    case Plain(o) => CountOne(o, tail);
    case Letter(l) => CountEscape(l, tail);
    case Unit(h) => CountUnit(h, tail); assert c.Source() + tail == [BACKSLASH, LETTER_U] + (h + tail);
    case Lone(h) => CountUnit(h, tail); assert c.Source() + tail == [BACKSLASH, LETTER_U] + (h + tail);
    case Pair(h, l) =>
      CountUnit(l, tail);
      CountUnit(h, [BACKSLASH, LETTER_U] + (l + tail));
      PairLayout([BACKSLASH, LETTER_U], h, l, tail);
  }

  /** The size of the buffer: the first pass counts exactly this for a literal. */
  lemma {:induction false} CountSource(cs: seq<Char>, end: Text)
    requires ReadableChars(cs) && (end == [] || end[0] == QUOTE)
    ensures LiteralCount(Source(cs) + end) == Weights(cs)
  {
    if cs == [] {
      SourceEmpty(end);
    } else {
      hide LiteralCount, Source;
      SourceCons(cs, end);
      CharCount(cs[0], Source(cs[1..]) + end);
      CountSource(cs[1..], end);
    }
  }

  /** First pass: count up to the closing quote. */
  method CountLiteral(text: Text, start: nat) returns (len: nat)
    requires start <= |text|
    ensures len == LiteralCount(text[start..])
  {
    len := 0;
    var ptr := start;
    while At(text, ptr) != QUOTE && At(text, ptr) != 0
      invariant start <= ptr <= |text|
      invariant len + LiteralCount(text[ptr..]) == LiteralCount(text[start..])
      decreases |text| - ptr
    {
      CountAt(text, ptr);
      len := len + 1;
      if text[ptr] == BACKSLASH && ptr + 1 < |text| { ptr := ptr + 1; }
      ptr := ptr + 1;
    }
  }

  lemma CountAt(text: Text, ptr: nat)
    requires ptr < |text| && text[ptr] != QUOTE
    ensures LiteralCount(text[ptr..])
            == 1 + LiteralCount(text[ptr + (if text[ptr] == BACKSLASH && ptr + 1 < |text| then 2 else 1)..])
  {
    var s := text[ptr..];
    assert s[1..] == text[ptr + 1..];
    if |s| > 1 { assert s[2..] == text[ptr + 2..]; }
  }

  /** The fall-through switch that stores a code point from its last byte. */
  method PutUtf8(out: array<Byte>, ptr: nat, uc: int, ghost w: Text) returns (ptr': nat)
    requires 0 < uc < 0x11_0000
    requires Holds(out, w) && ptr == |w| && ptr + |Utf8(uc)| <= out.Length
    modifies out
    ensures ptr' == ptr + |Utf8(uc)| && Holds(out, w + Utf8(uc))
  {
    var len := if uc < 0x80 then 1 else if uc < 0x800 then 2 else if uc < 0x1_0000 then 3 else 4;
    var mark := if len == 1 then 0 else if len == 2 then 0xC0 else if len == 3 then 0xE0 else 0xF0;
    var u := uc;
    ghost var b := Utf8(uc);
    Utf8Successive(uc);
    hide Utf8;
    ptr' := ptr + len;
    if len >= 4 { ptr' := ptr' - 1; out[ptr'] := 0x80 + u % 64; u := u / 64; }
    if len >= 3 { ptr' := ptr' - 1; out[ptr'] := 0x80 + u % 64; u := u / 64; }
    if len >= 2 { ptr' := ptr' - 1; out[ptr'] := 0x80 + u % 64; u := u / 64; }
    ptr' := ptr' - 1;
    out[ptr'] := u + mark;
    ptr' := ptr' + len;
  }

  /** The bytes of Utf8 by successive division, as the switch produces them. */
  lemma Utf8Successive(u: int)
    requires 0 < u < 0x11_0000
    ensures var b := Utf8(u);
            if u < 0x80 then b == [u]
            else if u < 0x800 then b == [u / 64 + 0xC0, 0x80 + u % 64]
            else if u < 0x1_0000 then b == [u / 64 / 64 + 0xE0, 0x80 + u / 64 % 64, 0x80 + u % 64]
            else b == [u / 64 / 64 / 64 + 0xF0, 0x80 + u / 64 / 64 % 64, 0x80 + u / 64 % 64, 0x80 + u % 64]
  {
    assert u / 64 / 64 == u / 4096;
    assert u / 64 / 64 / 64 == u / 262144;
  }

  /** Case 'u' of the second pass; `ptr` is just past the letter. */
  method PutUnicode(out: array<Byte>, ptr2: nat, text: Text, ptr: nat, ghost w: Text)
    returns (ptr2': nat, ptr': nat)
    requires ptr <= |text| && UnicodeEscape(text[ptr..]).Ok?
    requires Holds(out, w) && ptr2 == |w| && ptr2 + |UnicodeEscape(text[ptr..]).value| <= out.Length
    modifies out
    ensures var e := UnicodeEscape(text[ptr..]);
            && ptr < ptr' <= |text| && text[ptr'..] == e.rest
            && ptr2' == ptr2 + |e.value| && Holds(out, w + e.value)
  {
    hide Utf8, Hex4;
    ptr2' := ptr2;
    var uc := Hex4(text[ptr..]);
    ptr' := ptr + 4;
    assert w + [] == w && text[ptr..][4..] == text[ptr'..];
    if LowSurrogate(uc) || uc == 0 { return; }
    if HighSurrogate(uc) {
      if At(text, ptr') != BACKSLASH || At(text, ptr' + 1) != LETTER_U { return; }
      assert text[ptr'..][2..] == text[ptr' + 2..] && text[ptr'..][6..] == text[ptr' + 6..];
      var uc2 := Hex4(text[ptr' + 2..]);
      ptr' := ptr' + 6;
      if !LowSurrogate(uc2) { return; }
      uc := PairValue(uc, uc2);
    }
    ptr2' := PutUtf8(out, ptr2, uc, w);
  }

  /** What ParseChars does at a position, case by case. */
  lemma CharsStep(text: Text, ptr: nat)
    requires ptr <= |text| && ParseChars(text[ptr..]).Ok?
    ensures ptr == |text| ==> ParseChars(text[ptr..]) == Ok([], [])
    ensures ptr < |text| ==>
              var c := text[ptr];
              if c == QUOTE then ParseChars(text[ptr..]) == Ok([], text[ptr + 1..])
              else if c != BACKSLASH then ParseChars(text[ptr..]) == Prepend([c], ParseChars(text[ptr + 1..]))
              else
                && ptr + 1 < |text|
                && if text[ptr + 1] != LETTER_U then
                     ParseChars(text[ptr..]) == Prepend([SimpleEscape(text[ptr + 1])], ParseChars(text[ptr + 2..]))
                   else
                     && UnicodeEscape(text[ptr + 2..]).Ok?
                     && var e := UnicodeEscape(text[ptr + 2..]);
                        ParseChars(text[ptr..]) == Prepend(e.value, ParseChars(e.rest))
  {
    hide UnicodeEscape;
    var s := text[ptr..];
    if ptr < |text| {
      assert s[1..] == text[ptr + 1..];
      if ptr + 1 < |text| { assert s[2..] == text[ptr + 2..]; }
    }
  }

  /** Nothing is lost between what is written and what is still to be read. */
  ghost predicate Halfway(text: Text, ptr: nat, w: Text, goal: Parsed<Text>) {
    ptr <= |text| && goal.Ok? && Prepend(w, ParseChars(text[ptr..])) == goal
  }

  lemma HalfwayStep(text: Text, ptr: nat, w: Text, goal: Parsed<Text>, piece: Text, ptr': nat)
    requires Halfway(text, ptr, w, goal) && ptr' <= |text|
    requires ParseChars(text[ptr..]) == Prepend(piece, ParseChars(text[ptr'..]))
    ensures Halfway(text, ptr', w + piece, goal) && |w| + |piece| <= |goal.value|
  {
    hide ParseChars;
    var r := ParseChars(text[ptr'..]);
    assert w + (piece + r.value) == w + piece + r.value;
  }

  /** One character of the second pass. */
  method PutChar(out: array<Byte>, ptr2: nat, text: Text, ptr: nat, ghost w: Text, ghost goal: Parsed<Text>)
    returns (ptr2': nat, ptr': nat, ghost w': Text)
    requires Halfway(text, ptr, w, goal) && ptr < |text| && text[ptr] != QUOTE
    requires Holds(out, w) && ptr2 == |w| && |goal.value| <= out.Length
    modifies out
    ensures ptr < ptr' && Halfway(text, ptr', w', goal) && Holds(out, w') && ptr2' == |w'|
  {
    hide ParseChars, UnicodeEscape;
    CharsStep(text, ptr);
    if text[ptr] != BACKSLASH {
      HalfwayStep(text, ptr, w, goal, [text[ptr]], ptr + 1);
      ptr2' := PutByte(out, ptr2, text[ptr], w);
      ptr', w' := ptr + 1, w + [text[ptr]];
    } else if text[ptr + 1] != LETTER_U {
      var c := SimpleEscape(text[ptr + 1]);
      HalfwayStep(text, ptr, w, goal, [c], ptr + 2);
      ptr2' := PutByte(out, ptr2, c, w);
      ptr', w' := ptr + 2, w + [c];
    } else {
      ghost var e := UnicodeEscape(text[ptr + 2..]);
      RestPosition(text, ptr + 2);
      HalfwayStep(text, ptr, w, goal, e.value, |text| - |e.rest|);
      ptr2', ptr' := PutUnicode(out, ptr2, text, ptr + 2, w);
      w' := w + e.value;
    }
  }

  lemma RestPosition(text: Text, ptr: nat)
    requires ptr <= |text| && UnicodeEscape(text[ptr..]).Ok?
    ensures var e := UnicodeEscape(text[ptr..]);
            |e.rest| <= |text| && text[|text| - |e.rest|..] == e.rest
  {
    hide Utf8, Hex4;
  }

  /** parse_string on any text with a decodable literal: the buffer sized by the
      first pass holds the decoded bytes and their terminator. */
  method ParseStringBuffer(text: Text, start: nat) returns (out: array<Byte>, n: nat, end: nat)
    requires start < |text| && ParseString(text[start..]).Ok?
    ensures fresh(out) && n < out.Length == LiteralCount(text[start + 1..]) + 1 && end <= |text|
    ensures var r := ParseString(text[start..]);
            out[..n] == r.value && out[n] == 0 && text[end..] == r.rest
  {
    assert text[start..][1..] == text[start + 1..];
    ghost var goal := ParseChars(text[start + 1..]);
    CountBounds(text[start + 1..]);
    var len := CountLiteral(text, start + 1);
    hide ParseChars;
    out := new Byte[len + 1];
    var ptr, ptr2 := start + 1, 0;
    ghost var w: Text := [];
    assert [] + goal.value == goal.value;
    while At(text, ptr) != QUOTE && At(text, ptr) != 0
      invariant Halfway(text, ptr, w, goal) && Holds(out, w) && ptr2 == |w|
      decreases |text| - ptr
    {
      ptr2, ptr, w := PutChar(out, ptr2, text, ptr, w, goal);
    }
    CharsStep(text, ptr);
    assert w + [] == w;
    out[ptr2] := 0;
    n, end := ptr2, ptr;
    if At(text, ptr) == QUOTE { end := end + 1; }
    assert out[..n] == w;
  }
}
