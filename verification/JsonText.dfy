/** JSON values and the recursive-descent parser of
    application/http_client/cJSON.c, as functions of the text. */
module JsonText {

  /** A byte of a C string: never the terminator. */
  type Octet = x: int | 1 <= x < 256 witness 1
  type Text = seq<Octet>

  /** `Num(m, e)` is the number m * 10^e: what parse_number collects before it
      hands the two integers to pow(). */
  datatype Json =
    | Null
    | Bool(value: bool)
    | Num(mantissa: int, exponent: int)
    | Str(text: Text)
    | Arr(items: seq<Json>)
    | Obj(members: seq<Member>)
  datatype Member = Member(name: Text, value: Json)

  /** `Fail(at)` is a zero return with `ep` at `at`.  `Malformed` marks text on
      which the C code would step over the terminator or over bytes that are not
      the hexadecimal digits it expects. */
  datatype Parsed<T> = Ok(value: T, rest: Text) | Fail(at: Text) | Malformed

  const QUOTE: Octet := 34
  const BACKSLASH: Octet := 92
  const COMMA: Octet := 44
  const COLON: Octet := 58
  const LBRACKET: Octet := 91
  const RBRACKET: Octet := 93
  const LBRACE: Octet := 123
  const RBRACE: Octet := 125
  const MINUS: Octet := 45
  const LETTER_U: Octet := 117

  const NULL_TEXT: Text := [110, 117, 108, 108]
  const FALSE_TEXT: Text := [102, 97, 108, 115, 101]
  const TRUE_TEXT: Text := [116, 114, 117, 101]

  /** The byte under the cursor; the terminator at the end. */
  function At(s: Text, i: nat): int {
    if i < |s| then s[i] else 0
  }

  predicate IsDigit(c: int) {
    48 <= c <= 57
  }

  /** Jump over bytes 1..32. */
  function Skip(s: Text): (r: Text)
    ensures |r| <= |s| && (r == [] || r[0] > 32)
  {
    if s != [] && s[0] <= 32 then Skip(s[1..]) else s
  }

  // ----- Strings -----

  /** The value of a hexadecimal digit, or -1. */
  function HexDigit(c: int): (h: int)
    ensures -1 <= h < 16
  {
    if 48 <= c <= 57 then c - 48
    else if 65 <= c <= 70 then c - 55
    else if 97 <= c <= 102 then c - 87
    else -1
  }

  predicate IsHex4(s: Text) {
    |s| >= 4 && forall i :: 0 <= i < 4 ==> HexDigit(s[i]) >= 0
  }

  function Hex4(s: Text): (u: int)
    requires IsHex4(s)
    ensures 0 <= u < 0x1_0000
  {
    HexDigit(s[0]) * 4096 + HexDigit(s[1]) * 256 + HexDigit(s[2]) * 16 + HexDigit(s[3])
  }

  /** The bytes parse_string stores for a code point: low six bits at a time
      from the back, then the first-byte mark. */
  function Utf8(u: int): (r: Text)
    requires 0 < u < 0x11_0000
    ensures 1 <= |r| <= 4
  {
    if u < 0x80 then [u]
    else if u < 0x800 then [0xC0 + u / 64, 0x80 + u % 64]
    else if u < 0x1_0000 then [0xE0 + u / 4096, 0x80 + u / 64 % 64, 0x80 + u % 64]
    else [0xF0 + u / 262144, 0x80 + u / 4096 % 64, 0x80 + u / 64 % 64, 0x80 + u % 64]
  }

  predicate HighSurrogate(u: int) { 0xD800 <= u <= 0xDBFF }
  predicate LowSurrogate(u: int) { 0xDC00 <= u <= 0xDFFF }

  function PairValue(hi: int, lo: int): (u: int)
    requires HighSurrogate(hi) && LowSurrogate(lo)
    ensures 0x1_0000 <= u < 0x11_0000
  {
    0x1_0000 + (hi - 0xD800) * 0x400 + (lo - 0xDC00)
  }

  /** What follows "\u": the decoded bytes.  Zero, a lone low surrogate and a
      high surrogate without its second half are dropped. */
  function UnicodeEscape(s: Text): (r: Parsed<Text>)
    ensures r.Ok? ==> |r.rest| < |s|
    ensures !r.Fail?
  {
    if !IsHex4(s) then Malformed
    else
      var u, t := Hex4(s), s[4..];
      if LowSurrogate(u) || u == 0 then Ok([], t)
      else if !HighSurrogate(u) then Ok(Utf8(u), t)
      else if At(t, 0) != BACKSLASH || At(t, 1) != LETTER_U then Ok([], t)
      else if !IsHex4(t[2..]) then Malformed
      else
        var lo := Hex4(t[2..]);
        if LowSurrogate(lo) then Ok(Utf8(PairValue(u, lo)), t[6..]) else Ok([], t[6..])
  }

  /** One-letter escapes; any other byte stands for itself. */
  function SimpleEscape(c: Octet): Octet {
    if c == 98 then 8        // b
    else if c == 102 then 12 // f
    else if c == 110 then 10 // n
    else if c == 114 then 13 // r
    else if c == 116 then 9  // t
    else c
  }

  function Prepend(head: Text, r: Parsed<Text>): Parsed<Text> {
    if r.Ok? then Ok(head + r.value, r.rest) else r
  }

  /** The body of a string literal.  An unterminated literal is accepted, as in
      the source. */
  function ParseChars(s: Text): (r: Parsed<Text>)
    ensures r.Ok? ==> |r.rest| <= |s|
    ensures !r.Fail?
    decreases |s|
  {
    if s == [] then Ok([], [])
    else if s[0] == QUOTE then Ok([], s[1..])
    else if s[0] != BACKSLASH then Prepend([s[0]], ParseChars(s[1..]))
    else if |s| == 1 then Malformed
    else if s[1] != LETTER_U then Prepend([SimpleEscape(s[1])], ParseChars(s[2..]))
    else
      var e := UnicodeEscape(s[2..]);
      if e.Ok? then Prepend(e.value, ParseChars(e.rest)) else e
  }

  function ParseString(s: Text): (r: Parsed<Text>)
    ensures r.Ok? ==> |r.rest| < |s|
  {
    if At(s, 0) != QUOTE then Fail(s) else ParseChars(s[1..])
  }

  // ----- Numbers -----

  /** Accumulate decimal digits. */
  function Digits(s: Text, n: nat): (r: (nat, Text))
    ensures |r.1| <= |s|
    ensures s != [] && IsDigit(s[0]) ==> |r.1| < |s|
    decreases |s|
  {
    if s != [] && IsDigit(s[0]) then Digits(s[1..], n * 10 + (s[0] as int - 48)) else (n, s)
  }

  function Exponent(s: Text): (r: (int, Text))
    ensures |r.1| <= |s|
  {
    if At(s, 0) == 101 || At(s, 0) == 69 then
      var t := s[1..];
      if At(t, 0) == 43 then Digits(t[1..], 0)
      else if At(t, 0) == MINUS then
        var (e, rest) := Digits(t[1..], 0);
        (-(e as int), rest)
      else Digits(t, 0)
    else (0, s)
  }

  /** Sign and integer digits. */
  function IntegerPart(s: Text): (r: (bool, nat, Text))
    ensures |r.2| <= |s|
    ensures s != [] && (s[0] == MINUS || IsDigit(s[0])) ==> |r.2| < |s|
  {
    var negative := At(s, 0) == MINUS;
    var s1 := if negative then s[1..] else s;
    var s2 := if At(s1, 0) == 48 then s1[1..] else s1;
    var (n, s3) := if 49 <= At(s2, 0) <= 57 then Digits(s2, 0) else (0, s2);
    (negative, n, s3)
  }

  /** Fraction digits continue the integer; each lowers the scale by one. */
  function Fraction(s: Text, n: nat): (r: (nat, int, Text))
    ensures |r.2| <= |s|
  {
    if At(s, 0) == 46 && IsDigit(At(s, 1)) then
      var (m, t) := Digits(s[1..], n);
      (m, |t| - |s| + 1, t)
    else (n, 0, s)
  }

  function ParseNumber(s: Text): (r: Parsed<Json>)
    ensures r.Ok? && |r.rest| <= |s|
    ensures s != [] && (s[0] == MINUS || IsDigit(s[0])) ==> |r.rest| < |s|
  {
    var (negative, n, s3) := IntegerPart(s);
    var (m, scale, s4) := Fraction(s3, n);
    var (e, s5) := Exponent(s4);
    Ok(Num(if negative then -(m as int) else m, scale + e), s5)
  }

  // ----- Values -----

  function ParseValue(s: Text): (r: Parsed<Json>)
    ensures r.Ok? ==> |r.rest| < |s|
    decreases |s|, 0
  {
    if NULL_TEXT <= s then Ok(Null, s[4..])
    else if FALSE_TEXT <= s then Ok(Bool(false), s[5..])
    else if TRUE_TEXT <= s then Ok(Bool(true), s[4..])
    else if At(s, 0) == QUOTE then
      var r := ParseString(s);
      if r.Ok? then Ok(Str(r.value), r.rest) else Again(r)
    else if At(s, 0) == MINUS || IsDigit(At(s, 0)) then ParseNumber(s)
    else if At(s, 0) == LBRACKET then
      var t := Skip(s[1..]);
      if At(t, 0) == RBRACKET then Ok(Arr([]), t[1..])
      else
        var r := ParseElements(t);
        if r.Ok? then Ok(Arr(r.value), r.rest) else Again(r)
    else if At(s, 0) == LBRACE then
      var t := Skip(s[1..]);
      if At(t, 0) == RBRACE then Ok(Obj([]), t[1..])
      else
        var r := ParseMembers(t);
        if r.Ok? then Ok(Obj(r.value), r.rest) else Again(r)
    else Fail(s)
  }

  /** A failed result at another type. */
  function Again<T, U>(r: Parsed<T>): Parsed<U>
    requires !r.Ok?
  {
    if r.Fail? then Fail(r.at) else Malformed
  }

  /** The loop of parse_array, from an element on. */
  function ParseElements(s: Text): (r: Parsed<seq<Json>>)
    ensures r.Ok? ==> |r.rest| < |s|
    decreases |s|, 1
  {
    var v := ParseValue(Skip(s));
    if !v.Ok? then Again(v)
    else
      var t := Skip(v.rest);
      if At(t, 0) == COMMA then
        var r := ParseElements(t[1..]);
        if r.Ok? then Ok([v.value] + r.value, r.rest) else r
      else if At(t, 0) == RBRACKET then Ok([v.value], t[1..])
      else Fail(t)
  }

  /** The loop of parse_object, from a name on. */
  function ParseMembers(s: Text): (r: Parsed<seq<Member>>)
    ensures r.Ok? ==> |r.rest| < |s|
    decreases |s|, 1
  {
    var k := ParseString(Skip(s));
    if !k.Ok? then Again(k)
    else
      var c := Skip(k.rest);
      if At(c, 0) != COLON then Fail(c)
      else
        var v := ParseValue(Skip(c[1..]));
        if !v.Ok? then Again(v)
        else
          var t := Skip(v.rest);
          if At(t, 0) == COMMA then
            var r := ParseMembers(t[1..]);
            if r.Ok? then Ok([Member(k.value, v.value)] + r.value, r.rest) else r
          else if At(t, 0) == RBRACE then Ok([Member(k.value, v.value)], t[1..])
          else Fail(t)
  }

  /** cJSON_ParseWithOpts: optionally insist that only white space follows. */
  function Parse(s: Text, requireEnd: bool): Parsed<Json> {
    var r := ParseValue(Skip(s));
    if r.Ok? && requireEnd then
      var t := Skip(r.rest);
      if t != [] then Fail(t) else Ok(r.value, t)
    else r
  }
}
