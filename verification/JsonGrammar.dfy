/** The texts parse_value accepts, as a grammar that extends section 2 of RFC 8259, and
    the proof that it reads exactly these, each as its value. */
module JsonGrammar {
  import opened Wrappers
  import opened JsonText
  import opened JsonPrint
  import opened JsonStrings

  // ----- The grammar -----

  datatype Power = Power(letter: Octet, sign: Text, digits: Text)

  /** Sign, leading zero, digits that begin with none, fraction and power. */
  datatype Numeral = Numeral(negative: bool, zero: bool, digits: Text, fraction: Option<Text>, power: Option<Power>)

  /** A JSON text with everything a writer may choose: white space, the spelling of
      numbers and the escapes of strings. */
  datatype Doc =
    | DNull
    | DBool(value: bool)
    | DNumber(numeral: Numeral)
    | DString(chars: seq<Char>)
    | DArray(blank: Text, items: seq<Item>)
    | DObject(blank: Text, fields: seq<Field>)
  datatype Item = Item(before: Text, value: Doc, after: Text)
  datatype Field = Field(before: Text, name: seq<Char>, beforeColon: Text, afterColon: Text, value: Doc, after: Text)

  /** White space as the source skips it: any byte up to the blank. */
  predicate IsBlank(t: Text) {
    forall i :: 0 <= i < |t| ==> t[i] <= 32
  }

  /** White space of the standard. */
  predicate StandardBlank(t: Text) {
    forall i :: 0 <= i < |t| ==> t[i] in {9, 10, 13, 32}
  }

  predicate AllDigits(t: Text) {
    forall i :: 0 <= i < |t| ==> IsDigit(t[i])
  }

  /** A numeral as parse_number takes it: it begins with a sign or a digit. */
  predicate GoodNumeral(n: Numeral) {
    && AllDigits(n.digits) && (n.digits == [] || n.digits[0] != 48) && (n.negative || n.zero || n.digits != [])
    && (n.fraction.Some? ==> AllDigits(n.fraction.value) && n.fraction.value != [])
    && (n.power.Some? ==> GoodPower(n.power.value))
  }

  predicate GoodPower(p: Power) {
    p.letter in {101, 69} && p.sign in {[], [43], [MINUS]} && AllDigits(p.digits)
  }

  /** A numeral of the standard: a zero or other digits, and digits in the power. */
  predicate StandardNumeral(n: Numeral) {
    GoodNumeral(n) && n.zero == (n.digits == []) && (n.power.Some? ==> n.power.value.digits != [])
  }

  ghost predicate WellFormed(d: Doc) {
    match d
    case DNumber(n) => GoodNumeral(n)
    case DString(cs) => ReadableChars(cs)
    case DArray(blank, items) =>
      IsBlank(blank) && forall i :: 0 <= i < |items| ==> IsBlank(items[i].before) && WellFormed(items[i].value) && IsBlank(items[i].after)
    case DObject(blank, fields) =>
      && IsBlank(blank)
      && forall i :: 0 <= i < |fields| ==> GoodSpacing(fields[i]) && ReadableChars(fields[i].name) && WellFormed(fields[i].value)
    case _ => true
  }

  predicate GoodSpacing(f: Field) {
    IsBlank(f.before) && IsBlank(f.beforeColon) && IsBlank(f.afterColon) && IsBlank(f.after)
  }

  /** The texts of section 2 of RFC 8259. */
  ghost predicate Standard(d: Doc) {
    match d
    case DNumber(n) => StandardNumeral(n)
    case DString(cs) => StandardChars(cs)
    case DArray(blank, items) =>
      StandardBlank(blank)
      && forall i :: 0 <= i < |items| ==>
           StandardBlank(items[i].before) && Standard(items[i].value) && StandardBlank(items[i].after)
    case DObject(blank, fields) =>
      && StandardBlank(blank)
      && forall i :: 0 <= i < |fields| ==>
           StandardSpacing(fields[i]) && StandardChars(fields[i].name) && Standard(fields[i].value)
    case _ => true
  }

  predicate StandardSpacing(f: Field) {
    StandardBlank(f.before) && StandardBlank(f.beforeColon) && StandardBlank(f.afterColon) && StandardBlank(f.after)
  }

  /** The source accepts every text of the standard. */
  lemma {:induction false} StandardAccepted(d: Doc)
    requires Standard(d)
    ensures WellFormed(d)
  {
    match d
    case DArray(blank, items) =>
      forall i | 0 <= i < |items| ensures WellFormed(items[i].value) { StandardAccepted(items[i].value); }
    case DObject(blank, fields) =>
      forall i | 0 <= i < |fields| ensures WellFormed(fields[i].value) { StandardAccepted(fields[i].value); }
    case _ =>
  }

  // ----- Its texts -----

  function FractionText(f: Option<Text>): Text {
    if f.Some? then [46] + f.value else []
  }

  function PowerText(p: Option<Power>): Text {
    if p.Some? then [p.value.letter] + p.value.sign + p.value.digits else []
  }

  function SignText(negative: bool): Text {
    if negative then [MINUS] else []
  }

  function ZeroText(zero: bool): Text {
    if zero then [48] else []
  }

  function NumberText(n: Numeral): Text {
    SignText(n.negative) + (ZeroText(n.zero) + n.digits) + FractionText(n.fraction) + PowerText(n.power)
  }

  function LiteralText(cs: seq<Char>): Text {
    [QUOTE] + Source(cs) + [QUOTE]
  }

  function DocText(d: Doc): Text {
    match d
    case DNull => NULL_TEXT
    case DBool(b) => if b then TRUE_TEXT else FALSE_TEXT
    case DNumber(n) => NumberText(n)
    case DString(cs) => LiteralText(cs)
    case DArray(blank, items) => [LBRACKET] + (if items == [] then blank else ItemsText(items)) + [RBRACKET]
    case DObject(blank, fields) => [LBRACE] + (if fields == [] then blank else FieldsText(fields)) + [RBRACE]
  }

  function ItemsText(items: seq<Item>): Text
    requires items != []
  {
    var first := items[0].before + DocText(items[0].value) + items[0].after;
    if |items| == 1 then first else first + [COMMA] + ItemsText(items[1..])
  }

  function FieldHead(f: Field): Text {
    f.before + LiteralText(f.name) + f.beforeColon + [COLON] + f.afterColon
  }

  function FieldsText(fields: seq<Field>): Text
    requires fields != []
  {
    var first := FieldHead(fields[0]) + DocText(fields[0].value) + fields[0].after;
    if |fields| == 1 then first else first + [COMMA] + FieldsText(fields[1..])
  }

  // ----- Its values -----

  function PowerValue(p: Option<Power>): int
    requires p.Some? ==> GoodPower(p.value)
  {
    if p.None? then 0
    else if p.value.sign == [MINUS] then -(Value(p.value.digits, 0) as int)
    else Value(p.value.digits, 0)
  }

  /** The number m * 10^e of a numeral. */
  function NumberValue(n: Numeral): Json
    requires GoodNumeral(n)
  {
    var m := if n.fraction.Some? then Value(n.digits + n.fraction.value, 0) else Value(n.digits, 0);
    var scale := if n.fraction.Some? then |n.fraction.value| else 0;
    Num(if n.negative then -(m as int) else m, PowerValue(n.power) - scale)
  }

  ghost function DocValue(d: Doc): Json
    requires WellFormed(d)
  {
    match d
    case DNull => Null
    case DBool(b) => Bool(b)
    case DNumber(n) => NumberValue(n)
    case DString(cs) => Str(Meaning(cs))
    case DArray(_, items) => Arr(seq(|items|, i requires 0 <= i < |items| => DocValue(items[i].value)))
    case DObject(_, fields) =>
      Obj(seq(|fields|, i requires 0 <= i < |fields| => Member(Meaning(fields[i].name), DocValue(fields[i].value))))
  }

  // ----- Numbers -----

  lemma {:induction false} ValueAppend(a: Text, b: Text, n: nat)
    requires AllDigits(a) && AllDigits(b)
    ensures AllDigits(a + b) && Value(a + b, n) == Value(b, Value(a, n))
  {
    if a == [] {
      assert a + b == b;
    } else {
      assert (a + b)[1..] == a[1..] + b;
      ValueAppend(a[1..], b, n * 10 + (a[0] as int - 48));
    }
  }

  /** Text that cannot be taken for more of any numeral. */
  predicate NumeralEnds(t: Text) {
    NumberEnds(t) && At(t, 0) != 43 && At(t, 0) != MINUS
  }

  lemma IntegerRead(negative: bool, zero: bool, digits: Text, t: Text)
    requires AllDigits(digits) && (digits == [] || digits[0] != 48) && !IsDigit(At(t, 0))
    requires negative || zero || digits != []
    ensures IntegerPart(SignText(negative) + ((ZeroText(zero) + digits) + t)) == (negative, Value(digits, 0), t)
  {
    var ds := digits + t;
    var s1 := ZeroText(zero) + ds;
    assert (ZeroText(zero) + digits) + t == s1;
    DigitsRead(digits, 0, t);
    hide Digits, Value;
    assert digits == [] ==> ds == t;
    AfterZero(zero, ds);
    AfterSign(negative, s1);
    hide SignText, ZeroText;
    IntegerSteps(SignText(negative) + s1, s1, ds, negative, zero);
    hide IntegerPart;
  }

  lemma IntegerSteps(s: Text, s1: Text, s2: Text, negative: bool, zero: bool)
    requires negative == (At(s, 0) == MINUS) && s1 == (if negative then s[1..] else s)
    requires zero == (At(s1, 0) == 48) && s2 == (if zero then s1[1..] else s1)
    ensures var (n, t) := if 49 <= At(s2, 0) <= 57 then Digits(s2, 0) else (0, s2); IntegerPart(s) == (negative, n, t)
  {
    hide Digits;
  }

  lemma AfterZero(zero: bool, ds: Text)
    requires zero || At(ds, 0) != 48
    ensures var s := ZeroText(zero) + ds; (At(s, 0) == 48) == zero && (if zero then s[1..] else s) == ds
  {
    if zero { assert ([48] + ds)[1..] == ds; } else { assert [] + ds == ds; }
  }

  lemma AfterSign(negative: bool, t: Text)
    requires negative || At(t, 0) != MINUS
    ensures var s := SignText(negative) + t; (At(s, 0) == MINUS) == negative && (if negative then s[1..] else s) == t
  {
    if negative { assert ([MINUS] + t)[1..] == t; } else { assert [] + t == t; }
  }

  lemma FractionRead(fraction: Option<Text>, n: nat, t: Text)
    requires fraction.Some? ==> AllDigits(fraction.value) && fraction.value != []
    requires !IsDigit(At(t, 0)) && (fraction.None? ==> !(At(t, 0) == 46 && IsDigit(At(t, 1))))
    ensures Fraction(FractionText(fraction) + t, n) ==
            if fraction.Some? then (Value(fraction.value, n), -|fraction.value|, t) else (n, 0, t)
  {
    var s := FractionText(fraction) + t;
    if fraction.Some? {
      assert s[1..] == fraction.value + t;
      DigitsRead(fraction.value, n, t);
    } else {
      assert s == t;
    }
  }

  lemma PowerRead(power: Option<Power>, t: Text)
    requires (power.Some? ==> GoodPower(power.value)) && NumeralEnds(t)
    ensures Exponent(PowerText(power) + t) == (PowerValue(power), t)
  {
    if power.Some? {
      var p := power.value;
      DigitsRead(p.digits, 0, t);
      PowerLayout(p, t);
      assert p.digits == [] ==> p.digits + t == t;
      SignRead(p.letter, p.sign, p.digits + t, Value(p.digits, 0), t);
      hide Digits, Value, Exponent;
    } else {
      assert PowerText(power) + t == t;
    }
  }

  lemma PowerLayout(p: Power, t: Text)
    ensures PowerText(Some(p)) + t == [p.letter] + (p.sign + (p.digits + t))
  {
  }

  lemma SignRead(letter: Octet, sign: Text, ds: Text, n: nat, t: Text)
    requires letter in {101, 69} && sign in {[], [43], [MINUS]} && Digits(ds, 0) == (n, t)
    requires At(ds, 0) != 43 && At(ds, 0) != MINUS
    ensures Exponent([letter] + (sign + ds)) == ((if sign == [MINUS] then -(n as int) else n), t)
  {
    hide Digits;
    var s := [letter] + (sign + ds);
    assert s[1..] == sign + ds;
    if sign == [] {
      assert sign + ds == ds;
    } else {
      assert (sign + ds)[1..] == ds;
    }
  }

  /** Every numeral is read as its value. */
  lemma NumeralParse(n: Numeral, rest: Text)
    requires GoodNumeral(n) && NumeralEnds(rest)
    ensures ParseNumber(NumberText(n) + rest) == Ok(NumberValue(n), rest)
  {
    hide IntegerPart, Fraction, Exponent, Value, NumberEnds, SignText, ZeroText;
    var t2 := PowerText(n.power) + rest;
    var t1 := FractionText(n.fraction) + t2;
    NumberLayout(SignText(n.negative), ZeroText(n.zero) + n.digits, FractionText(n.fraction), PowerText(n.power), rest);
    PowerHead(n.power, rest);
    FractionHead(n.fraction, t2);
    hide FractionText, PowerText;
    IntegerRead(n.negative, n.zero, n.digits, t1);
    FractionRead(n.fraction, Value(n.digits, 0), t2);
    PowerRead(n.power, rest);
    if n.fraction.Some? { ValueAppend(n.digits, n.fraction.value, 0); }
  }

  lemma NumberLayout(sign: Text, digits: Text, f: Text, p: Text, rest: Text)
    ensures sign + digits + f + p + rest == sign + (digits + (f + (p + rest)))
  {
  }

  lemma PowerHead(power: Option<Power>, rest: Text)
    requires (power.Some? ==> GoodPower(power.value)) && NumberEnds(rest)
    ensures var t := PowerText(power) + rest; !IsDigit(At(t, 0)) && !(At(t, 0) == 46 && IsDigit(At(t, 1)))
  {
    assert [] + rest == rest;
  }

  lemma FractionHead(fraction: Option<Text>, t: Text)
    requires !IsDigit(At(t, 0))
    ensures !IsDigit(At(FractionText(fraction) + t, 0))
  {
    assert [] + t == t;
  }

  // ----- Continuations -----

  /** The text of a document with `k` behind it. */
  function Write(d: Doc, k: Text): Text
    decreases d, 0
  {
    match d
    case DArray(blank, items) => [LBRACKET] + (if items == [] then blank + ([RBRACKET] + k) else WriteItems(items, k))
    case DObject(blank, fields) => [LBRACE] + (if fields == [] then blank + ([RBRACE] + k) else WriteFields(fields, k))
    case _ => DocText(d) + k
  }

  function WriteItems(items: seq<Item>, k: Text): Text
    requires items != []
    decreases items, 1
  {
    items[0].before + Write(items[0].value, items[0].after + ItemsTail(items, k))
  }

  function ItemsTail(items: seq<Item>, k: Text): Text
    requires items != []
    decreases items, 0
  {
    if |items| == 1 then [RBRACKET] + k else [COMMA] + WriteItems(items[1..], k)
  }

  function WriteFields(fields: seq<Field>, k: Text): Text
    requires fields != []
    decreases fields, 1
  {
    var f := fields[0];
    f.before + (LiteralText(f.name) + (f.beforeColon + ([COLON] + (f.afterColon + Write(f.value, f.after + FieldsTail(fields, k))))))
  }

  function FieldsTail(fields: seq<Field>, k: Text): Text
    requires fields != []
    decreases fields, 0
  {
    if |fields| == 1 then [RBRACE] + k else [COMMA] + WriteFields(fields[1..], k)
  }

  lemma Enclosed(open: Text, x: Text, close: Text, k: Text)
    ensures open + (x + (close + k)) == open + x + close + k
  {
  }

  /** A part, then a separator and more, or the end. */
  lemma Separated(x: Text, sep: Text, more: Text, k: Text)
    ensures x + (sep + (more + k)) == x + sep + more + k
  {
  }

  lemma {:induction false} WriteText(d: Doc, k: Text)
    ensures Write(d, k) == DocText(d) + k
    decreases d, 0
  {
    match d
    case DArray(blank, items) => WriteArrayText(d, k);
    case DObject(blank, fields) => WriteObjectText(d, k);
    case _ =>
    hide DocText;
  }

  lemma {:induction false} WriteArrayText(d: Doc, k: Text)
    requires d.DArray?
    ensures Write(d, k) == DocText(d) + k
    decreases d.items, 2
  {
    hide WriteItems, ItemsText;
    if d.items != [] { WriteItemsText(d.items, k); }
    Enclosed([LBRACKET], if d.items == [] then d.blank else ItemsText(d.items), [RBRACKET], k);
  }

  lemma {:induction false} WriteObjectText(d: Doc, k: Text)
    requires d.DObject?
    ensures Write(d, k) == DocText(d) + k
    decreases d.fields, 2
  {
    hide WriteFields, FieldsText;
    if d.fields != [] { WriteFieldsText(d.fields, k); }
    Enclosed([LBRACE], if d.fields == [] then d.blank else FieldsText(d.fields), [RBRACE], k);
  }

  lemma ItemsTextUnfold(items: seq<Item>)
    requires items != []
    ensures var first := items[0].before + DocText(items[0].value) + items[0].after;
            ItemsText(items) == if |items| == 1 then first else first + [COMMA] + ItemsText(items[1..])
  {
    hide DocText;
  }

  lemma {:induction false} WriteItemsText(items: seq<Item>, k: Text)
    requires items != []
    ensures WriteItems(items, k) == ItemsText(items) + ([RBRACKET] + k)
    decreases items, 1
  {
    hide Write, WriteItems, ItemsTail, DocText, ItemsText;
    var i, tail := items[0], ItemsTail(items, k);
    ItemsUnfold(items, k);
    ItemsTextUnfold(items);
    WriteText(i.value, i.after + tail);
    Separated(i.before, DocText(i.value), i.after, tail);
    if |items| > 1 {
      WriteItemsText(items[1..], k);
      Separated(i.before + DocText(i.value) + i.after, [COMMA], ItemsText(items[1..]), [RBRACKET] + k);
    }
  }

  lemma FieldsTextUnfold(fields: seq<Field>)
    requires fields != []
    ensures var first := FieldHead(fields[0]) + DocText(fields[0].value) + fields[0].after;
            FieldsText(fields) == if |fields| == 1 then first else first + [COMMA] + FieldsText(fields[1..])
  {
    hide DocText, FieldHead;
  }

  lemma {:induction false} WriteFieldsText(fields: seq<Field>, k: Text)
    requires fields != []
    ensures WriteFields(fields, k) == FieldsText(fields) + ([RBRACE] + k)
    decreases fields, 1
  {
    hide Write, WriteFields, FieldsTail, DocText, FieldsText, FieldHead, LiteralText;
    var f, tail := fields[0], FieldsTail(fields, k);
    FieldsUnfold(fields, k);
    FieldsTextUnfold(fields);
    WriteText(f.value, f.after + tail);
    FieldLayout(f, Write(f.value, f.after + tail));
    Separated(FieldHead(f), DocText(f.value), f.after, tail);
    if |fields| > 1 {
      WriteFieldsText(fields[1..], k);
      Separated(FieldHead(f) + DocText(f.value) + f.after, [COMMA], FieldsText(fields[1..]), [RBRACE] + k);
    }
  }

  lemma FieldLayout(f: Field, x: Text)
    ensures f.before + (LiteralText(f.name) + (f.beforeColon + ([COLON] + (f.afterColon + x)))) == FieldHead(f) + x
  {
    hide LiteralText;
  }

  // ----- Parsing -----

  lemma {:induction false} SkipBlank(b: Text, t: Text)
    requires IsBlank(b)
    ensures Skip(b + t) == Skip(t)
  {
    if b == [] {
      assert b + t == t;
    } else {
      assert (b + t)[1..] == b[1..] + t;
      SkipBlank(b[1..], t);
    }
  }

  /** White space, then text that does not begin with any. */
  lemma SkipTo(b: Text, t: Text)
    requires IsBlank(b) && t != [] && t[0] > 32
    ensures Skip(b + t) == t
  {
    SkipBlank(b, t);
    SkipNone(t);
  }

  /** What follows a value inside an array or object ends a number. */
  lemma BlankEnds(b: Text, t: Text)
    requires IsBlank(b) && t != [] && t[0] in {COMMA, RBRACKET, RBRACE}
    ensures NumeralEnds(b + t)
  {
    if b != [] { assert (b + t)[0] == b[0]; } else { assert b + t == t; }
  }

  /** The first byte of a document. */
  lemma WriteStart(d: Doc, k: Text)
    requires WellFormed(d)
    ensures var s := Write(d, k); s != [] && s[0] > 32 && s[0] != RBRACKET && s[0] != RBRACE
  {
    hide WriteItems, WriteFields;
    match d
    case DNumber(n) => NumberFirst(n, k);
    case _ =>
  }

  lemma NumberFirst(n: Numeral, k: Text)
    requires GoodNumeral(n)
    ensures var s := NumberText(n) + k; s != [] && (s[0] == MINUS || IsDigit(s[0]))
  {
    var t := FractionText(n.fraction) + (PowerText(n.power) + k);
    NumberLayout(SignText(n.negative), ZeroText(n.zero) + n.digits, FractionText(n.fraction), PowerText(n.power), k);
    hide FractionText, PowerText;
    var s := SignText(n.negative) + ((ZeroText(n.zero) + n.digits) + t);
    if !n.negative && !n.zero { assert s[0] == n.digits[0]; }
  }

  lemma NumberStep(s: Text)
    requires s != [] && (s[0] == MINUS || IsDigit(s[0]))
    ensures ParseValue(s) == ParseNumber(s)
  {
    NotPrefix(NULL_TEXT, s);
    NotPrefix(FALSE_TEXT, s);
    NotPrefix(TRUE_TEXT, s);
    hide ParseNumber;
  }

  lemma StringStep(s: Text, v: Text, rest: Text)
    requires s != [] && s[0] == QUOTE && ParseString(s) == Ok(v, rest)
    ensures ParseValue(s) == Ok(Str(v), rest)
  {
    NotPrefix(NULL_TEXT, s);
    NotPrefix(FALSE_TEXT, s);
    NotPrefix(TRUE_TEXT, s);
    hide ParseString;
  }

  lemma NullParse(rest: Text)
    ensures ParseValue(NULL_TEXT + rest) == Ok(Null, rest)
  {
    var s := NULL_TEXT + rest;
    assert NULL_TEXT <= s && s[4..] == rest;
  }

  lemma StringDoc(cs: seq<Char>, rest: Text)
    requires ReadableChars(cs)
    ensures ParseString(LiteralText(cs) + rest) == Ok(Meaning(cs), rest)
    ensures ParseValue(LiteralText(cs) + rest) == Ok(Str(Meaning(cs)), rest)
  {
    LiteralParse(cs, rest);
    hide ParseString, ParseValue, Meaning, Source;
    var s := [QUOTE] + Source(cs) + [QUOTE] + rest;
    assert LiteralText(cs) + rest == s;
    StringStep(s, Meaning(cs), rest);
  }

  /** Every text of the grammar, before any rest that ends a numeral, is read as its
      value and leaves exactly the rest. */
  lemma {:induction false} WriteParse(d: Doc, rest: Text)
    requires WellFormed(d) && NumeralEnds(rest)
    ensures ParseValue(Write(d, rest)) == Ok(DocValue(d), rest)
    decreases d, 0
  {
    match d
    case DNull => NullParse(rest);
    case DBool(b) => BoolParse(b, rest);
    case DNumber(n) =>
      NumeralParse(n, rest);
      NumberFirst(n, rest);
      NumberStep(NumberText(n) + rest);
    case DString(cs) => StringDoc(cs, rest);
    case DArray(blank, items) => ArrayDoc(d, rest);
    case DObject(blank, fields) => ObjectDoc(d, rest);
    hide ParseValue;
  }

  ghost predicate GoodItems(items: seq<Item>) {
    forall i :: 0 <= i < |items| ==> IsBlank(items[i].before) && WellFormed(items[i].value) && IsBlank(items[i].after)
  }

  ghost function ItemsValue(items: seq<Item>): (vs: seq<Json>)
    requires GoodItems(items)
    ensures |vs| == |items|
  {
    seq(|items|, i requires 0 <= i < |items| => DocValue(items[i].value))
  }

  lemma {:induction false} ArrayDoc(d: Doc, rest: Text)
    requires WellFormed(d) && d.DArray?
    ensures ParseValue(Write(d, rest)) == Ok(DocValue(d), rest)
    decreases d.items, 2
  {
    hide ParseValue, ParseElements;
    var s, items := Write(d, rest), d.items;
    var close := [RBRACKET] + rest;
    assert GoodItems(items) && DocValue(d) == Arr(ItemsValue(items));
    if items == [] {
      assert s[1..] == d.blank + close;
      SkipTo(d.blank, close);
      ArrayStep(s, close);
      assert close[1..] == rest && ItemsValue(items) == [];
    } else {
      var body := WriteItems(items, rest);
      assert s[1..] == body;
      ItemsDoc(items, rest);
      ArrayStep(s, Skip(body));
    }
  }

  lemma ElementsSkip(s: Text)
    requires Skip(s) != []
    ensures ParseElements(Skip(s)) == ParseElements(s)
  {
    SkipNone(Skip(s));
  }

  lemma {:induction false} ItemsDoc(items: seq<Item>, rest: Text)
    requires items != [] && GoodItems(items)
    ensures var body := WriteItems(items, rest);
            && At(Skip(body), 0) != RBRACKET && ParseElements(Skip(body)) == Ok(ItemsValue(items), rest)
            && ParseElements(body) == Ok(ItemsValue(items), rest)
    decreases items, 1
  {
    hide ParseValue, ParseElements, Write, WriteItems, ItemsTail, NumeralEnds, Skip, DocValue;
    var i, tail := items[0], ItemsTail(items, rest);
    var body, first := WriteItems(items, rest), Write(i.value, i.after + tail);
    ItemsUnfold(items, rest);
    WriteStart(i.value, i.after + tail);
    SkipTo(i.before, first);
    ElementsSkip(body);
    BlankEnds(i.after, tail);
    WriteParse(i.value, i.after + tail);
    SkipTo(i.after, tail);
    ElementsStep(body, DocValue(i.value), i.after + tail);
    if |items| == 1 {
      assert tail[1..] == rest;
      assert ItemsValue(items) == [DocValue(i.value)];
    } else {
      assert GoodItems(items[1..]);
      ItemsDoc(items[1..], rest);
      assert tail[1..] == WriteItems(items[1..], rest);
      assert ItemsValue(items) == [DocValue(i.value)] + ItemsValue(items[1..]);
    }
  }

  lemma ItemsUnfold(items: seq<Item>, rest: Text)
    requires items != []
    ensures var tail := ItemsTail(items, rest);
            && WriteItems(items, rest) == items[0].before + Write(items[0].value, items[0].after + tail)
            && tail == (if |items| == 1 then [RBRACKET] + rest else [COMMA] + WriteItems(items[1..], rest))
  {
  }

  /** Values and texts of nonempty arrays and objects. */
  lemma ArrayOf(blank: Text, items: seq<Item>, rest: Text)
    requires IsBlank(blank) && items != [] && GoodItems(items)
    ensures var d := DArray(blank, items);
            WellFormed(d) && DocValue(d) == Arr(ItemsValue(items)) && Write(d, rest) == [LBRACKET] + WriteItems(items, rest)
  {
    hide WriteItems;
  }

  lemma ObjectOf(blank: Text, fields: seq<Field>, rest: Text)
    requires IsBlank(blank) && fields != [] && GoodFields(fields)
    ensures var d := DObject(blank, fields);
            WellFormed(d) && DocValue(d) == Obj(FieldsValue(fields)) && Write(d, rest) == [LBRACE] + WriteFields(fields, rest)
  {
    hide WriteFields;
  }

  ghost predicate GoodFields(fields: seq<Field>) {
    forall i :: 0 <= i < |fields| ==> GoodSpacing(fields[i]) && ReadableChars(fields[i].name) && WellFormed(fields[i].value)
  }

  ghost function FieldsValue(fields: seq<Field>): (ms: seq<Member>)
    requires GoodFields(fields)
    ensures |ms| == |fields|
  {
    seq(|fields|, i requires 0 <= i < |fields| => Member(Meaning(fields[i].name), DocValue(fields[i].value)))
  }

  lemma {:induction false} ObjectDoc(d: Doc, rest: Text)
    requires WellFormed(d) && d.DObject?
    ensures ParseValue(Write(d, rest)) == Ok(DocValue(d), rest)
    decreases d.fields, 2
  {
    hide ParseValue, ParseMembers;
    var s, fields := Write(d, rest), d.fields;
    var close := [RBRACE] + rest;
    assert GoodFields(fields) && DocValue(d) == Obj(FieldsValue(fields));
    if fields == [] {
      assert s[1..] == d.blank + close;
      SkipTo(d.blank, close);
      ObjectStep(s, close);
      assert close[1..] == rest && FieldsValue(fields) == [];
    } else {
      var body := WriteFields(fields, rest);
      assert s[1..] == body;
      FieldsDoc(fields, rest);
      ObjectStep(s, Skip(body));
    }
  }

  lemma {:induction false} FieldsDoc(fields: seq<Field>, rest: Text)
    requires fields != [] && GoodFields(fields)
    ensures var body := WriteFields(fields, rest);
            && At(Skip(body), 0) != RBRACE && ParseMembers(Skip(body)) == Ok(FieldsValue(fields), rest)
            && ParseMembers(body) == Ok(FieldsValue(fields), rest)
    decreases fields, 1
  {
    hide ParseValue, ParseMembers, Write, WriteFields, FieldsTail, NumeralEnds, Meaning, LiteralText, ParseString, Skip, DocValue;
    var f, tail := fields[0], FieldsTail(fields, rest);
    var body, first := WriteFields(fields, rest), Write(f.value, f.after + tail);
    FieldsUnfold(fields, rest);
    assert GoodSpacing(f);
    WriteStart(f.value, f.after + tail);
    BlankEnds(f.after, tail);
    WriteParse(f.value, f.after + tail);
    SkipTo(f.after, tail);
    NameDoc(f, first);
    MembersSkip(body);
    var c := f.beforeColon + ([COLON] + (f.afterColon + first));
    MembersStep(body, Meaning(f.name), c, DocValue(f.value), f.after + tail);
    if |fields| == 1 {
      assert tail[1..] == rest;
      assert FieldsValue(fields) == [Member(Meaning(f.name), DocValue(f.value))];
    } else {
      assert GoodFields(fields[1..]);
      FieldsDoc(fields[1..], rest);
      assert tail[1..] == WriteFields(fields[1..], rest);
      assert FieldsValue(fields) == [Member(Meaning(f.name), DocValue(f.value))] + FieldsValue(fields[1..]);
    }
  }

  /** The name and the colon in front of a value. */
  lemma NameDoc(f: Field, first: Text)
    requires GoodSpacing(f) && ReadableChars(f.name) && first != [] && first[0] > 32
    ensures var c := f.beforeColon + ([COLON] + (f.afterColon + first));
            var body := f.before + (LiteralText(f.name) + c);
            && Skip(body) != [] && At(Skip(body), 0) == QUOTE && ParseString(Skip(body)) == Ok(Meaning(f.name), c)
            && At(Skip(c), 0) == COLON && Skip(Skip(c)[1..]) == first
  {
    hide ParseString, Meaning, Source;
    var c := f.beforeColon + ([COLON] + (f.afterColon + first));
    var named := LiteralText(f.name) + c;
    SkipTo(f.before, named);
    StringDoc(f.name, c);
    var colon := [COLON] + (f.afterColon + first);
    SkipTo(f.beforeColon, colon);
    assert colon[1..] == f.afterColon + first;
    SkipTo(f.afterColon, first);
  }

  lemma FieldsUnfold(fields: seq<Field>, rest: Text)
    requires fields != []
    ensures var f, tail := fields[0], FieldsTail(fields, rest);
            && WriteFields(fields, rest) == f.before + (LiteralText(f.name) + (f.beforeColon + ([COLON] + (f.afterColon + Write(f.value, f.after + tail)))))
            && tail == (if |fields| == 1 then [RBRACE] + rest else [COMMA] + WriteFields(fields[1..], rest))
  {
  }

  /** cJSON_ParseWithOpts on any JSON text between white space, with or without the
      check for the end: its value. */
  lemma DocParse(d: Doc, before: Text, after: Text, requireEnd: bool)
    requires WellFormed(d) && IsBlank(before) && IsBlank(after)
    ensures Parse(before + DocText(d) + after, requireEnd) == Ok(DocValue(d), if requireEnd then [] else after)
  {
    hide ParseValue, DocValue, DocText, Write;
    var s := before + DocText(d) + after;
    WriteText(d, after);
    assert s == before + (DocText(d) + after);
    WriteStart(d, after);
    SkipTo(before, DocText(d) + after);
    EndsBlank(after);
    WriteParse(d, after);
    SkipBlank(after, []);
    assert after + [] == after;
  }

  lemma EndsBlank(b: Text)
    requires IsBlank(b)
    ensures NumeralEnds(b)
  {
    if b != [] { assert b[0] <= 32; }
  }
}
