/** The converse of the grammar: every text parse_value accepts is one of its texts, or
    a string cut by the end of the text. */
module JsonAccepts {
  import opened Wrappers
  import opened JsonText
  import opened JsonPrint
  import opened JsonStrings
  import opened JsonGrammar

  // ----- White space and numbers -----

  lemma {:induction false} BlankRead(s: Text) returns (b: Text)
    ensures IsBlank(b) && s == b + Skip(s)
    decreases |s|
  {
    if s != [] && s[0] <= 32 {
      var more := BlankRead(s[1..]);
      b := [s[0]] + more;
      assert s == [s[0]] + s[1..];
    } else {
      b := [];
    }
  }

  lemma {:induction false} DigitsSplit(s: Text, n: nat) returns (ds: Text)
    ensures AllDigits(ds) && Digits(s, n) == (Value(ds, n), Digits(s, n).1) && s == ds + Digits(s, n).1
    ensures s != [] && IsDigit(s[0]) ==> ds != [] && ds[0] == s[0]
    decreases |s|
  {
    if s != [] && IsDigit(s[0]) {
      var more := DigitsSplit(s[1..], n * 10 + (s[0] as int - 48));
      ds := [s[0]] + more;
      assert ds[1..] == more && s == [s[0]] + s[1..];
    } else {
      ds := [];
    }
  }

  lemma IntegerSplit(s: Text) returns (zero: bool, digits: Text)
    requires s != [] && (s[0] == MINUS || IsDigit(s[0]))
    ensures AllDigits(digits) && (digits == [] || digits[0] != 48)
    ensures var (negative, n, t) := IntegerPart(s);
            && (negative || zero || digits != []) && n == Value(digits, 0)
            && s == SignText(negative) + ((ZeroText(zero) + digits) + t)
  {
    var negative := At(s, 0) == MINUS;
    var s1 := if negative then s[1..] else s;
    zero := At(s1, 0) == 48;
    var s2 := if zero then s1[1..] else s1;
    digits := NonZeroSplit(s2);
    var t := if 49 <= At(s2, 0) <= 57 then Digits(s2, 0).1 else s2;
    hide Digits, Value;
    SplitLayout(s, negative, s1, zero, s2, digits, t);
    hide SignText, ZeroText;
  }

  lemma NonZeroSplit(s: Text) returns (digits: Text)
    ensures AllDigits(digits) && (digits == [] || digits[0] != 48) && (49 <= At(s, 0) <= 57 ==> digits != [])
    ensures var (n, t) := if 49 <= At(s, 0) <= 57 then Digits(s, 0) else (0, s); n == Value(digits, 0) && s == digits + t
  {
    if 49 <= At(s, 0) <= 57 {
      digits := DigitsSplit(s, 0);
    } else {
      digits := [];
      assert [] + s == s;
    }
    hide Digits;
  }

  lemma SplitLayout(s: Text, negative: bool, s1: Text, zero: bool, s2: Text, digits: Text, t: Text)
    requires negative == (At(s, 0) == MINUS) && s1 == (if negative then s[1..] else s)
    requires zero == (At(s1, 0) == 48) && s2 == (if zero then s1[1..] else s1) && s2 == digits + t
    ensures s == SignText(negative) + ((ZeroText(zero) + digits) + t)
  {
    assert s1 == ZeroText(zero) + s2;
    assert s == SignText(negative) + s1;
    assert ZeroText(zero) + (digits + t) == (ZeroText(zero) + digits) + t;
  }

  lemma FractionSplit(s: Text, digits: Text) returns (fraction: Option<Text>)
    requires AllDigits(digits)
    ensures fraction.Some? ==> AllDigits(fraction.value) && fraction.value != []
    ensures var (m, scale, t) := Fraction(s, Value(digits, 0));
            && s == FractionText(fraction) + t && scale == (if fraction.Some? then -|fraction.value| else 0)
            && m == if fraction.Some? then ValueOf(digits + fraction.value) else Value(digits, 0)
  {
    if At(s, 0) == 46 && IsDigit(At(s, 1)) {
      var ds := DigitsSplit(s[1..], Value(digits, 0));
      fraction := Some(ds);
      ValueAppend(digits, ds, 0);
      assert s == [46] + s[1..];
    } else {
      fraction := None;
    }
    hide Digits, Value;
  }

  /** The value of a digit string, 0 for other text. */
  function ValueOf(t: Text): nat {
    if AllDigits(t) then Value(t, 0) else 0
  }

  /** The digits of an exponent, behind the letter and a sign. */
  function PowerDigits(s: Text): Text
    requires s != []
  {
    if At(s, 1) == 43 || At(s, 1) == MINUS then s[2..] else s[1..]
  }

  lemma ExponentIs(s: Text)
    requires s != [] && s[0] in {101, 69}
    ensures var (e, t) := Digits(PowerDigits(s), 0);
            Exponent(s) == ((if At(s, 1) == MINUS then -(e as int) else e), t)
  {
    hide Digits;
    if |s| > 1 { assert s[1..][1..] == s[2..]; }
  }

  lemma PowerSplit(s: Text) returns (power: Option<Power>)
    ensures power.Some? ==> GoodPower(power.value)
    ensures var (e, t) := Exponent(s); s == PowerText(power) + t && e == PowerValue(power)
  {
    if At(s, 0) == 101 || At(s, 0) == 69 {
      ExponentIs(s);
      var ds := DigitsSplit(PowerDigits(s), 0);
      hide Digits, Value, Exponent;
      var rest := Digits(PowerDigits(s), 0).1;
      var p := Power(s[0], if At(s, 1) == 43 || At(s, 1) == MINUS then [s[1]] else [], ds);
      power := Some(p);
      PowerLayout(p, rest);
      PowerText1(s, p, ds + rest);
      hide PowerText, PowerDigits;
    } else {
      power := None;
      assert [] + s == s;
    }
  }

  lemma PowerText1(s: Text, p: Power, x: Text)
    requires s != [] && p.letter == s[0] && p.sign == (if At(s, 1) == 43 || At(s, 1) == MINUS then [s[1]] else [])
    requires PowerDigits(s) == x
    ensures s == [p.letter] + (p.sign + x)
  {
    if At(s, 1) == 43 || At(s, 1) == MINUS {
      assert s == [s[0]] + ([s[1]] + s[2..]);
    } else {
      assert s == [s[0]] + ([] + s[1..]);
    }
  }

  /** What parse_number takes is a numeral, and its value that of the numeral. */
  lemma NumeralRead(s: Text) returns (n: Numeral)
    requires s != [] && (s[0] == MINUS || IsDigit(s[0]))
    ensures GoodNumeral(n)
    ensures var r := ParseNumber(s); r.value == NumberValue(n) && s == NumberText(n) + r.rest
  {
    hide IntegerPart, Fraction, Exponent, Value, SignText, ZeroText, FractionText, PowerText, AllDigits;
    var (negative, m, s3) := IntegerPart(s);
    var zero, digits := IntegerSplit(s);
    var fraction := FractionSplit(s3, digits);
    var (m', scale, s4) := Fraction(s3, m);
    var power := PowerSplit(s4);
    n := Numeral(negative, zero, digits, fraction, power);
    if fraction.Some? { ValueAppend(digits, fraction.value, 0); }
    var t := Exponent(s4).1;
    NumberLayout(SignText(negative), ZeroText(zero) + digits, FractionText(fraction), PowerText(power), t);
  }

  // ----- Values -----

  /** Either a document with `rest` behind it, or a string cut by the end. */
  datatype Reading = Whole(doc: Doc) | CutString(chars: seq<Char>)

  ghost predicate Reads(r: Reading, s: Text, v: Json, rest: Text) {
    match r
    case Whole(d) => WellFormed(d) && DocValue(d) == v && s == Write(d, rest)
    case CutString(cs) => ReadableChars(cs) && v == Str(Meaning(cs)) && s == [QUOTE] + Source(cs) && rest == []
  }

  lemma StringRead(s: Text) returns (cs: seq<Char>, closed: bool)
    requires ParseString(s).Ok?
    ensures ReadableChars(cs) && ParseString(s).value == Meaning(cs)
    ensures s == if closed then LiteralText(cs) + ParseString(s).rest else [QUOTE] + Source(cs)
    ensures !closed ==> ParseString(s).rest == []
  {
    cs, closed := BodyRead(s[1..]);
    hide ParseChars, Source;
    var rest := ParseString(s).rest;
    assert s == [QUOTE] + s[1..];
    if closed {
      assert [QUOTE] + (Source(cs) + ([QUOTE] + rest)) == ([QUOTE] + Source(cs) + [QUOTE]) + rest;
    } else {
      assert Source(cs) + [] == Source(cs);
    }
  }

  /** Every text that is accepted is a text of the grammar with the rest behind it, and
      is read as its value; only a string may be cut by the end of the text. */
  lemma {:induction false} ValueRead(s: Text) returns (r: Reading)
    requires ParseValue(s).Ok?
    ensures Reads(r, s, ParseValue(s).value, ParseValue(s).rest)
    decreases |s|, 0
  {
    if NULL_TEXT <= s {
      r := Whole(DNull);
      assert s == NULL_TEXT + s[4..];
    } else if FALSE_TEXT <= s {
      r := Whole(DBool(false));
      assert s == FALSE_TEXT + s[5..];
    } else if TRUE_TEXT <= s {
      r := Whole(DBool(true));
      assert s == TRUE_TEXT + s[4..];
    } else if s[0] == QUOTE {
      r := StringValueRead(s);
    } else if s[0] == MINUS || IsDigit(s[0]) {
      NumberStep(s);
      var n := NumeralRead(s);
      r := Whole(DNumber(n));
      hide ParseValue, ParseNumber, NumberText, NumberValue;
    } else if s[0] == LBRACKET {
      var d := ArrayRead(s);
      r := Whole(d);
      hide ParseValue, Write;
    } else {
      var d := ObjectRead(s);
      r := Whole(d);
      hide ParseValue, Write;
    }
  }

  lemma StringValueRead(s: Text) returns (r: Reading)
    requires s != [] && s[0] == QUOTE && ParseValue(s).Ok?
    ensures Reads(r, s, ParseValue(s).value, ParseValue(s).rest)
  {
    NotPrefix(NULL_TEXT, s);
    NotPrefix(FALSE_TEXT, s);
    NotPrefix(TRUE_TEXT, s);
    assert ParseString(s).Ok? && ParseValue(s) == Ok(Str(ParseString(s).value), ParseString(s).rest);
    hide ParseString, ParseValue, Source, Meaning, LiteralText;
    var cs, closed := StringRead(s);
    r := if closed then Whole(DString(cs)) else CutString(cs);
  }

  /** parse_array after its bracket. */
  lemma ArraySteps(s: Text)
    requires s != [] && s[0] == LBRACKET && ParseValue(s).Ok?
    ensures var t := Skip(s[1..]);
            if At(t, 0) == RBRACKET then ParseValue(s) == Ok(Arr([]), t[1..])
            else ParseElements(t).Ok? && ParseValue(s) == Ok(Arr(ParseElements(t).value), ParseElements(t).rest)
  {
    NotPrefix(NULL_TEXT, s);
    NotPrefix(FALSE_TEXT, s);
    NotPrefix(TRUE_TEXT, s);
    hide ParseElements;
  }

  lemma {:induction false} ArrayRead(s: Text) returns (d: Doc)
    requires s != [] && s[0] == LBRACKET && ParseValue(s).Ok?
    ensures WellFormed(d) && DocValue(d) == ParseValue(s).value && s == Write(d, ParseValue(s).rest)
    decreases |s| - 1, 2
  {
    ArraySteps(s);
    hide ParseValue, ParseElements, Skip;
    var t := Skip(s[1..]);
    var b := BlankRead(s[1..]);
    assert s == [LBRACKET] + (b + t);
    if At(t, 0) == RBRACKET {
      d := DArray(b, []);
      assert t == [RBRACKET] + t[1..];
    } else {
      var items := ElementsRead(t);
      var all := Widened(items, b);
      d := DArray([], all);
      hide WriteItems, Widened, Write, DocValue, WellFormed, GoodItems;
      WidenedText(items, b, ParseElements(t).rest);
      ArrayOf([], all, ParseElements(t).rest);
    }
  }

  /** More white space in front of the first item. */
  function Widened(items: seq<Item>, b: Text): seq<Item>
    requires items != []
  {
    [items[0].(before := b + items[0].before)] + items[1..]
  }

  lemma WidenedText(items: seq<Item>, b: Text, rest: Text)
    requires items != [] && GoodItems(items) && IsBlank(b)
    ensures var all := Widened(items, b);
            && all != [] && GoodItems(all) && ItemsValue(all) == ItemsValue(items) && WriteItems(all, rest) == b + WriteItems(items, rest)
  {
    hide Write, WriteItems, ItemsTail, DocValue, WellFormed;
    var all := Widened(items, b);
    ItemsUnfold(items, rest);
    ItemsUnfold(all, rest);
    assert all[1..] == items[1..];
    var x := Write(items[0].value, items[0].after + ItemsTail(items, rest));
    assert b + (items[0].before + x) == (b + items[0].before) + x;
  }

  lemma ElementsSteps(s: Text)
    requires ParseElements(s).Ok?
    ensures var v := ParseValue(Skip(s));
            && v.Ok?
            && var t := Skip(v.rest);
               if At(t, 0) == COMMA
               then ParseElements(t[1..]).Ok?
                    && ParseElements(s) == Ok([v.value] + ParseElements(t[1..]).value, ParseElements(t[1..]).rest)
               else At(t, 0) == RBRACKET && ParseElements(s) == Ok([v.value], t[1..])
  {
    hide ParseValue;
  }

  lemma {:induction false} ElementsRead(s: Text) returns (items: seq<Item>)
    requires ParseElements(s).Ok?
    ensures items != [] && GoodItems(items) && ItemsValue(items) == ParseElements(s).value
    ensures s == WriteItems(items, ParseElements(s).rest)
    decreases |s|, 1
  {
    hide ParseValue, ParseElements, Skip, Write, WriteItems, ItemsTail, ItemsValue, DocValue, WellFormed, GoodItems, Reads;
    ElementsSteps(s);
    var b := BlankRead(s);
    var v := ParseValue(Skip(s));
    var t := Skip(v.rest);
    var a := BlankRead(v.rest);
    var r := ValueRead(Skip(s));
    var d := NotCut(r, Skip(s), v.value, v.rest, t);
    var item, more := Item(b, d, a), [];
    NoKids();
    if At(t, 0) == COMMA {
      more := ElementsRead(t[1..]);
    }
    items := [item] + more;
    ItemsCons(item, more);
    ItemsJoin(item, more, t, ParseElements(s).rest);
  }

  /** The first item and the others. */
  lemma ItemsJoin(item: Item, more: seq<Item>, t: Text, rest: Text)
    requires t != [] && if more == [] then t[0] == RBRACKET && t[1..] == rest else t[0] == COMMA && t[1..] == WriteItems(more, rest)
    ensures WriteItems([item] + more, rest) == item.before + Write(item.value, item.after + t)
  {
    hide Write, WriteItems, ItemsTail;
    var items := [item] + more;
    ItemsUnfold(items, rest);
    assert items[1..] == more;
    assert t == [t[0]] + t[1..];
  }

  lemma NoKids()
    ensures GoodItems([]) && ItemsValue([]) == [] && GoodFields([]) && FieldsValue([]) == []
  {
  }

  lemma ItemsCons(i: Item, more: seq<Item>)
    requires IsBlank(i.before) && WellFormed(i.value) && IsBlank(i.after) && GoodItems(more)
    ensures GoodItems([i] + more) && ItemsValue([i] + more) == [DocValue(i.value)] + ItemsValue(more)
  {
    hide DocValue, WellFormed;
  }

  /** What is followed by a separator is not cut. */
  lemma NotCut(r: Reading, s: Text, v: Json, rest: Text, t: Text) returns (d: Doc)
    requires Reads(r, s, v, rest) && At(t, 0) != 0 && t == Skip(rest)
    ensures WellFormed(d) && DocValue(d) == v && s == Write(d, rest)
  {
    assert Skip([]) == [];
    if r.CutString? { assert false; }
    d := r.doc;
  }

  /** parse_object after its brace. */
  lemma ObjectSteps(s: Text)
    requires s != [] && ParseValue(s).Ok? && s[0] != LBRACKET && s[0] != QUOTE && s[0] != MINUS && !IsDigit(s[0])
    requires !(NULL_TEXT <= s) && !(FALSE_TEXT <= s) && !(TRUE_TEXT <= s)
    ensures s[0] == LBRACE
    ensures var t := Skip(s[1..]);
            if At(t, 0) == RBRACE then ParseValue(s) == Ok(Obj([]), t[1..])
            else ParseMembers(t).Ok? && ParseValue(s) == Ok(Obj(ParseMembers(t).value), ParseMembers(t).rest)
  {
    hide ParseMembers;
  }

  lemma {:induction false} ObjectRead(s: Text) returns (d: Doc)
    requires s != [] && ParseValue(s).Ok? && s[0] != LBRACKET && s[0] != QUOTE && s[0] != MINUS && !IsDigit(s[0])
    requires !(NULL_TEXT <= s) && !(FALSE_TEXT <= s) && !(TRUE_TEXT <= s)
    ensures WellFormed(d) && DocValue(d) == ParseValue(s).value && s == Write(d, ParseValue(s).rest)
    decreases |s| - 1, 2
  {
    hide ParseValue, ParseMembers, Skip, WriteFields, WidenedFields, Write, DocValue, WellFormed, GoodFields, FieldsValue;
    ObjectSteps(s);
    var t, rest := Skip(s[1..]), ParseValue(s).rest;
    var b := BlankRead(s[1..]);
    if At(t, 0) == RBRACE {
      d := DObject(b, []);
      EmptyObject(s, b, t);
    } else {
      var fields := MembersRead(t);
      var all := WidenedFields(fields, b);
      d := DObject([], all);
      WidenedFieldsText(fields, b, rest);
      ObjectOf([], all, rest);
      assert s == [LBRACE] + s[1..];
    }
  }

  lemma EmptyObject(s: Text, b: Text, t: Text)
    requires s != [] && s[0] == LBRACE && s[1..] == b + t && At(t, 0) == RBRACE && IsBlank(b)
    ensures var d := DObject(b, []); WellFormed(d) && DocValue(d) == Obj([]) && s == Write(d, t[1..])
  {
    assert s == [LBRACE] + s[1..] && t == [RBRACE] + t[1..];
  }

  function WidenedFields(fields: seq<Field>, b: Text): seq<Field>
    requires fields != []
  {
    [fields[0].(before := b + fields[0].before)] + fields[1..]
  }

  lemma WidenedFieldsText(fields: seq<Field>, b: Text, rest: Text)
    requires fields != [] && GoodFields(fields) && IsBlank(b)
    ensures var all := WidenedFields(fields, b);
            && all != [] && GoodFields(all) && FieldsValue(all) == FieldsValue(fields)
            && WriteFields(all, rest) == b + WriteFields(fields, rest)
  {
    hide Write, WriteFields, FieldsTail, LiteralText, Meaning, DocValue;
    var all := WidenedFields(fields, b);
    FieldsUnfold(fields, rest);
    FieldsUnfold(all, rest);
    assert all[1..] == fields[1..];
    var f := fields[0];
    var x := LiteralText(f.name) + (f.beforeColon + ([COLON] + (f.afterColon + Write(f.value, f.after + FieldsTail(fields, rest)))));
    assert b + (f.before + x) == (b + f.before) + x;
  }

  lemma MembersSteps(s: Text)
    requires ParseMembers(s).Ok?
    ensures var k := ParseString(Skip(s));
            && k.Ok?
            && var c := Skip(k.rest);
               && At(c, 0) == COLON
               && var v := ParseValue(Skip(c[1..]));
                  && v.Ok?
                  && var t := Skip(v.rest);
                     if At(t, 0) == COMMA
                     then ParseMembers(t[1..]).Ok?
                          && ParseMembers(s) == Ok([Member(k.value, v.value)] + ParseMembers(t[1..]).value, ParseMembers(t[1..]).rest)
                     else At(t, 0) == RBRACE && ParseMembers(s) == Ok([Member(k.value, v.value)], t[1..])
  {
    hide ParseValue, ParseString;
  }

  lemma {:induction false} MembersRead(s: Text) returns (fields: seq<Field>)
    requires ParseMembers(s).Ok?
    ensures fields != [] && GoodFields(fields) && FieldsValue(fields) == ParseMembers(s).value
    ensures s == WriteFields(fields, ParseMembers(s).rest)
    decreases |s|, 1
  {
    hide ParseValue, ParseMembers, Skip, Write, ParseString, LiteralText, Meaning, WriteFields, FieldsTail, FieldsValue, DocValue;
    hide WellFormed, GoodFields, Reads, ReadableChars;
    MembersSteps(s);
    var k := ParseString(Skip(s));
    var c := Skip(k.rest);
    var v := ParseValue(Skip(c[1..]));
    var t := Skip(v.rest);
    var f, name := NameRead(s);
    var a := BlankRead(v.rest);
    var r := ValueRead(Skip(c[1..]));
    var d := NotCut(r, Skip(c[1..]), v.value, v.rest, t);
    var field, more := f.(value := d, after := a), [];
    NoKids();
    if At(t, 0) == COMMA {
      more := MembersRead(t[1..]);
    }
    fields := [field] + more;
    FieldsCons(field, more);
    FieldsJoin(field, more, t, ParseMembers(s).rest);
  }

  lemma FieldsJoin(f: Field, more: seq<Field>, t: Text, rest: Text)
    requires t != [] && if more == [] then t[0] == RBRACE && t[1..] == rest else t[0] == COMMA && t[1..] == WriteFields(more, rest)
    ensures WriteFields([f] + more, rest) ==
            f.before + (LiteralText(f.name) + (f.beforeColon + ([COLON] + (f.afterColon + Write(f.value, f.after + t)))))
  {
    hide Write, WriteFields, FieldsTail, LiteralText;
    var fields := [f] + more;
    FieldsUnfold(fields, rest);
    assert fields[1..] == more;
    assert t == [t[0]] + t[1..];
  }

  lemma FieldsCons(f: Field, more: seq<Field>)
    requires GoodSpacing(f) && ReadableChars(f.name) && WellFormed(f.value) && GoodFields(more)
    ensures GoodFields([f] + more)
    ensures FieldsValue([f] + more) == [Member(Meaning(f.name), DocValue(f.value))] + FieldsValue(more)
  {
    hide Meaning, DocValue, WellFormed, ReadableChars;
  }

  /** The name and the colon in front of a value. */
  lemma NameRead(s: Text) returns (f: Field, name: Text)
    requires ParseMembers(s).Ok?
    ensures ReadableChars(f.name) && name == Meaning(f.name) == ParseString(Skip(s)).value
    ensures IsBlank(f.before) && IsBlank(f.beforeColon) && IsBlank(f.afterColon)
    ensures var x := Skip(Skip(ParseString(Skip(s)).rest)[1..]);
            s == f.before + (LiteralText(f.name) + (f.beforeColon + ([COLON] + (f.afterColon + x))))
  {
    MembersSteps(s);
    hide ParseMembers, ParseValue, ParseString, LiteralText;
    var k := ParseString(Skip(s));
    var c := Skip(k.rest);
    var b := BlankRead(s);
    var bc := BlankRead(k.rest);
    var ac := BlankRead(c[1..]);
    var cs, closed := StringRead(Skip(s));
    assert Skip([]) == [];
    if !closed { assert false; }
    f := Field(b, cs, bc, ac, DNull, []);
    name := Meaning(cs);
    hide Skip, Meaning;
    assert c == [COLON] + c[1..];
  }
}
