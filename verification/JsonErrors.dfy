/** Where parse_value gives up: the position cJSON_GetErrorPtr reports. */
module JsonErrors {
  import opened Wrappers
  import opened JsonText
  import opened JsonPrint
  import opened JsonStrings
  import opened JsonGrammar

  // ----- Texts with one fault -----

  /** A text that is of the grammar up to a fault: where a value should begin, or inside
      an array or object, behind items or members that each have their comma, in another
      value, where a comma or the closing bracket should follow, where a name should
      begin or where its colon should follow. */
  datatype Broken =
    | NoValue
    | InItem(items: seq<Item>, before: Text, inner: Broken)
    | AfterItem(items: seq<Item>, item: Item)
    | NoName(fields: seq<Field>, before: Text)
    | NoColon(fields: seq<Field>, before: Text, name: seq<Char>, beforeColon: Text)
    | InField(fields: seq<Field>, before: Text, name: seq<Char>, beforeColon: Text, afterColon: Text, inner: Broken)
    | AfterField(fields: seq<Field>, field: Field)

  function WithCommas(items: seq<Item>, k: Text): Text {
    if items == [] then k
    else items[0].before + Write(items[0].value, items[0].after + ([44] + WithCommas(items[1..], k)))
  }

  function Named(before: Text, name: seq<Char>, k: Text): Text {
    before + (LiteralText(name) + k)
  }

  function Fielded(f: Field, k: Text): Text {
    Named(f.before, f.name, f.beforeColon + ([58] + (f.afterColon + Write(f.value, f.after + k))))
  }

  function FieldsWithCommas(fields: seq<Field>, k: Text): Text {
    if fields == [] then k else Fielded(fields[0], [44] + FieldsWithCommas(fields[1..], k))
  }

  /** The text, `t` being what stands from the fault on. */
  function BrokenText(b: Broken, t: Text): Text
    decreases b
  {
    match b
    case NoValue => t
    case InItem(items, before, inner) => [91] + WithCommas(items, before + BrokenText(inner, t))
    case AfterItem(items, last) => [91] + WithCommas(items, last.before + Write(last.value, last.after + t))
    case NoName(fields, before) => [123] + FieldsWithCommas(fields, before + t)
    case NoColon(fields, before, name, beforeColon) => [123] + FieldsWithCommas(fields, Named(before, name, beforeColon + t))
    case InField(fields, before, name, beforeColon, afterColon, inner) =>
      [123] + FieldsWithCommas(fields, Named(before, name, beforeColon + ([58] + (afterColon + BrokenText(inner, t)))))
    case AfterField(fields, last) => [123] + FieldsWithCommas(fields, Fielded(last, t))
  }

  /** The beginning of a value. */
  predicate Begins(t: Text) {
    NULL_TEXT <= t || FALSE_TEXT <= t || TRUE_TEXT <= t || At(t, 0) in {34, 45, 91, 123} || IsDigit(At(t, 0))
  }

  ghost predicate GoodItem(i: Item) {
    IsBlank(i.before) && WellFormed(i.value) && IsBlank(i.after)
  }

  ghost predicate GoodField(f: Field) {
    GoodSpacing(f) && ReadableChars(f.name) && WellFormed(f.value)
  }

  /** The parts are of the grammar, and what stands at the fault is not what is expected
      there; an empty array or object is no fault. */
  ghost predicate Faulty(b: Broken, t: Text)
    decreases b
  {
    && (t == [] || t[0] > 32)
    && match b
       case NoValue => !Begins(t)
       case InItem(items, before, inner) =>
         GoodItems(items) && IsBlank(before) && Faulty(inner, t) && (items == [] && inner.NoValue? ==> At(t, 0) != 93)
       case AfterItem(items, last) =>
         GoodItems(items) && GoodItem(last) && NumeralEnds(last.after + t) && At(t, 0) != 44 && At(t, 0) != 93
       case NoName(fields, before) =>
         GoodFields(fields) && IsBlank(before) && At(t, 0) != 34 && (fields == [] ==> At(t, 0) != 125)
       case NoColon(fields, before, name, beforeColon) =>
         GoodFields(fields) && IsBlank(before) && ReadableChars(name) && IsBlank(beforeColon) && At(t, 0) != 58
       case InField(fields, before, name, beforeColon, afterColon, inner) =>
         && GoodFields(fields) && IsBlank(before) && ReadableChars(name) && IsBlank(beforeColon) && IsBlank(afterColon)
         && Faulty(inner, t)
       case AfterField(fields, last) =>
         GoodFields(fields) && GoodField(last) && NumeralEnds(last.after + t) && At(t, 0) != 44 && At(t, 0) != 125
  }

  // ----- White space -----

  lemma SkipFault(b: Text, t: Text)
    requires IsBlank(b) && (t == [] || t[0] > 32)
    ensures Skip(b + t) == t && Skip(t) == t
  {
    SkipBlank(b, t);
  }

  lemma {:induction false} BrokenStart(b: Broken, t: Text)
    requires Faulty(b, t)
    ensures var s := BrokenText(b, t); (s == [] || s[0] > 32) && (!b.NoValue? ==> s != [] && s[0] in {91, 123})
  {
  }

  // ----- Arrays -----

  lemma ElementsFail(s: Text, t: Text)
    requires ParseValue(Skip(s)) == Fail(t)
    ensures ParseElements(s) == Fail(t)
  {
    hide ParseValue;
  }

  lemma ElementsEnd(s: Text, v: Json, r: Text)
    requires ParseValue(Skip(s)) == Ok(v, r) && At(Skip(r), 0) != COMMA && At(Skip(r), 0) != RBRACKET
    ensures ParseElements(s) == Fail(Skip(r))
  {
    hide ParseValue;
  }

  lemma ElementsMore(s: Text, v: Json, r: Text, t: Text)
    requires ParseValue(Skip(s)) == Ok(v, r) && At(Skip(r), 0) == COMMA && ParseElements(Skip(r)[1..]) == Fail(t)
    ensures ParseElements(s) == Fail(t)
  {
    hide ParseValue;
  }

  lemma ItemStart(i: Item, k: Text)
    requires GoodItem(i)
    ensures Skip(i.before + Write(i.value, k)) == Write(i.value, k) && At(Write(i.value, k), 0) != 93
  {
    hide Write;
    WriteStart(i.value, k);
    SkipTo(i.before, Write(i.value, k));
  }

  /** Behind whole items the fault stays where it is. */
  lemma {:induction false} ItemsFail(items: seq<Item>, k: Text, t: Text)
    requires GoodItems(items) && ParseElements(k) == Fail(t)
    ensures ParseElements(WithCommas(items, k)) == Fail(t)
  {
    if items != [] {
      hide ParseElements, ParseValue, Write, Skip, NumeralEnds, DocValue;
      var i, more := items[0], [44] + WithCommas(items[1..], k);
      assert GoodItems(items[1..]) && GoodItem(i);
      ItemsFail(items[1..], k, t);
      ItemStart(i, i.after + more);
      BlankEnds(i.after, more);
      WriteParse(i.value, i.after + more);
      SkipTo(i.after, more);
      assert more[1..] == WithCommas(items[1..], k);
      ElementsMore(WithCommas(items, k), DocValue(i.value), i.after + more, t);
    }
  }

  lemma ArrayFails(body: Text, t: Text)
    requires ParseElements(body) == Fail(t) && At(Skip(body), 0) != 93
    ensures ParseValue([91] + body) == Fail(t)
  {
    var s := [91] + body;
    assert s[1..] == body;
    NotPrefix(NULL_TEXT, s);
    NotPrefix(FALSE_TEXT, s);
    NotPrefix(TRUE_TEXT, s);
    SkipTwice(body);
    ElementsSame(body);
    hide ParseElements;
  }

  lemma SkipTwice(s: Text)
    ensures Skip(Skip(s)) == Skip(s)
  {
  }

  lemma ElementsSame(s: Text)
    ensures ParseElements(Skip(s)) == ParseElements(s)
  {
    SkipTwice(s);
    hide ParseValue;
  }

  lemma CommasStart(items: seq<Item>, k: Text)
    requires GoodItems(items) && (items == [] ==> At(Skip(k), 0) != 93)
    ensures At(Skip(WithCommas(items, k)), 0) != 93
  {
    if items != [] {
      hide Skip;
      ItemStart(items[0], items[0].after + ([44] + WithCommas(items[1..], k)));
    }
  }

  lemma LastItemFails(last: Item, t: Text)
    requires GoodItem(last) && NumeralEnds(last.after + t) && (t == [] || t[0] > 32) && At(t, 0) != 44 && At(t, 0) != 93
    ensures var k := last.before + Write(last.value, last.after + t); ParseElements(k) == Fail(t) && At(Skip(k), 0) != 93
  {
    hide ParseElements, ParseValue, Write, Skip, DocValue, NumeralEnds;
    var k := last.before + Write(last.value, last.after + t);
    ItemStart(last, last.after + t);
    WriteParse(last.value, last.after + t);
    SkipFault(last.after, t);
    ElementsEnd(k, DocValue(last.value), last.after + t);
  }

  // ----- Objects -----

  lemma MembersNoName(s: Text)
    requires At(Skip(s), 0) != QUOTE
    ensures ParseMembers(s) == Fail(Skip(s))
  {
    hide ParseValue;
  }

  lemma MembersNoColon(s: Text, name: Text, c: Text)
    requires ParseString(Skip(s)) == Ok(name, c) && At(Skip(c), 0) != COLON
    ensures ParseMembers(s) == Fail(Skip(c))
  {
    hide ParseValue, ParseString;
  }

  lemma MembersFail(s: Text, name: Text, c: Text, t: Text)
    requires ParseString(Skip(s)) == Ok(name, c) && At(Skip(c), 0) == COLON && ParseValue(Skip(Skip(c)[1..])) == Fail(t)
    ensures ParseMembers(s) == Fail(t)
  {
    hide ParseValue, ParseString;
  }

  lemma MembersEnd(s: Text, name: Text, c: Text, v: Json, r: Text)
    requires ParseString(Skip(s)) == Ok(name, c) && At(Skip(c), 0) == COLON && ParseValue(Skip(Skip(c)[1..])) == Ok(v, r)
    ensures At(Skip(r), 0) != COMMA && At(Skip(r), 0) != RBRACE ==> ParseMembers(s) == Fail(Skip(r))
    ensures forall t :: At(Skip(r), 0) == COMMA && ParseMembers(Skip(r)[1..]) == Fail(t) ==> ParseMembers(s) == Fail(t)
  {
    hide ParseValue, ParseString;
  }

  lemma NameRead(before: Text, name: seq<Char>, k: Text)
    requires IsBlank(before) && ReadableChars(name)
    ensures var s := Skip(Named(before, name, k));
            s == LiteralText(name) + k && At(s, 0) == 34 && ParseString(s) == Ok(Meaning(name), k)
  {
    hide ParseString, Meaning, Source;
    SkipTo(before, LiteralText(name) + k);
    StringDoc(name, k);
  }

  lemma ColonRead(b: Text, a: Text, x: Text)
    requires IsBlank(b) && IsBlank(a) && (x == [] || x[0] > 32)
    ensures var c := b + ([58] + (a + x)); At(Skip(c), 0) == 58 && Skip(Skip(c)[1..]) == x
  {
    var colon := [58] + (a + x);
    SkipTo(b, colon);
    assert colon[1..] == a + x;
    SkipFault(a, x);
  }

  /** A member and what follows its value. */
  lemma FieldRead(f: Field, k: Text)
    requires GoodField(f) && NumeralEnds(f.after + k) && (k == [] || k[0] > 32)
    ensures var s := Fielded(f, k);
            && At(Skip(s), 0) == 34
            && (At(k, 0) != 44 && At(k, 0) != 125 ==> ParseMembers(s) == Fail(k))
            && (forall t :: At(k, 0) == 44 && ParseMembers(k[1..]) == Fail(t) ==> ParseMembers(s) == Fail(t))
  {
    hide ParseMembers, ParseValue, ParseString, Write, Skip, DocValue, NumeralEnds, LiteralText, Meaning, ReadableChars;
    var x := Write(f.value, f.after + k);
    var c := f.beforeColon + ([58] + (f.afterColon + x));
    NameRead(f.before, f.name, c);
    WriteStart(f.value, f.after + k);
    ColonRead(f.beforeColon, f.afterColon, x);
    WriteParse(f.value, f.after + k);
    SkipFault(f.after, k);
    MembersEnd(Fielded(f, k), Meaning(f.name), c, DocValue(f.value), f.after + k);
  }

  lemma {:induction false} FieldsFail(fields: seq<Field>, k: Text, t: Text)
    requires GoodFields(fields) && ParseMembers(k) == Fail(t)
    ensures ParseMembers(FieldsWithCommas(fields, k)) == Fail(t)
  {
    if fields != [] {
      hide ParseMembers, Skip, NumeralEnds, Fielded;
      var f, more := fields[0], [44] + FieldsWithCommas(fields[1..], k);
      assert GoodFields(fields[1..]) && GoodField(f);
      FieldsFail(fields[1..], k, t);
      BlankEnds(f.after, more);
      assert more[1..] == FieldsWithCommas(fields[1..], k);
      FieldRead(f, more);
    }
  }

  lemma MembersSame(s: Text)
    ensures ParseMembers(Skip(s)) == ParseMembers(s)
  {
    SkipTwice(s);
    hide ParseValue, ParseString;
  }

  lemma ObjectFails(body: Text, t: Text)
    requires ParseMembers(body) == Fail(t) && At(Skip(body), 0) != 125
    ensures ParseValue([123] + body) == Fail(t)
  {
    var s := [123] + body;
    assert s[1..] == body;
    NotPrefix(NULL_TEXT, s);
    NotPrefix(FALSE_TEXT, s);
    NotPrefix(TRUE_TEXT, s);
    MembersSame(body);
    hide ParseMembers;
  }

  lemma FieldsStart(fields: seq<Field>, k: Text)
    requires GoodFields(fields) && (fields == [] ==> At(Skip(k), 0) != 125)
    ensures At(Skip(FieldsWithCommas(fields, k)), 0) != 125
  {
    if fields != [] {
      hide Skip, LiteralText, Write;
      var f := fields[0];
      var x := Write(f.value, f.after + ([44] + FieldsWithCommas(fields[1..], k)));
      NameRead(f.before, f.name, f.beforeColon + ([58] + (f.afterColon + x)));
    }
  }

  // ----- The fault is where it is reported -----

  /** In a text with one fault, however deep, parse_value fails at the fault. */
  lemma {:induction false} FaultFound(b: Broken, t: Text)
    requires Faulty(b, t)
    ensures ParseValue(BrokenText(b, t)) == Fail(t)
    decreases b
  {
    hide ParseElements, ParseMembers, Skip, Write, NumeralEnds, GoodItems, GoodFields, LiteralText;
    match b
    case NoValue =>
    case InItem(items, before, inner) =>
      FaultFound(inner, t);
      ItemFault(b, t);
    case AfterItem(items, last) => LastItemFault(b, t);
    case InField(fields, before, name, beforeColon, afterColon, inner) =>
      FaultFound(inner, t);
      FieldFault(b, t);
    case _ => ObjectFault(b, t);
  }

  lemma ItemFault(b: Broken, t: Text)
    requires b.InItem? && Faulty(b, t) && ParseValue(BrokenText(b.inner, t)) == Fail(t)
    ensures ParseValue(BrokenText(b, t)) == Fail(t)
  {
    hide ParseValue, ParseElements, Skip, WithCommas;
    var x := BrokenText(b.inner, t);
    var k := b.before + x;
    BrokenStart(b.inner, t);
    SkipFault(b.before, x);
    ElementsFail(k, t);
    ItemsFail(b.items, k, t);
    CommasStart(b.items, k);
    ArrayFails(WithCommas(b.items, k), t);
  }

  lemma LastItemFault(b: Broken, t: Text)
    requires b.AfterItem? && Faulty(b, t)
    ensures ParseValue(BrokenText(b, t)) == Fail(t)
  {
    hide ParseValue, ParseElements, Skip, WithCommas, Write, NumeralEnds;
    var k := b.item.before + Write(b.item.value, b.item.after + t);
    LastItemFails(b.item, t);
    ItemsFail(b.items, k, t);
    CommasStart(b.items, k);
    ArrayFails(WithCommas(b.items, k), t);
  }

  lemma FieldsFault(fields: seq<Field>, k: Text, t: Text)
    requires GoodFields(fields) && ParseMembers(k) == Fail(t) && (fields == [] ==> At(Skip(k), 0) != 125)
    ensures ParseValue([123] + FieldsWithCommas(fields, k)) == Fail(t)
  {
    hide ParseValue, ParseMembers, Skip, FieldsWithCommas;
    FieldsFail(fields, k, t);
    FieldsStart(fields, k);
    ObjectFails(FieldsWithCommas(fields, k), t);
  }

  lemma FieldFault(b: Broken, t: Text)
    requires b.InField? && Faulty(b, t) && ParseValue(BrokenText(b.inner, t)) == Fail(t)
    ensures ParseValue(BrokenText(b, t)) == Fail(t)
  {
    hide ParseValue, ParseMembers, ParseString, Skip, FieldsWithCommas, LiteralText, Meaning, ReadableChars, GoodFields;
    var x := BrokenText(b.inner, t);
    var c := b.beforeColon + ([58] + (b.afterColon + x));
    BrokenStart(b.inner, t);
    NameRead(b.before, b.name, c);
    ColonRead(b.beforeColon, b.afterColon, x);
    MembersFail(Named(b.before, b.name, c), Meaning(b.name), c, t);
    FieldsFault(b.fields, Named(b.before, b.name, c), t);
  }

  lemma ObjectFault(b: Broken, t: Text)
    requires (b.NoName? || b.NoColon? || b.AfterField?) && Faulty(b, t)
    ensures ParseValue(BrokenText(b, t)) == Fail(t)
  {
    hide ParseValue, ParseMembers, ParseString, Skip, FieldsWithCommas, Fielded, LiteralText, Meaning, ReadableChars, GoodFields, NumeralEnds;
    match b
    case NoName(fields, before) =>
      SkipFault(before, t);
      MembersNoName(before + t);
      FieldsFault(fields, before + t, t);
    case NoColon(fields, before, name, beforeColon) =>
      var c := beforeColon + t;
      NameRead(before, name, c);
      SkipFault(beforeColon, t);
      MembersNoColon(Named(before, name, c), Meaning(name), c);
      FieldsFault(fields, Named(before, name, c), t);
    case AfterField(fields, last) =>
      FieldRead(last, t);
      FieldsFault(fields, Fielded(last, t), t);
  }

  // ----- The entry point -----

  /** cJSON_ParseWithOpts fails at the fault, with or without the check for the end. */
  lemma ParseFault(before: Text, b: Broken, t: Text, requireEnd: bool)
    requires IsBlank(before) && Faulty(b, t)
    ensures Parse(before + BrokenText(b, t), requireEnd) == Fail(t)
  {
    hide ParseValue, Skip, Faulty, BrokenText;
    BrokenStart(b, t);
    SkipFault(before, BrokenText(b, t));
    FaultFound(b, t);
  }

  /** Behind a whole text more text is a fault exactly with the check for the end. */
  lemma TrailingText(before: Text, d: Doc, after: Text, more: Text, requireEnd: bool)
    requires IsBlank(before) && WellFormed(d) && IsBlank(after) && NumeralEnds(after + more)
    requires more != [] && more[0] > 32
    ensures Parse(before + Write(d, after + more), requireEnd) ==
            if requireEnd then Fail(more) else Ok(DocValue(d), after + more)
  {
    hide ParseValue, Skip, Write, WellFormed, DocValue, NumeralEnds;
    WriteStart(d, after + more);
    SkipTo(before, Write(d, after + more));
    WriteParse(d, after + more);
    SkipTo(after, more);
  }
}
