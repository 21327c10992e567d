/** cJSON_Minify keeps the meaning of every text that cJSON_Parse accepts. */
module JsonSqueeze {
  import opened Wrappers
  import opened JsonText
  import opened JsonPrint
  import opened JsonStrings
  import opened JsonGrammar
  import opened JsonAccepts
  import opened JsonMinify
  import JsonComments

  // ----- Texts without white space -----

  /** The control bytes that Minify does not take for white space stay. */
  function Squeeze(b: Text): (r: Text)
    ensures IsBlank(b) ==> IsBlank(r)
  {
    if b == [] then [] else (if Blank(b[0]) then [] else [b[0]]) + Squeeze(b[1..])
  }

  function SqueezedItem(i: Item): Item
    decreases i
  {
    Item(Squeeze(i.before), Squeezed(i.value), Squeeze(i.after))
  }

  function SqueezedField(f: Field): Field
    decreases f
  {
    Field(Squeeze(f.before), f.name, Squeeze(f.beforeColon), Squeeze(f.afterColon), Squeezed(f.value), Squeeze(f.after))
  }

  function Squeezed(d: Doc): Doc
    decreases d
  {
    match d
    case DArray(blank, items) => DArray(Squeeze(blank), seq(|items|, i requires 0 <= i < |items| => SqueezedItem(items[i])))
    case DObject(blank, fields) => DObject(Squeeze(blank), seq(|fields|, i requires 0 <= i < |fields| => SqueezedField(fields[i])))
    case _ => d
  }

  function SqueezedItems(items: seq<Item>): (r: seq<Item>)
    ensures |r| == |items|
  {
    seq(|items|, i requires 0 <= i < |items| => SqueezedItem(items[i]))
  }

  function SqueezedFields(fields: seq<Field>): (r: seq<Field>)
    ensures |r| == |fields|
  {
    seq(|fields|, i requires 0 <= i < |fields| => SqueezedField(fields[i]))
  }

  /** The value is the same. */
  lemma {:induction false} SqueezedSame(d: Doc)
    requires WellFormed(d)
    ensures WellFormed(Squeezed(d)) && DocValue(Squeezed(d)) == DocValue(d)
  {
    match d
    case DArray(blank, items) =>
      forall i | 0 <= i < |items| ensures var v := Squeezed(items[i].value); WellFormed(v) && DocValue(v) == DocValue(items[i].value) {
        SqueezedSame(items[i].value);
      }
    case DObject(blank, fields) =>
      forall i | 0 <= i < |fields| ensures var v := Squeezed(fields[i].value); WellFormed(v) && DocValue(v) == DocValue(fields[i].value) {
        SqueezedSame(fields[i].value);
      }
    case _ =>
  }

  // ----- Minify on white space, numbers and strings -----

  lemma {:induction false} MinifyBlank(b: Text, k: Text)
    requires IsBlank(b)
    ensures Minify(b + k) == After(Squeeze(b), Minify(k))
  {
    if b == [] {
      assert b + k == k;
      AfterNothing(Minify(k));
    } else {
      var first := [b[0]];
      assert b + k == first + (b[1..] + k);
      MinifyBlank(b[1..], k);
      if Blank(b[0]) {
        MinifyBlanks(first, b[1..] + k);
        assert Squeeze(b) == Squeeze(b[1..]);
      } else {
        MinifySolid(first, b[1..] + k);
        AfterAfter(first, Squeeze(b[1..]), Minify(k));
      }
      hide Minify;
    }
  }

  predicate AllSolid(t: Text) {
    forall i :: 0 <= i < |t| ==> Solid(t[i])
  }

  lemma NumberSolid(n: Numeral)
    requires GoodNumeral(n)
    ensures AllSolid(NumberText(n))
  {
    assert AllSolid(SignText(n.negative) + (ZeroText(n.zero) + n.digits));
    assert AllSolid(FractionText(n.fraction));
    assert AllSolid(PowerText(n.power));
  }

  /** The length of a literal body that begins with `n` bytes of no closing quote. */
  function Longer(n: nat, r: Option<nat>): Option<nat> {
    if r.Some? then Some(n + r.value) else None
  }

  lemma {:induction false} SourceLength(cs: seq<Char>, rest: Text)
    requires ReadableChars(cs)
    ensures LiteralLength(Source(cs) + rest) == Longer(|Source(cs)|, LiteralLength(rest))
  {
    hide LiteralLength;
    if cs == [] {
      assert Source(cs) + rest == rest;
    } else {
      var c, more := cs[0].Source(), Source(cs[1..]);
      SourceLength(cs[1..], rest);
      assert Source(cs) + rest == c + (more + rest);
      CharLength(cs[0], more + rest);
    }
  }

  lemma {:induction false} PlainLength(p: Text, tail: Text)
    requires forall i :: 0 <= i < |p| ==> p[i] != QUOTE && p[i] != BACKSLASH
    ensures LiteralLength(p + tail) == Longer(|p|, LiteralLength(tail))
  {
    if p == [] {
      assert p + tail == tail;
    } else {
      assert (p + tail)[1..] == p[1..] + tail;
      PlainLength(p[1..], tail);
    }
  }

  lemma EscapeLength(x: Octet, tail: Text)
    ensures LiteralLength([BACKSLASH, x] + tail) == Longer(2, LiteralLength(tail))
  {
    hide LiteralLength;
    var s := [BACKSLASH, x] + tail;
    LiteralLengthSkips(s);
    assert s[2..] == tail;
  }

  lemma UnitLength(h: Text, tail: Text)
    requires |h| == 4 && IsHex4(h)
    ensures LiteralLength([BACKSLASH, LETTER_U] + h + tail) == Longer(6, LiteralLength(tail))
  {
    hide LiteralLength;
    assert forall i :: 0 <= i < |h| ==> h[i] != QUOTE && h[i] != BACKSLASH;
    PlainLength(h, tail);
    EscapeLength(LETTER_U, h + tail);
    assert [BACKSLASH, LETTER_U] + h + tail == [BACKSLASH, LETTER_U] + (h + tail);
  }

  lemma CharLength(c: Char, tail: Text)
    requires c.Readable()
    ensures LiteralLength(c.Source() + tail) == Longer(|c.Source()|, LiteralLength(tail))
  {
    hide LiteralLength;
    match c
    case Plain(x) => PlainLength([x], tail);
    case Letter(l) => EscapeLength(l, tail);
    case Unit(h) => UnitLength(h, tail);
    case Pair(h, l) =>
      var second := [BACKSLASH, LETTER_U] + l + tail;
      UnitLength(l, tail);
      UnitLength(h, second);
      assert c.Source() + tail == [BACKSLASH, LETTER_U] + h + second;
    case Lone(h) => UnitLength(h, tail);
  }

  lemma MinifyName(cs: seq<Char>, k: Text)
    requires ReadableChars(cs)
    ensures Minify(LiteralText(cs) + k) == After(LiteralText(cs), Minify(k))
  {
    var body, end := Source(cs) + [QUOTE], [QUOTE] + k;
    assert LiteralLength(end) == Some(1);
    hide Source, LiteralLength, Minify;
    SourceLength(cs, end);
    assert body + k == Source(cs) + end;
    JsonComments.MinifyLiteral(body, k);
    assert [QUOTE] + body == LiteralText(cs);
  }

  // ----- Minify on texts of the grammar -----

  lemma Same(items: seq<Item>, fields: seq<Field>)
    ensures items != [] ==> SqueezedItems(items)[0] == SqueezedItem(items[0]) && SqueezedItems(items)[1..] == SqueezedItems(items[1..])
    ensures fields != [] ==> SqueezedFields(fields)[0] == SqueezedField(fields[0]) && SqueezedFields(fields)[1..] == SqueezedFields(fields[1..])
  {
  }

  /** Minify of a text of the grammar, before any rest, is the same text without white
      space, before the minified rest. */
  lemma {:induction false} MinifyDoc(d: Doc, k: Text)
    requires WellFormed(d)
    ensures Minify(Write(d, k)) == var r := Minify(k); if r.Some? then Some(Write(Squeezed(d), r.value)) else None
    decreases d, 0
  {
    match d
    case DNull => MinifySolid(NULL_TEXT, k);
    case DBool(b) => MinifySolid(if b then TRUE_TEXT else FALSE_TEXT, k);
    case DNumber(n) =>
      NumberSolid(n);
      MinifySolid(NumberText(n), k);
    case DString(cs) => MinifyName(cs, k);
    case DArray(blank, items) => MinifyArrayDoc(d, k);
    case DObject(blank, fields) => MinifyObjectDoc(d, k);
    hide Minify, NumberText;
  }

  lemma {:induction false} MinifyArrayDoc(d: Doc, k: Text)
    requires WellFormed(d) && d.DArray?
    ensures Minify(Write(d, k)) == var r := Minify(k); if r.Some? then Some(Write(Squeezed(d), r.value)) else None
    decreases d.items, 2
  {
    hide Minify, WriteItems;
    var items := d.items;
    assert Squeezed(d) == DArray(Squeeze(d.blank), SqueezedItems(items)) && GoodItems(items);
    if items == [] {
      var close := [RBRACKET] + k;
      MinifySolid([RBRACKET], k);
      MinifyBlank(d.blank, close);
      MinifySolid([LBRACKET], d.blank + close);
    } else {
      MinifyItemsDoc(items, k);
      MinifySolid([LBRACKET], WriteItems(items, k));
    }
  }

  lemma {:induction false} MinifyItemsDoc(items: seq<Item>, k: Text)
    requires items != [] && GoodItems(items)
    ensures Minify(WriteItems(items, k)) == var r := Minify(k); if r.Some? then Some(WriteItems(SqueezedItems(items), r.value)) else None
    decreases items, 1
  {
    hide Minify, Write, WriteItems, ItemsTail, SqueezedItems;
    var i, tail, r := items[0], ItemsTail(items, k), Minify(k);
    ItemsUnfold(items, k);
    Same(items, []);
    if |items| == 1 {
      MinifySolid([RBRACKET], k);
    } else {
      assert GoodItems(items[1..]);
      MinifyItemsDoc(items[1..], k);
      MinifySolid([COMMA], WriteItems(items[1..], k));
    }
    MinifyBlank(i.after, tail);
    MinifyDoc(i.value, i.after + tail);
    MinifyBlank(i.before, Write(i.value, i.after + tail));
    if r.Some? { ItemsUnfold(SqueezedItems(items), r.value); }
  }

  lemma {:induction false} MinifyObjectDoc(d: Doc, k: Text)
    requires WellFormed(d) && d.DObject?
    ensures Minify(Write(d, k)) == var r := Minify(k); if r.Some? then Some(Write(Squeezed(d), r.value)) else None
    decreases d.fields, 2
  {
    hide Minify, WriteFields;
    var fields := d.fields;
    assert Squeezed(d) == DObject(Squeeze(d.blank), SqueezedFields(fields)) && GoodFields(fields);
    if fields == [] {
      var close := [RBRACE] + k;
      MinifySolid([RBRACE], k);
      MinifyBlank(d.blank, close);
      MinifySolid([LBRACE], d.blank + close);
    } else {
      MinifyFieldsDoc(fields, k);
      MinifySolid([LBRACE], WriteFields(fields, k));
    }
  }

  lemma {:induction false} MinifyFieldsDoc(fields: seq<Field>, k: Text)
    requires fields != [] && GoodFields(fields)
    ensures Minify(WriteFields(fields, k)) == var r := Minify(k); if r.Some? then Some(WriteFields(SqueezedFields(fields), r.value)) else None
    decreases fields, 1
  {
    hide Minify, Write, WriteFields, FieldsTail, SqueezedFields, LiteralText, ReadableChars;
    var f, tail, r := fields[0], FieldsTail(fields, k), Minify(k);
    FieldsUnfold(fields, k);
    Same([], fields);
    if |fields| == 1 {
      MinifySolid([RBRACE], k);
    } else {
      assert GoodFields(fields[1..]);
      MinifyFieldsDoc(fields[1..], k);
      MinifySolid([COMMA], WriteFields(fields[1..], k));
    }
    assert GoodSpacing(f);
    MinifyBlank(f.after, tail);
    MinifyDoc(f.value, f.after + tail);
    MinifyFieldHead(f, Write(f.value, f.after + tail));
    if r.Some? { FieldsUnfold(SqueezedFields(fields), r.value); }
  }

  lemma MinifyFieldHead(f: Field, x: Text)
    requires GoodSpacing(f) && ReadableChars(f.name)
    ensures Minify(f.before + (LiteralText(f.name) + (f.beforeColon + ([COLON] + (f.afterColon + x))))) ==
            After(Squeeze(f.before), After(LiteralText(f.name), After(Squeeze(f.beforeColon), After([COLON], After(Squeeze(f.afterColon), Minify(x))))))
  {
    hide Minify, LiteralText, ReadableChars;
    var c := [COLON] + (f.afterColon + x);
    MinifyBlank(f.afterColon, x);
    MinifySolid([COLON], f.afterColon + x);
    MinifyBlank(f.beforeColon, c);
    MinifyName(f.name, f.beforeColon + c);
    MinifyBlank(f.before, LiteralText(f.name) + (f.beforeColon + c));
  }

  // ----- Every accepted text -----

  /** A string that the end of the text cuts. */
  ghost predicate CutText(s: Text) {
    exists b, cs :: CutAs(s, b, cs)
  }

  ghost predicate CutAs(s: Text, b: Text, cs: seq<Char>) {
    IsBlank(b) && ReadableChars(cs) && s == b + ([QUOTE] + Source(cs))
  }

  lemma MinifyCut(b: Text, cs: seq<Char>)
    requires IsBlank(b) && ReadableChars(cs)
    ensures Minify(b + ([QUOTE] + Source(cs))) == None
  {
    var s := [QUOTE] + Source(cs);
    SourceLength(cs, []);
    assert Source(cs) + [] == Source(cs) && s[1..] == Source(cs);
    assert LiteralLength([]) == None;
    hide Source, LiteralLength;
    assert Minify(s) == None;
    MinifyBlank(b, s);
  }

  lemma MinifyWhole(before: Text, d: Doc, after: Text)
    requires IsBlank(before) && WellFormed(d) && IsBlank(after)
    ensures var r := Minify(before + Write(d, after));
            r.Some? && Parse(r.value, true) == Ok(DocValue(d), [])
  {
    hide Minify, Write, WellFormed, DocValue, Parse;
    var e := Squeezed(d);
    MinifyBlank(after, []);
    assert after + [] == after && Squeeze(after) + [] == Squeeze(after);
    assert Minify([]) == Some([]) by { MinifyNothing(); }
    MinifyDoc(d, after);
    MinifyBlank(before, Write(d, after));
    SqueezedSame(d);
    WriteText(e, Squeeze(after));
    DocParse(e, Squeeze(before), Squeeze(after), true);
    assert Squeeze(before) + DocText(e) + Squeeze(after) == Squeeze(before) + (DocText(e) + Squeeze(after));
  }

  lemma MinifyNothing()
    ensures Minify([]) == Some([])
  {
  }

  /** Every text that cJSON_ParseWithOpts accepts up to its end is a string cut by the
      end, and then Minify runs past the end; or Minify leaves a text of the same value. */
  lemma MinifyMeaning(s: Text)
    requires Parse(s, true).Ok?
    ensures if CutText(s) then Minify(s) == None else Minify(s).Some? && Parse(Minify(s).value, true) == Parse(s, true)
  {
    if b, cs :| CutAs(s, b, cs) { MinifyCut(b, cs); }
    var b := BlankRead(s);
    var v := ParseValue(Skip(s));
    var r := ValueRead(Skip(s));
    var a := BlankRead(v.rest);
    hide Minify, ParseValue, Write, WellFormed, DocValue;
    assert Parse(s, true) == Ok(v.value, []) && v.rest == a;
    match r
    case Whole(d) => MinifyWhole(b, d, a);
    case CutString(cs) =>
      MinifyCut(b, cs);
      assert CutAs(s, b, cs);
  }
}
