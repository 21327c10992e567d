/** What cJSON_Minify keeps and drops, on every text: the text as tokens, comments
    among them, and when a second pass changes nothing. */
module JsonComments {
  import opened Wrappers
  import opened JsonText
  import opened JsonMinify

  // ----- Tokens -----

  /** Inside a literal: a byte, or a backslash and the byte it protects. */
  datatype Mark = Plain(c: Octet) | Escaped(c: Octet)

  /** Block holds everything after the first slash: its star is the first byte, and may
      also be the star that closes the comment. */
  datatype Token = Gap(c: Octet) | Line(body: Text) | Block(body: Text) | Literal(marks: seq<Mark>) | Other(c: Octet)

  function MarkText(m: Mark): Text {
    if m.Plain? then [m.c] else [92, m.c]
  }

  function MarksText(ms: seq<Mark>): Text {
    if ms == [] then [] else MarkText(ms[0]) + MarksText(ms[1..])
  }

  function TokenText(t: Token): Text {
    match t
    case Gap(c) => [c]
    case Line(body) => [47, 47] + body
    case Block(body) => [47] + body
    case Literal(marks) => [34] + (MarksText(marks) + [34])
    case Other(c) => [c]
  }

  function TokensText(ts: seq<Token>): Text {
    if ts == [] then [] else TokenText(ts[0]) + TokensText(ts[1..])
  }

  predicate GoodMarks(ms: seq<Mark>) {
    forall i :: 0 <= i < |ms| && ms[i].Plain? ==> ms[i].c != 34 && ms[i].c != 92
  }

  predicate StarSlash(s: Text, i: nat) {
    i + 1 < |s| && s[i] == 42 && s[i + 1] == 47
  }

  /** A token before the rest of the text.  A line comment ends before the next line feed
      or at the end, a block comment behind the first star and slash; a lone slash is no
      comment. */
  predicate Fits(t: Token, rest: Text) {
    match t
    case Gap(c) => c in {9, 10, 13, 32}
    case Line(body) => 10 !in body && (rest == [] || rest[0] == 10)
    case Block(body) =>
      && |body| >= 2 && body[0] == 42 && StarSlash(body, |body| - 2)
      && forall i :: 0 <= i < |body| - 2 ==> !StarSlash(body, i)
    case Literal(marks) => GoodMarks(marks)
    case Other(c) => c !in {9, 10, 13, 32, 34} && (c == 47 && rest != [] ==> rest[0] != 47 && rest[0] != 42)
  }

  predicate AllFit(ts: seq<Token>) {
    ts == [] || (Fits(ts[0], TokensText(ts[1..])) && AllFit(ts[1..]))
  }

  /** The tokens that are copied. */
  function Kept(ts: seq<Token>): seq<Token> {
    if ts == [] then [] else (if ts[0].Literal? || ts[0].Other? then [ts[0]] else []) + Kept(ts[1..])
  }

  // ----- One token -----

  lemma {:induction false} LineScan(body: Text, rest: Text)
    requires 10 !in body && (rest == [] || rest[0] == 10)
    ensures LineLength(body + rest) == |body|
  {
    if body == [] {
      assert body + rest == rest;
    } else {
      assert (body + rest)[1..] == body[1..] + rest;
      LineScan(body[1..], rest);
    }
  }

  lemma {:induction false} BlockScan(body: Text, rest: Text)
    requires |body| >= 2 && StarSlash(body, |body| - 2) && forall i :: 0 <= i < |body| - 2 ==> !StarSlash(body, i)
    ensures CommentLength(body + rest) == Some(|body|)
  {
    var s := body + rest;
    if |body| > 2 {
      assert s[1..] == body[1..] + rest;
      assert !StarSlash(body, 0);
      forall i | 0 <= i < |body| - 3 ensures !StarSlash(body[1..], i) { assert !StarSlash(body, i + 1); }
      BlockScan(body[1..], rest);
    }
  }

  lemma {:induction false} LiteralScan(ms: seq<Mark>, rest: Text)
    requires GoodMarks(ms)
    ensures LiteralLength(MarksText(ms) + ([34] + rest)) == Some(|MarksText(ms)| + 1)
  {
    hide LiteralLength;
    if ms == [] {
      assert [] + ([34] + rest) == [34] + rest;
      QuoteScan(rest);
    } else {
      var m, more := MarkText(ms[0]), MarksText(ms[1..]);
      LiteralScan(ms[1..], rest);
      MarkScan(ms[0], more + ([34] + rest));
      assert MarksText(ms) + ([34] + rest) == m + (more + ([34] + rest));
    }
  }

  lemma QuoteScan(rest: Text)
    ensures LiteralLength([34] + rest) == Some(1)
  {
  }

  lemma MarkScan(m: Mark, tail: Text)
    requires (m.Plain? ==> m.c != 34 && m.c != 92) && LiteralLength(tail).Some?
    ensures LiteralLength(MarkText(m) + tail) == Some(|MarkText(m)| + LiteralLength(tail).value)
  {
    hide LiteralLength;
    if m.Plain? {
      LiteralLengthPlain([m.c], tail);
    } else {
      LiteralLengthPair(m.c, tail);
    }
  }

  function Copied(t: Token): Text {
    if t.Literal? || t.Other? then TokenText(t) else []
  }

  lemma MinifyLine(body: Text, rest: Text)
    requires Fits(Line(body), rest)
    ensures Minify([47, 47] + body + rest) == Minify(rest)
  {
    var s := [47, 47] + body + rest;
    LineScan([47] + body, rest);
    assert s[1..] == [47] + body + rest && s[2 + |body|..] == rest;
    hide LineLength;
  }

  lemma MinifyBlock(body: Text, rest: Text)
    requires Fits(Block(body), rest)
    ensures Minify([47] + body + rest) == Minify(rest)
  {
    var s := [47] + body + rest;
    BlockScan(body, rest);
    assert s[1..] == body + rest && s[1 + |body|..] == rest;
    hide CommentLength, StarSlash;
  }

  lemma MinifyLiteral(body: Text, rest: Text)
    requires LiteralLength(body + rest) == Some(|body|)
    ensures Minify([34] + body + rest) == After([34] + body, Minify(rest))
  {
    var s, n := [34] + body + rest, 1 + |body|;
    assert s[1..] == body + rest && s[n..] == rest && s[..n] == [34] + body;
    hide LiteralLength, CommentLength, LineLength;
  }

  lemma MinifyByte(c: Octet, rest: Text)
    ensures Fits(Gap(c), rest) ==> Minify([c] + rest) == Minify(rest)
    ensures Fits(Other(c), rest) ==> Minify([c] + rest) == After([c], Minify(rest))
  {
    var s := [c] + rest;
    assert s[1..] == rest;
    hide LiteralLength, CommentLength, LineLength;
  }

  lemma MinifyToken(t: Token, rest: Text)
    requires Fits(t, rest)
    ensures Minify(TokenText(t) + rest) == After(Copied(t), Minify(rest))
  {
    hide Minify;
    AfterNothing(Minify(rest));
    match t
    case Gap(c) => MinifyByte(c, rest);
    case Line(body) => MinifyLine(body, rest);
    case Block(body) => MinifyBlock(body, rest);
    case Literal(marks) =>
      LiteralScan(marks, rest);
      var body := MarksText(marks) + [34];
      assert body + rest == MarksText(marks) + ([34] + rest);
      MinifyLiteral(body, rest);
    case Other(c) => MinifyByte(c, rest);
  }

  // ----- Every text -----

  /** What Minify leaves of a text are the tokens that are neither white space nor comments. */
  lemma {:induction false} MinifyTokens(ts: seq<Token>)
    requires AllFit(ts)
    ensures Minify(TokensText(ts)) == Some(TokensText(Kept(ts)))
  {
    if ts != [] {
      hide Minify, TokenText, Fits;
      MinifyTokens(ts[1..]);
      MinifyToken(ts[0], TokensText(ts[1..]));
      if ts[0].Literal? || ts[0].Other? {
        assert Kept(ts)[1..] == Kept(ts[1..]);
      } else {
        assert Kept(ts) == Kept(ts[1..]);
        AfterNothing(Minify(TokensText(ts[1..])));
      }
    }
  }

  lemma {:induction false} LineRead(s: Text)
    ensures var n := LineLength(s); 10 !in s[..n] && (n < |s| ==> s[n] == 10)
  {
    if s != [] && s[0] != 10 {
      var n := LineLength(s);
      LineRead(s[1..]);
      assert s[..n] == [s[0]] + s[1..][..n - 1];
    }
  }

  lemma {:induction false} BlockRead(s: Text)
    requires CommentLength(s).Some?
    ensures var b := s[..CommentLength(s).value];
            StarSlash(b, |b| - 2) && forall i :: 0 <= i < |b| - 2 ==> !StarSlash(b, i)
  {
    var n := CommentLength(s).value;
    var b := s[..n];
    if !(s[0] == 42 && At(s, 1) == 47) {
      BlockRead(s[1..]);
      var c := s[1..][..n - 1];
      assert b[1..] == c;
      forall i | 0 <= i < |b| - 2 ensures !StarSlash(b, i) {
        if i > 0 { assert !StarSlash(c, i - 1); }
      }
      assert StarSlash(c, |c| - 2);
    }
  }

  lemma {:induction false} LiteralRead(s: Text) returns (ms: seq<Mark>)
    requires LiteralLength(s).Some?
    ensures GoodMarks(ms) && s[..LiteralLength(s).value] == MarksText(ms) + [34]
  {
    ms := [];
    var n := LiteralLength(s).value;
    if s[0] != 34 {
      var k := if s[0] == 92 then 2 else 1;
      var more := LiteralRead(s[k..]);
      var m := if s[0] == 92 then Escaped(s[1]) else Plain(s[0]);
      ms := [m] + more;
      assert ms[1..] == more && s[..n] == s[..k] + s[k..][..n - k];
    }
  }

  /** A text that Minify can read to its end is such a sequence of tokens. */
  lemma {:induction false} MinifyRead(s: Text) returns (ts: seq<Token>)
    requires Minify(s).Some?
    ensures AllFit(ts) && TokensText(ts) == s
    decreases |s|
  {
    hide Minify, Fits, TokenText;
    ts := [];
    if s != [] {
      var t := FirstToken(s);
      var n := |TokenText(t)|;
      var more := MinifyRead(s[n..]);
      ts := [t] + more;
      assert ts[1..] == more && s == s[..n] + s[n..];
    }
  }

  lemma FirstLine(s: Text) returns (t: Token)
    requires Minify(s).Some? && At(s, 0) == 47 && At(s, 1) == 47
    ensures var n := |TokenText(t)|; n <= |s| && s[..n] == TokenText(t) && Fits(t, s[n..]) && Minify(s[n..]).Some?
  {
    var n := LineLength(s[1..]);
    LineRead(s[1..]);
    t := Line(s[2..n + 1]);
    assert s[1..][..n] == [47] + s[2..n + 1];
    assert s[..n + 1] == TokenText(t);
    hide LineLength;
  }

  lemma FirstBlock(s: Text) returns (t: Token)
    requires Minify(s).Some? && At(s, 0) == 47 && At(s, 1) == 42
    ensures var n := |TokenText(t)|; n <= |s| && s[..n] == TokenText(t) && Fits(t, s[n..]) && Minify(s[n..]).Some?
  {
    var n := CommentLength(s[1..]).value;
    BlockRead(s[1..]);
    t := Block(s[1..][..n]);
    assert s[..n + 1] == TokenText(t);
    hide CommentLength, StarSlash;
  }

  lemma FirstLiteral(s: Text) returns (t: Token)
    requires Minify(s).Some? && At(s, 0) == 34
    ensures var n := |TokenText(t)|; n <= |s| && s[..n] == TokenText(t) && Fits(t, s[n..]) && Minify(s[n..]).Some?
  {
    var n := LiteralLength(s[1..]).value;
    var marks := LiteralRead(s[1..]);
    t := Literal(marks);
    assert s[..n + 1] == [34] + s[1..][..n];
    hide LiteralLength, MarksText;
  }

  lemma FirstToken(s: Text) returns (t: Token)
    requires s != [] && Minify(s).Some?
    ensures var n := |TokenText(t)|;
            0 < n <= |s| && s[..n] == TokenText(t) && Fits(t, s[n..]) && Minify(s[n..]).Some?
  {
    if Blank(s[0]) {
      t := Gap(s[0]);
    } else if s[0] == 47 && At(s, 1) == 47 {
      t := FirstLine(s);
    } else if s[0] == 47 && At(s, 1) == 42 {
      t := FirstBlock(s);
    } else if s[0] == 34 {
      t := FirstLiteral(s);
    } else {
      t := Other(s[0]);
    }
  }

  // ----- A second pass -----

  lemma {:induction false} MinifyShrinks(s: Text)
    ensures Minify(s).Some? ==> |Minify(s).value| <= |s|
    decreases |s|
  {
    if Minify(s).Some? && s != [] {
      var t := FirstToken(s);
      var n := |TokenText(t)|;
      MinifyShrinks(s[n..]);
      MinifyToken(t, s[n..]);
      assert s == TokenText(t) + s[n..];
      hide Minify, Fits;
    }
  }

  predicate AllKept(ts: seq<Token>) {
    forall i :: 0 <= i < |ts| ==> ts[i].Literal? || ts[i].Other?
  }

  /** Each by itself, the tokens are what they are. */
  predicate Single(ts: seq<Token>) {
    forall i :: 0 <= i < |ts| ==> Fits(ts[i], [])
  }

  lemma {:induction false} KeptSingle(ts: seq<Token>)
    requires AllFit(ts)
    ensures AllKept(Kept(ts)) && Single(Kept(ts))
  {
    if ts != [] { KeptSingle(ts[1..]); }
  }

  /** Minify leaves tokens alone exactly when no slash has come to stand before a slash or
      a star. */
  lemma {:induction false} Unchanged(ts: seq<Token>)
    requires AllKept(ts) && Single(ts)
    ensures Minify(TokensText(ts)) == Some(TokensText(ts)) <==> AllFit(ts)
  {
    if ts != [] {
      var t, rest := ts[0], TokensText(ts[1..]);
      Unchanged(ts[1..]);
      if Fits(t, rest) {
        MinifyToken(t, rest);
        hide Minify, Fits;
        var r := Minify(rest);
        if r.Some? && TokenText(t) + r.value == TokenText(t) + rest {
          assert r.value == (TokenText(t) + r.value)[|TokenText(t)|..] == rest;
        }
      } else {
        assert t == Other(47);
        CommentDropped(rest);
      }
    }
  }

  lemma CommentDropped(rest: Text)
    requires rest != [] && (rest[0] == 47 || rest[0] == 42)
    ensures Minify([47] + rest) != Some([47] + rest)
  {
    var s := [47] + rest;
    assert s[1..] == rest;
    if Minify(s).Some? {
      var t := FirstToken(s);
      var n := |TokenText(t)|;
      assert s == TokenText(t) + s[n..];
      MinifyToken(t, s[n..]);
      AfterNothing(Minify(s[n..]));
      MinifyShrinks(s[n..]);
      assert t.Line? || t.Block?;
      hide Minify;
    }
  }

  /** A second pass changes nothing if and only if what the first one kept has no slash
      that has come to stand before a slash or a star. */
  lemma MinifyTwiceIff(ts: seq<Token>)
    requires AllFit(ts)
    ensures var r := Minify(TokensText(ts)); r.Some? && (Minify(r.value) == r <==> AllFit(Kept(ts)))
  {
    MinifyTokens(ts);
    KeptSingle(ts);
    Unchanged(Kept(ts));
  }

  /** For instance, two slashes with a blank between them are kept by one pass and dropped
      by two. */
  lemma SlashesExample()
    ensures Minify([47, 32, 47]) == Some([47, 47]) && Minify([47, 47]) == Some([])
  {
    hide Minify;
    MinifyByte(47, []);
    MinifyByte(32, [47]);
    MinifyByte(47, [32, 47]);
    MinifyLine([], []);
    assert Minify([]) == Some([]) by { MinifyTokens([]); }
    assert [47] + [] == [47] && [32] + [47] == [32, 47] && [47] + [32, 47] == [47, 32, 47];
    assert [47, 47] + [] + [] == [47, 47] && [47] + [47] == [47, 47];
  }
}
