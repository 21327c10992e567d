/** The URI scanner of application/http_client/http_client.c: a state machine over
    a cursor that fills in slices of the text. */
module Uri {
  import opened Bytes
  import opened Words
  import opened Wrappers

  const COLON: Byte := 58
  const SLASH: Byte := 47
  const AT: Byte := 64
  const OPEN: Byte := 91
  const CLOSE: Byte := 93
  const QUERY: Byte := 63
  const HASH: Byte := 35
  const ZERO: Byte := 48

  /** mem_ptr_t: mem_ptr_none, or a slice of the text. */
  datatype Span = NoSpan | Span(at: nat, len: nat)

  /** What http_parse_uri hands out. */
  datatype Parts = Parts(scheme: Span, user: Span, host: Span, port: nat, path: Span, query: Span, fragment: Span)

  const NO_PARTS := Parts(NoSpan, NoSpan, NoSpan, 0, NoSpan, NoSpan, NoSpan)

  datatype State = Start | SchemeOrPort | UserInfo | Host | Port | Rest

  datatype Machine = Machine(state: State, p: nat, parts: Parts)

  // ----- The machine on values -----

  /** The first position from `p` on that holds a separator, or the end. */
  function Find(uri: seq<Byte>, p: nat, seps: set<Byte>): (q: nat)
    requires p <= |uri|
    ensures p <= q <= |uri|
    decreases |uri| - p
  {
    if p == |uri| || uri[p] in seps then p else Find(uri, p + 1, seps)
  }

  /** parse_uri_component: the slice, and the cursor past the separator. */
  function Component(uri: seq<Byte>, p: nat, seps: set<Byte>): (r: (Span, nat))
    requires p <= |uri|
    ensures p <= r.1 <= |uri|
  {
    var q := Find(uri, p, seps);
    (Span(p, q - p), if q < |uri| then q + 1 else q)
  }

  /** A byte as the plain char of the source. */
  function Signed(b: Byte): int {
    if b < 128 then b else (b as int) - 256
  }

  /** The port loop, in 32-bit unsigned arithmetic. */
  function PortOf(port: nat, digits: seq<Byte>): nat
    decreases |digits|
  {
    if digits == [] then port
    else PortOf((port * 10 + (Signed(digits[0]) - ZERO as int)) % TWO_32, digits[1..])
  }

  function StartStep(uri: seq<Byte>, m: Machine): Machine
    requires m.p < |uri|
  {
    if uri[m.p] == OPEN then m.(state := Host)
    else
      var q := Find(uri, m.p, {COLON, SLASH});
      if q == |uri| then m.(p := q, parts := m.parts.(host := Span(0, q)))
      else if uri[q] == COLON then m.(state := SchemeOrPort, p := q)
      else m.(state := Rest, p := q, parts := m.parts.(host := Span(0, q)))
  }

  predicate SchemeMark(uri: seq<Byte>, p: nat) {
    p + 3 <= |uri| && uri[p] == COLON && uri[p + 1] == SLASH && uri[p + 2] == SLASH
  }

  function SchemeStep(uri: seq<Byte>, m: Machine): Machine
    requires m.p < |uri|
  {
    if SchemeMark(uri, m.p)
    then m.(state := UserInfo, p := m.p + 3, parts := m.parts.(scheme := Span(0, m.p)))
    else m.(state := Port, parts := m.parts.(host := Span(0, m.p)))
  }

  function UserStep(uri: seq<Byte>, m: Machine): Machine
    requires m.p < |uri|
  {
    var q := Find(uri, m.p, {AT, OPEN, SLASH});
    var end := if q < |uri| && uri[q] == AT then q else m.p;
    m.(state := Host, p := end, parts := m.parts.(user := Span(m.p, end - m.p)))
  }

  /** The end of the host, or None when a bracket is not closed. `after` is the byte
      beyond the text, which the scan looks at when an `@` ends the text. */
  function HostEnd(uri: seq<Byte>, p: nat, after: Byte): (r: Option<nat>)
    requires p <= |uri|
    ensures r.Some? ==> p <= r.value <= |uri|
  {
    if (if p < |uri| then uri[p] else after) == OPEN then
      var q := Find(uri, p, {CLOSE});
      if q == |uri| then None else Some(q + 1)
    else Some(Find(uri, p, {COLON, SLASH}))
  }

  function HostStep(uri: seq<Byte>, m: Machine, after: Byte): Option<Machine>
    requires m.p < |uri|
  {
    var p := if uri[m.p] == AT then m.p + 1 else m.p;
    match HostEnd(uri, p, after)
    case None => None
    case Some(q) =>
      var state := if q < |uri| && uri[q] == COLON then Port else if q < |uri| && uri[q] == SLASH then Rest else Host;
      Some(Machine(state, q, m.parts.(host := Span(p, q - p))))
  }

  function PortStep(uri: seq<Byte>, m: Machine): Machine
    requires m.p < |uri|
  {
    var q := Find(uri, m.p + 1, {SLASH});
    Machine(if q < |uri| then Rest else Port, q, m.parts.(port := PortOf(m.parts.port, uri[m.p + 1..q])))
  }

  /** The query, when the byte before the cursor is a question mark. */
  function QueryPart(uri: seq<Byte>, p: nat, none: Span): (r: (Span, nat))
    requires p <= |uri|
    ensures p <= r.1 <= |uri|
  {
    if p < |uri| && p > 0 && uri[p - 1] == QUERY then Component(uri, p, {HASH}) else (none, p)
  }

  function RestStep(uri: seq<Byte>, m: Machine): Machine
    requires m.p < |uri|
  {
    var (path, p) := Component(uri, m.p, {QUERY, HASH});
    var (query, q) := QueryPart(uri, p, m.parts.query);
    var (fragment, r) := Component(uri, q, {});
    m.(p := r, parts := m.parts.(path := path, query := query, fragment := fragment))
  }

  function Step(uri: seq<Byte>, m: Machine, after: Byte): Option<Machine>
    requires m.p < |uri|
  {
    match m.state
    case Start => Some(StartStep(uri, m))
    case SchemeOrPort => Some(SchemeStep(uri, m))
    case UserInfo => Some(UserStep(uri, m))
    case Host => HostStep(uri, m, after)
    case Port => Some(PortStep(uri, m))
    case Rest => Some(RestStep(uri, m))
  }

  function Rank(s: State): nat {
    match s
    case Start => 5
    case SchemeOrPort => 4
    case UserInfo => 3
    case Host => 2
    case Port => 1
    case Rest => 0
  }

  lemma {:induction false} NoSeparator(uri: seq<Byte>, p: nat, q: nat)
    requires p <= |uri| && q == Find(uri, p, {})
    ensures q == |uri|
    decreases |uri| - p
  {
    if p < |uri| { NoSeparator(uri, p + 1, q); }
  }

  /** Every step consumes text or moves to a later state. */
  lemma StepDescends(uri: seq<Byte>, m: Machine, after: Byte)
    requires m.p < |uri|
    ensures var r := Step(uri, m, after);
            r.Some? ==> m.p <= r.value.p <= |uri| && (r.value.p > m.p || Rank(r.value.state) < Rank(m.state))
  {
    match m.state
    case Rest =>
      var (_, p) := Component(uri, m.p, {QUERY, HASH});
      var q := QueryPart(uri, p, m.parts.query).1;
      NoSeparator(uri, q, Find(uri, q, {}));
    case _ =>
  }

  /** The loop of http_parse_uri; None is et_param. */
  function Run(uri: seq<Byte>, m: Machine, after: Byte): Option<Parts>
    requires m.p <= |uri|
    decreases |uri| - m.p, Rank(m.state)
  {
    if m.p == |uri| then Some(m.parts)
    else
      StepDescends(uri, m, after);
      match Step(uri, m, after)
      case None => None
      case Some(next) => Run(uri, next, after)
  }

  function Parse(uri: seq<Byte>, after: Byte): Option<Parts> {
    Run(uri, Machine(Start, 0, NO_PARTS), after)
  }

  // ----- The loops -----

  method Advance(uri: seq<Byte>, start: nat, seps: set<Byte>) returns (p: nat)
    requires start <= |uri|
    ensures p == Find(uri, start, seps)
  {
    p := start;
    while p < |uri| && uri[p] !in seps
      invariant start <= p <= |uri|
      invariant Find(uri, start, seps) == Find(uri, p, seps)
    {
      p := p + 1;
    }
  }

  method ParseComponent(uri: seq<Byte>, start: nat, seps: set<Byte>) returns (span: Span, p: nat)
    requires start <= |uri|
    ensures (span, p) == Component(uri, start, seps)
  {
    p := Advance(uri, start, seps);
    span := Span(start, p - start);
    if p < |uri| { p := p + 1; }
  }

  method ReadPort(uri: seq<Byte>, start: nat, port: nat) returns (p: nat, value: nat)
    requires start <= |uri|
    ensures p == Find(uri, start, {SLASH}) && value == PortOf(port, uri[start..p])
  {
    p, value := start, port;
    ghost var end := Find(uri, start, {SLASH});
    while p < |uri| && uri[p] != SLASH
      invariant start <= p <= end && end == Find(uri, p, {SLASH})
      invariant PortOf(port, uri[start..end]) == PortOf(value, uri[p..end])
    {
      assert uri[p..end][1..] == uri[p + 1..end];
      value := (value * 10 + (Signed(uri[p]) - ZERO as int)) % TWO_32;
      p := p + 1;
    }
  }

  /** The switch of http_parse_uri. */
  method Switch(uri: seq<Byte>, m: Machine, after: Byte) returns (r: Option<Machine>)
    requires m.p < |uri|
    ensures r == Step(uri, m, after)
  {
    hide Find, PortOf;
    match m.state {
      case Start =>
        if uri[m.p] == OPEN { return Some(m.(state := Host)); }
        var q := Advance(uri, m.p, {COLON, SLASH});
        var named := m.parts.(host := Span(0, q));
        if q == |uri| {
          r := Some(m.(p := q, parts := named));
        } else if uri[q] == COLON {
          r := Some(m.(state := SchemeOrPort, p := q));
        } else {
          r := Some(m.(state := Rest, p := q, parts := named));
        }
      case SchemeOrPort =>
        if SchemeMark(uri, m.p) {
          r := Some(m.(state := UserInfo, p := m.p + 3, parts := m.parts.(scheme := Span(0, m.p))));
        } else {
          r := Some(m.(state := Port, parts := m.parts.(host := Span(0, m.p))));
        }
      case UserInfo =>
        var q := Advance(uri, m.p, {AT, OPEN, SLASH});
        if q == |uri| || uri[q] != AT { q := m.p; }
        r := Some(m.(state := Host, p := q, parts := m.parts.(user := Span(m.p, q - m.p))));
      case Host =>
        r := SwitchHost(uri, m, after);
      case Port =>
        var q, port := ReadPort(uri, m.p + 1, m.parts.port);
        r := Some(Machine(if q < |uri| then Rest else Port, q, m.parts.(port := port)));
      case Rest =>
        var path, p := ParseComponent(uri, m.p, {QUERY, HASH});
        var query := m.parts.query;
        if p < |uri| && p > 0 && uri[p - 1] == QUERY {
          query, p := ParseComponent(uri, p, {HASH});
        }
        var fragment;
        fragment, p := ParseComponent(uri, p, {});
        r := Some(m.(p := p, parts := m.parts.(path := path, query := query, fragment := fragment)));
    }
  }

  method SwitchHost(uri: seq<Byte>, m: Machine, after: Byte) returns (r: Option<Machine>)
    requires m.p < |uri|
    ensures r == HostStep(uri, m, after)
  {
    hide Find;
    var p := if uri[m.p] == AT then m.p + 1 else m.p;
    var q;
    if (if p < |uri| then uri[p] else after) == OPEN {
      q := Advance(uri, p, {CLOSE});
      if q == |uri| { return None; }
      q := q + 1;
    } else {
      q := Advance(uri, p, {COLON, SLASH});
    }
    var state := Host;
    if q < |uri| {
      if uri[q] == COLON {
        state := Port;
      } else if uri[q] == SLASH {
        state := Rest;
      }
    }
    r := Some(Machine(state, q, m.parts.(host := Span(p, q - p))));
  }

  /** http_parse_uri terminates on every text and follows the machine. */
  method ParseUri(uri: seq<Byte>, after: Byte) returns (r: Option<Parts>)
    ensures r == Parse(uri, after)
  {
    hide Step;
    var m := Machine(Start, 0, NO_PARTS);
    while m.p < |uri|
      invariant m.p <= |uri| && Run(uri, m, after) == Parse(uri, after)
      decreases |uri| - m.p, Rank(m.state)
    {
      StepDescends(uri, m, after);
      var next := Switch(uri, m, after);
      if next.None? { return None; }
      m := next.value;
    }
    r := Some(m.parts);
  }

  // ----- Composed URIs -----

  /** The components as texts. */
  datatype Components = Components(
    scheme: seq<Byte>, user: seq<Byte>, host: seq<Byte>, port: nat,
    path: seq<Byte>, query: seq<Byte>, fragment: seq<Byte>)

  /** The text a slice covers. */
  function Text(uri: seq<Byte>, s: Span): seq<Byte> {
    if s.Span? && s.at + s.len <= |uri| then uri[s.at..s.at + s.len] else []
  }

  function Texts(uri: seq<Byte>, parts: Parts): Components {
    Components(Text(uri, parts.scheme), Text(uri, parts.user), Text(uri, parts.host), parts.port,
               Text(uri, parts.path), Text(uri, parts.query), Text(uri, parts.fragment))
  }

  predicate Free(s: seq<Byte>, seps: set<Byte>) {
    forall i :: 0 <= i < |s| ==> s[i] !in seps
  }

  /** A slice of text that is free of separators and followed by one, or by the end. */
  lemma {:induction false} FindAfter(uri: seq<Byte>, p: nat, piece: seq<Byte>, rest: seq<Byte>, seps: set<Byte>)
    requires p <= |uri| && uri[p..] == piece + rest && Free(piece, seps) && (rest == [] || rest[0] in seps)
    ensures Find(uri, p, seps) == p + |piece| && p + |piece| <= |uri| && Text(uri, Span(p, |piece|)) == piece
    ensures uri[p + |piece|..] == rest
    decreases |piece|
  {
    assert |uri| == p + |piece| + |rest|;
    assert uri[p..][..|piece|] == piece && uri[p..][|piece|..] == rest;
    if piece == [] {
      if rest != [] { assert uri[p] == rest[0]; }
    } else {
      assert uri[p] == piece[0];
      assert uri[p + 1..] == uri[p..][1..] == piece[1..] + rest;
      FindAfter(uri, p + 1, piece[1..], rest, seps);
    }
  }

  function Optional(mark: Byte, s: Option<seq<Byte>>): seq<Byte> {
    if s.None? then [] else [mark] + s.value
  }

  function Given(s: Option<seq<Byte>>): seq<Byte> {
    if s.None? then [] else s.value
  }

  /** Path, query and fragment as written; a query or fragment follows a path. */
  function Tail(path: seq<Byte>, query: Option<seq<Byte>>, fragment: Option<seq<Byte>>): seq<Byte> {
    path + (Optional(QUERY, query) + Optional(HASH, fragment))
  }

  predicate GoodTail(path: seq<Byte>, query: Option<seq<Byte>>, fragment: Option<seq<Byte>>) {
    && Free(path, {QUERY, HASH}) && Free(Given(query), {HASH})
    && if path == [] then query.None? && fragment.None? else path[0] == SLASH
  }

  /** Query and fragment, from the byte after the question mark. */
  lemma QueryAt(uri: seq<Byte>, p: nat, query: seq<Byte>, fragment: Option<seq<Byte>>)
    requires p <= |uri| && Free(query, {HASH}) && uri[p..] == query + Optional(HASH, fragment)
    ensures var (span, q) := Component(uri, p, {HASH});
            Text(uri, span) == query && Text(uri, Component(uri, q, {}).0) == Given(fragment)
  {
    hide Find, Text, Component;
    ComponentAt(uri, p, query, Optional(HASH, fragment), {HASH});
    AfterMark(uri, p + |query|, HASH, fragment);
  }

  lemma ComponentAt(uri: seq<Byte>, p: nat, piece: seq<Byte>, rest: seq<Byte>, seps: set<Byte>)
    requires p <= |uri| && uri[p..] == piece + rest && Free(piece, seps) && (rest == [] || rest[0] in seps)
    ensures var q := p + |piece|;
            && q <= |uri| && uri[q..] == rest && Text(uri, Span(p, |piece|)) == piece
            && Component(uri, p, seps) == (Span(p, |piece|), if q < |uri| then q + 1 else q)
  {
    hide Find, Text;
    FindAfter(uri, p, piece, rest, seps);
  }

  /** A fragment, from its mark or the end of the text. */
  lemma AfterMark(uri: seq<Byte>, q: nat, mark: Byte, fragment: Option<seq<Byte>>)
    requires q <= |uri| && uri[q..] == Optional(mark, fragment)
    ensures var p := if q < |uri| then q + 1 else q; Text(uri, Component(uri, p, {}).0) == Given(fragment)
  {
    if fragment.Some? {
      assert uri[q..][1..] == uri[q + 1..];
      FragmentAt(uri, q + 1, fragment.value);
    } else {
      FragmentAt(uri, q, []);
    }
  }

  lemma MarksHead(query: Option<seq<Byte>>, fragment: Option<seq<Byte>>)
    ensures var rest := Optional(QUERY, query) + Optional(HASH, fragment); rest == [] || rest[0] in {QUERY, HASH}
  {
  }

  lemma RestTexts(uri: seq<Byte>, m: Machine, path: seq<Byte>, query: Option<seq<Byte>>, fragment: Option<seq<Byte>>)
    requires m.p < |uri| && m.parts.query == NoSpan && GoodTail(path, query, fragment)
    requires uri[m.p..] == Tail(path, query, fragment)
    ensures var r := RestStep(uri, m).parts;
            && Text(uri, r.path) == path && Text(uri, r.query) == Given(query) && Text(uri, r.fragment) == Given(fragment)
  {
    hide Find, Text, QueryPart, Component, Optional, Free;
    var rest := Optional(QUERY, query) + Optional(HASH, fragment);
    MarksHead(query, fragment);
    ComponentAt(uri, m.p, path, rest, {QUERY, HASH});
    MarkedTexts(uri, m.p + |path|, query, fragment);
  }

  /** Query and fragment, from the first mark or the end of the text. */
  lemma MarkedTexts(uri: seq<Byte>, q: nat, query: Option<seq<Byte>>, fragment: Option<seq<Byte>>)
    requires q <= |uri| && Free(Given(query), {HASH}) && uri[q..] == Optional(QUERY, query) + Optional(HASH, fragment)
    ensures var p := if q < |uri| then q + 1 else q;
            var (span, r) := QueryPart(uri, p, NoSpan);
            Text(uri, span) == Given(query) && Text(uri, Component(uri, r, {}).0) == Given(fragment)
  {
    hide Find, Text, Component;
    if query.None? {
      assert uri[q..] == Optional(HASH, fragment);
      AfterMark(uri, q, HASH, fragment);
      if fragment.Some? { assert uri[q..][0] == HASH; }
      NoText(uri);
    } else {
      assert uri[q..][0] == QUERY;
      assert uri[q + 1..] == uri[q..][1..] == query.value + Optional(HASH, fragment);
      if q + 1 < |uri| {
        QueryAt(uri, q + 1, query.value, fragment);
      } else {
        NoText(uri);
        AfterMark(uri, q + 1, HASH, None);
      }
    }
  }

  lemma NoText(uri: seq<Byte>)
    ensures Text(uri, NoSpan) == []
  {
  }

  /** From the first slash on. */
  lemma RestRun(uri: seq<Byte>, m: Machine, path: seq<Byte>, query: Option<seq<Byte>>, fragment: Option<seq<Byte>>, after: Byte)
    requires m.p < |uri| && m.state == Rest && m.parts.query == NoSpan
    requires GoodTail(path, query, fragment) && uri[m.p..] == Tail(path, query, fragment)
    ensures var r := Run(uri, m, after);
            r.Some? && Texts(uri, r.value) == Texts(uri, m.parts).(path := path, query := Given(query), fragment := Given(fragment))
  {
    hide Text, Tail, GoodTail, Run, Component;
    RestTexts(uri, m, path, query, fragment);
    Finish(uri, m, after);
  }

  lemma FragmentAt(uri: seq<Byte>, p: nat, fragment: seq<Byte>)
    requires p <= |uri| && uri[p..] == fragment
    ensures Component(uri, p, {}) == (Span(p, |fragment|), |uri|) && Text(uri, Span(p, |fragment|)) == fragment
  {
    NoSeparator(uri, p, Find(uri, p, {}));
  }

  lemma Finish(uri: seq<Byte>, m: Machine, after: Byte)
    requires m.p < |uri| && m.state == Rest
    ensures Run(uri, m, after) == Some(RestStep(uri, m).parts)
  {
    StepDescends(uri, m, after);
    var p := Component(uri, m.p, {QUERY, HASH}).1;
    var q := QueryPart(uri, p, m.parts.query).1;
    NoSeparator(uri, q, Find(uri, q, {}));
  }

  // ----- Port, host and user -----

  /** The tail where nothing has been found yet. */
  predicate Blank(parts: Parts) {
    parts.port == 0 && parts.path == NoSpan && parts.query == NoSpan && parts.fragment == NoSpan
  }

  predicate Digits(s: seq<Byte>) {
    forall i :: 0 <= i < |s| ==> ZERO <= s[i] <= ZERO + 9
  }

  function Decimal(s: seq<Byte>): nat
    requires Digits(s)
  {
    if s == [] then 0 else Decimal(s[..|s| - 1]) * 10 + (s[|s| - 1] - ZERO)
  }

  /** The port loop computes the decimal value modulo 2^32. */
  lemma {:induction false} PortDecimal(s: seq<Byte>)
    requires Digits(s)
    ensures PortOf(0, s) == Decimal(s) % TWO_32
  {
    if s != [] {
      var n := |s| - 1;
      PortDecimal(s[..n]);
      PortLast(0, s);
      var x := Decimal(s[..n]);
      ModTimes(x, (s[n] - ZERO) as int);
    }
  }

  lemma ModTimes(x: nat, d: int)
    ensures ((x % TWO_32) * 10 + d) % TWO_32 == (x * 10 + d) % TWO_32
  {
    var k := x / TWO_32;
    assert x * 10 + d == (x % TWO_32) * 10 + d + (k * 10) * TWO_32;
    ModShift((x % TWO_32) * 10 + d, k * 10);
  }

  lemma {:induction false} PortLast(port: nat, s: seq<Byte>)
    requires s != []
    ensures var n := |s| - 1; PortOf(port, s) == (PortOf(port, s[..n]) * 10 + (Signed(s[n]) - ZERO as int)) % TWO_32
    decreases |s|
  {
    var n := |s| - 1;
    if n > 0 {
      assert s[1..][..n - 1] == s[..n][1..];
      PortLast((port * 10 + (Signed(s[0]) - ZERO as int)) % TWO_32, s[1..]);
    }
  }

  /** The port as read, whatever its text. */
  function PortValue(port: Option<seq<Byte>>): nat {
    PortOf(0, Given(port))
  }

  /** Everything after the host: a port and a tail, or nothing. */
  datatype Suffix = Suffix(port: Option<seq<Byte>>, path: seq<Byte>, query: Option<seq<Byte>>, fragment: Option<seq<Byte>>)

  predicate GoodSuffix(s: Suffix) {
    Free(Given(s.port), {SLASH, AT, OPEN}) && GoodTail(s.path, s.query, s.fragment)
  }

  function TailText(s: Suffix): seq<Byte> {
    Tail(s.path, s.query, s.fragment)
  }

  function SuffixText(s: Suffix): seq<Byte> {
    Optional(COLON, s.port) + TailText(s)
  }

  function WithSuffix(c: Components, s: Suffix): Components
    requires GoodSuffix(s)
  {
    c.(port := PortValue(s.port), path := s.path, query := Given(s.query), fragment := Given(s.fragment))
  }

  lemma TailHead(s: Suffix)
    requires GoodSuffix(s)
    ensures if s.path == [] then TailText(s) == [] else TailText(s) != [] && TailText(s)[0] == SLASH
  {
  }

  /** The state after the host, with the cursor on what follows it. */
  predicate AfterHost(uri: seq<Byte>, m: Machine, s: Suffix) {
    && m.p <= |uri| && Blank(m.parts) && GoodSuffix(s) && uri[m.p..] == SuffixText(s)
    && (s.port.Some? ==> m.state == Port) && (s.port.None? && s.path != [] ==> m.state == Rest)
  }

  lemma SuffixRun(uri: seq<Byte>, m: Machine, s: Suffix, after: Byte)
    requires AfterHost(uri, m, s)
    ensures var r := Run(uri, m, after); r.Some? && Texts(uri, r.value) == WithSuffix(Texts(uri, m.parts), s)
  {
    TailHead(s);
    if s.port.Some? {
      PortRun(uri, m, s, after);
    } else {
      assert SuffixText(s) == TailText(s);
      TailRun(uri, m, s, after);
    }
  }

  lemma TailRun(uri: seq<Byte>, m: Machine, s: Suffix, after: Byte)
    requires m.p <= |uri| && uri[m.p..] == TailText(s) && GoodSuffix(s) && m.parts.query == NoSpan
    requires m.parts.path == NoSpan && m.parts.fragment == NoSpan && (s.path != [] ==> m.state == Rest)
    ensures var r := Run(uri, m, after);
            && r.Some?
            && Texts(uri, r.value) == Texts(uri, m.parts).(path := s.path, query := Given(s.query), fragment := Given(s.fragment))
  {
    if s.path == [] {
      assert uri[m.p..] == [];
    } else {
      assert uri[m.p..] != [];
      hide Run, Texts, GoodTail;
      RestRun(uri, m, s.path, s.query, s.fragment, after);
    }
  }

  lemma PortRun(uri: seq<Byte>, m: Machine, s: Suffix, after: Byte)
    requires AfterHost(uri, m, s) && s.port.Some?
    ensures var r := Run(uri, m, after); r.Some? && Texts(uri, r.value) == WithSuffix(Texts(uri, m.parts), s)
  {
    hide Run, Find, GoodTail, PortStep, Texts, TailText, PortOf, PortValue;
    PortNext(uri, m, s);
    var next := PortStep(uri, m);
    PortTexts(uri, m.parts, PortValue(s.port));
    OneStep(uri, m, next, after);
    TailRun(uri, next, s, after);
  }

  lemma PortTexts(uri: seq<Byte>, parts: Parts, port: nat)
    ensures Texts(uri, parts.(port := port)) == Texts(uri, parts).(port := port)
  {
  }

  lemma PortNext(uri: seq<Byte>, m: Machine, s: Suffix)
    requires AfterHost(uri, m, s) && s.port.Some?
    ensures m.p < |uri|
    ensures var next := PortStep(uri, m);
            && next.p <= |uri| && uri[next.p..] == TailText(s) && next.parts == m.parts.(port := PortValue(s.port))
            && (s.path != [] ==> next.state == Rest)
  {
    var digits := s.port.value;
    assert SuffixText(s) == [COLON] + (digits + TailText(s));
    TailHead(s);
    hide Find, PortOf, GoodTail, TailText, SuffixText;
    PortAt(uri, m.p, digits, TailText(s));
  }

  lemma PortAt(uri: seq<Byte>, p: nat, digits: seq<Byte>, tail: seq<Byte>)
    requires p <= |uri| && uri[p..] == [COLON] + (digits + tail) && Free(digits, {SLASH})
    requires tail == [] || tail[0] == SLASH
    ensures p < |uri|
    ensures var q := Find(uri, p + 1, {SLASH});
            q <= |uri| && uri[p + 1..q] == digits && uri[q..] == tail && (q < |uri| <==> tail != [])
  {
    hide Find;
    assert |uri[p..]| == |uri| - p;
    assert uri[p + 1..] == uri[p..][1..];
    FindAfter(uri, p + 1, digits, tail, {SLASH});
    FirstOf(uri, p + 1 + |digits|, tail);
  }

  lemma OneStep(uri: seq<Byte>, m: Machine, next: Machine, after: Byte)
    requires m.p < |uri| && Step(uri, m, after) == Some(next)
    ensures m.p <= next.p <= |uri| && Run(uri, m, after) == Run(uri, next, after)
  {
    StepDescends(uri, m, after);
  }

  /** A host: plain, or bracketed. */
  predicate GoodHost(h: seq<Byte>) {
    if h != [] && h[0] == OPEN
    then |h| >= 2 && h[|h| - 1] == CLOSE && Free(h[..|h| - 1], {CLOSE})
    else Free(h, {COLON, SLASH, AT, OPEN})
  }

  lemma SuffixHead(s: Suffix)
    requires GoodSuffix(s)
    ensures var t := SuffixText(s);
            if s.port.Some? then t != [] && t[0] == COLON
            else t == TailText(s) && (if s.path == [] then t == [] else t != [] && t[0] == SLASH)
  {
    TailHead(s);
  }

  lemma BracketEnd(uri: seq<Byte>, p: nat, h: seq<Byte>, rest: seq<Byte>)
    requires p <= |uri| && GoodHost(h) && h != [] && h[0] == OPEN && uri[p..] == h + rest
    ensures p + |h| <= |uri| && uri[p] == OPEN && Find(uri, p, {CLOSE}) == p + |h| - 1
    ensures Text(uri, Span(p, |h|)) == h && uri[p + |h|..] == rest
  {
    var n := |h| - 1;
    assert |uri| == p + |h| + |rest|;
    assert uri[p..] == h[..n] + ([CLOSE] + rest);
    assert uri[p] == uri[p..][0];
    FindAfter(uri, p, h[..n], [CLOSE] + rest, {CLOSE});
    hide Find;
    assert uri[p..][..|h|] == h && uri[p..][|h|..] == rest;
  }

  lemma HostEndAt(uri: seq<Byte>, p: nat, h: seq<Byte>, s: Suffix, after: Byte)
    requires p <= |uri| && GoodHost(h) && GoodSuffix(s) && uri[p..] == h + SuffixText(s) && after != OPEN
    ensures p + |h| <= |uri| && HostEnd(uri, p, after) == Some(p + |h|)
    ensures Text(uri, Span(p, |h|)) == h && uri[p + |h|..] == SuffixText(s)
  {
    SuffixHead(s);
    hide SuffixText, GoodTail;
    assert |uri| == p + |h| + |SuffixText(s)|;
    if h != [] && h[0] == OPEN {
      BracketEnd(uri, p, h, SuffixText(s));
    } else {
      if p < |uri| { assert uri[p] == uri[p..][0]; }
      FindAfter(uri, p, h, SuffixText(s), {COLON, SLASH});
    }
  }

  /** From the host on, with the `@` of a user before it or not. */
  lemma HostRun(uri: seq<Byte>, m: Machine, at: bool, h: seq<Byte>, s: Suffix, after: Byte)
    requires m.state == Host && m.p < |uri| && Blank(m.parts) && GoodHost(h) && GoodSuffix(s) && after != OPEN
    requires uri[m.p..] == (if at then [AT] else []) + (h + SuffixText(s))
    ensures var r := Run(uri, m, after);
            r.Some? && Texts(uri, r.value) == WithSuffix(Texts(uri, m.parts).(host := h), s)
  {
    hide Run, HostStep, GoodTail, GoodHost, WithSuffix, SuffixText, Texts;
    HostNext(uri, m, at, h, s, after);
    var next := HostStep(uri, m, after).value;
    OneStep(uri, m, next, after);
    SuffixRun(uri, next, s, after);
  }

  lemma HostNext(uri: seq<Byte>, m: Machine, at: bool, h: seq<Byte>, s: Suffix, after: Byte)
    requires m.state == Host && m.p < |uri| && Blank(m.parts) && GoodHost(h) && GoodSuffix(s) && after != OPEN
    requires uri[m.p..] == (if at then [AT] else []) + (h + SuffixText(s))
    ensures var r := HostStep(uri, m, after);
            r.Some? && AfterHost(uri, r.value, s) && Texts(uri, r.value.parts) == Texts(uri, m.parts).(host := h)
  {
    var p := if at then m.p + 1 else m.p;
    HostStartsAt(uri, m.p, at, h, s);
    HostMoves(uri, m, p, h, s, after);
  }

  lemma HostStartsAt(uri: seq<Byte>, p: nat, at: bool, h: seq<Byte>, s: Suffix)
    requires p < |uri| && GoodHost(h) && GoodSuffix(s)
    requires uri[p..] == (if at then [AT] else []) + (h + SuffixText(s))
    ensures (uri[p] == AT) == at && uri[if at then p + 1 else p..] == h + SuffixText(s)
  {
    SuffixHead(s);
    hide SuffixText, GoodSuffix;
    assert uri[p] == uri[p..][0];
    if at {
      assert uri[p + 1..] == uri[p..][1..];
    } else {
      assert uri[p..] == h + SuffixText(s);
    }
  }

  lemma HostMoves(uri: seq<Byte>, m: Machine, p: nat, h: seq<Byte>, s: Suffix, after: Byte)
    requires m.p < |uri| && Blank(m.parts) && GoodHost(h) && GoodSuffix(s) && after != OPEN
    requires p == (if uri[m.p] == AT then m.p + 1 else m.p) && uri[p..] == h + SuffixText(s)
    ensures var r := HostStep(uri, m, after);
            r.Some? && AfterHost(uri, r.value, s) && Texts(uri, r.value.parts) == Texts(uri, m.parts).(host := h)
  {
    hide HostEnd, SuffixText, GoodSuffix, GoodHost, Text, TailText, HostStep, Texts;
    SuffixHead(s);
    HostEndAt(uri, p, h, s, after);
    var q := p + |h|;
    FirstOf(uri, q, SuffixText(s));
    HostLands(uri, m, p, q, after);
    HostTexts(uri, m.parts, Span(p, |h|));
  }

  lemma HostLands(uri: seq<Byte>, m: Machine, p: nat, q: nat, after: Byte)
    requires m.p < |uri| && p == (if uri[m.p] == AT then m.p + 1 else m.p) && p <= q && HostEnd(uri, p, after) == Some(q)
    ensures var r := HostStep(uri, m, after);
            && r.Some? && r.value.p == q && r.value.parts == m.parts.(host := Span(p, q - p))
            && (q < |uri| && uri[q] == COLON ==> r.value.state == Port)
            && (q < |uri| && uri[q] == SLASH ==> r.value.state == Rest)
  {
    hide HostEnd;
  }

  lemma HostTexts(uri: seq<Byte>, parts: Parts, host: Span)
    ensures Texts(uri, parts.(host := host)) == Texts(uri, parts).(host := Text(uri, host))
  {
    hide Text;
  }

  lemma FirstOf(uri: seq<Byte>, q: nat, t: seq<Byte>)
    requires q <= |uri| && uri[q..] == t
    ensures (q < |uri| <==> t != []) && (q < |uri| ==> uri[q] == t[0])
  {
    if q < |uri| { assert uri[q] == uri[q..][0]; }
  }

  predicate GoodUser(u: Option<seq<Byte>>) {
    Free(Given(u), {AT, OPEN, SLASH})
  }

  function UserText(u: Option<seq<Byte>>): seq<Byte> {
    if u.None? then [] else u.value + [AT]
  }

  /** From the byte after `://` on. */
  lemma UserRun(uri: seq<Byte>, m: Machine, u: Option<seq<Byte>>, h: seq<Byte>, s: Suffix, after: Byte)
    requires m.state == UserInfo && m.p <= |uri| && Blank(m.parts) && m.parts.user == NoSpan && m.parts.host == NoSpan
    requires GoodUser(u) && GoodHost(h) && GoodSuffix(s) && after != OPEN
    requires uri[m.p..] == UserText(u) + (h + SuffixText(s))
    ensures var r := Run(uri, m, after);
            r.Some? && Texts(uri, r.value) == WithSuffix(Texts(uri, m.parts).(user := Given(u), host := h), s)
  {
    if m.p == |uri| {
      assert uri[m.p..] == [];
      SuffixHead(s);
    } else {
      UserNext(uri, m, u, h, s);
      var next := UserStep(uri, m);
      OneStep(uri, m, next, after);
      hide Run, UserStep, GoodTail, GoodHost, WithSuffix, SuffixText;
      HostRun(uri, next, u.Some?, h, s, after);
    }
  }

  lemma UserNext(uri: seq<Byte>, m: Machine, u: Option<seq<Byte>>, h: seq<Byte>, s: Suffix)
    requires m.state == UserInfo && m.p < |uri| && GoodUser(u) && GoodHost(h) && GoodSuffix(s)
    requires uri[m.p..] == UserText(u) + (h + SuffixText(s))
    ensures var next := UserStep(uri, m);
            && next.state == Host && next.p < |uri| && uri[next.p..] == (if u.Some? then [AT] else []) + (h + SuffixText(s))
            && next.parts == m.parts.(user := next.parts.user) && Text(uri, next.parts.user) == Given(u)
  {
    var seps := {AT, OPEN, SLASH};
    hide Find, SuffixText, GoodHost, GoodTail, Text;
    if u.Some? {
      UserFound(uri, m, u.value, h + SuffixText(s));
    } else {
      assert uri[m.p..] == h + SuffixText(s);
      NoUser(uri, m.p, h, s);
      EmptyText(uri, m.p);
      assert [] + (h + SuffixText(s)) == h + SuffixText(s);
    }
  }

  lemma EmptyText(uri: seq<Byte>, p: nat)
    ensures Text(uri, Span(p, 0)) == []
  {
  }

  lemma UserFound(uri: seq<Byte>, m: Machine, u: seq<Byte>, rest: seq<Byte>)
    requires m.p < |uri| && Free(u, {AT, OPEN, SLASH}) && uri[m.p..] == (u + [AT]) + rest
    ensures var next := UserStep(uri, m);
            && next.state == Host && next.p < |uri| && uri[next.p..] == [AT] + rest
            && next.parts == m.parts.(user := next.parts.user) && Text(uri, next.parts.user) == u
  {
    hide Find, Text;
    assert uri[m.p..] == u + ([AT] + rest);
    FindAfter(uri, m.p, u, [AT] + rest, {AT, OPEN, SLASH});
    FirstOf(uri, m.p + |u|, [AT] + rest);
  }

  /** Without a user the search for `@` stops at a bracket, at the path or at the end. */
  lemma NoUser(uri: seq<Byte>, p: nat, h: seq<Byte>, s: Suffix)
    requires p < |uri| && GoodHost(h) && GoodSuffix(s) && uri[p..] == h + SuffixText(s)
    ensures var q := Find(uri, p, {AT, OPEN, SLASH}); q == |uri| || uri[q] != AT
  {
    var seps := {AT, OPEN, SLASH};
    assert uri[p] == uri[p..][0];
    if h == [] || h[0] != OPEN {
      var named := h + Optional(COLON, s.port);
      assert uri[p..] == named + TailText(s);
      TailHead(s);
      assert Free(named, seps);
      FindAfter(uri, p, named, TailText(s), seps);
      var q := p + |named|;
      if q < |uri| { assert uri[q] == uri[q..][0]; }
    }
  }

  const SCHEME_MARK: seq<Byte> := [COLON, SLASH, SLASH]

  /** With any text in the place of the port. */
  lemma ComposedParts(scheme: seq<Byte>, u: Option<seq<Byte>>, h: seq<Byte>, s: Suffix, after: Byte)
    requires Free(scheme, {COLON, SLASH}) && (scheme == [] || scheme[0] != OPEN)
    requires GoodUser(u) && GoodHost(h) && GoodSuffix(s) && after != OPEN
    ensures var uri := scheme + (SCHEME_MARK + (UserText(u) + (h + SuffixText(s))));
            var r := Parse(uri, after);
            && r.Some?
            && Texts(uri, r.value)
               == Components(scheme, Given(u), h, PortValue(s.port), s.path, Given(s.query), Given(s.fragment))
  {
    var rest := UserText(u) + (h + SuffixText(s));
    var uri := scheme + (SCHEME_MARK + rest);
    var m0 := Machine(Start, 0, NO_PARTS);
    var m1 := Machine(SchemeOrPort, |scheme|, NO_PARTS);
    var m2 := Machine(UserInfo, |scheme| + 3, NO_PARTS.(scheme := Span(0, |scheme|)));
    SchemeNext(uri, scheme, rest);
    OneStep(uri, m0, m1, after);
    OneStep(uri, m1, m2, after);
    assert Texts(uri, m2.parts) == Components(scheme, [], [], 0, [], [], []);
    hide Run, Text, Texts, GoodTail, GoodHost, SuffixText, UserText;
    UserRun(uri, m2, u, h, s, after);
  }

  /** Every URI written scheme://[user@]host[:port][/path[?query][#fragment]] from
      components free of the separators that would end them is taken apart into
      exactly those components and the decimal port, modulo 2^32. */
  lemma ParseComposed(scheme: seq<Byte>, u: Option<seq<Byte>>, h: seq<Byte>, s: Suffix, after: Byte)
    requires Free(scheme, {COLON, SLASH}) && (scheme == [] || scheme[0] != OPEN)
    requires GoodUser(u) && GoodHost(h) && GoodSuffix(s) && Digits(Given(s.port)) && after != OPEN
    ensures var uri := scheme + (SCHEME_MARK + (UserText(u) + (h + SuffixText(s))));
            var r := Parse(uri, after);
            && r.Some?
            && Texts(uri, r.value) == Components(
                 scheme, Given(u), h, Decimal(Given(s.port)) % TWO_32, s.path, Given(s.query), Given(s.fragment))
  {
    hide Parse, Texts, GoodSuffix, GoodHost, GoodUser, SuffixText, UserText, Free;
    ComposedParts(scheme, u, h, s, after);
    PortDecimal(Given(s.port));
  }

  /** A query or fragment without a path, free of the separators of a host: the
      marks and what follows them end up in the host. */
  lemma PathlessHost(scheme: seq<Byte>, u: Option<seq<Byte>>, h: seq<Byte>,
                     query: Option<seq<Byte>>, fragment: Option<seq<Byte>>, after: Byte)
    requires Free(scheme, {COLON, SLASH}) && (scheme == [] || scheme[0] != OPEN) && GoodUser(u) && after != OPEN
    requires Free(h, {COLON, SLASH, AT, OPEN})
    requires Free(Given(query), {COLON, SLASH, AT, OPEN}) && Free(Given(fragment), {COLON, SLASH, AT, OPEN})
    ensures var marks := Optional(QUERY, query) + Optional(HASH, fragment);
            var uri := scheme + (SCHEME_MARK + (UserText(u) + (h + marks)));
            var r := Parse(uri, after);
            r.Some? && Texts(uri, r.value) == Components(scheme, Given(u), h + marks, 0, [], [], [])
  {
    var marks := Optional(QUERY, query) + Optional(HASH, fragment);
    var s := Suffix(None, [], None, None);
    MarksFree(query, fragment, {COLON, SLASH, AT, OPEN});
    assert GoodHost(h + marks) && SuffixText(s) == [];
    assert (h + marks) + SuffixText(s) == h + marks;
    hide Parse, Texts;
    ComposedParts(scheme, u, h + marks, s, after);
  }

  /** After a port they are read as further digits. */
  lemma PathlessPort(scheme: seq<Byte>, u: Option<seq<Byte>>, h: seq<Byte>, port: seq<Byte>,
                     query: Option<seq<Byte>>, fragment: Option<seq<Byte>>, after: Byte)
    requires Free(scheme, {COLON, SLASH}) && (scheme == [] || scheme[0] != OPEN) && GoodUser(u) && after != OPEN
    requires GoodHost(h) && Free(port, {SLASH, AT, OPEN})
    requires Free(Given(query), {SLASH, AT, OPEN}) && Free(Given(fragment), {SLASH, AT, OPEN})
    ensures var marks := Optional(QUERY, query) + Optional(HASH, fragment);
            var uri := scheme + (SCHEME_MARK + (UserText(u) + (h + ([COLON] + (port + marks)))));
            var r := Parse(uri, after);
            r.Some? && Texts(uri, r.value) == Components(scheme, Given(u), h, PortOf(0, port + marks), [], [], [])
  {
    var marks := Optional(QUERY, query) + Optional(HASH, fragment);
    var s := Suffix(Some(port + marks), [], None, None);
    MarksFree(query, fragment, {SLASH, AT, OPEN});
    assert GoodSuffix(s) && SuffixText(s) == [COLON] + (port + marks);
    hide Parse, Texts, GoodSuffix, Free, GoodHost, SuffixText, PortOf;
    ComposedParts(scheme, u, h, s, after);
  }

  lemma MarksFree(query: Option<seq<Byte>>, fragment: Option<seq<Byte>>, seps: set<Byte>)
    requires Free(Given(query), seps) && Free(Given(fragment), seps) && QUERY !in seps && HASH !in seps
    ensures Free(Optional(QUERY, query) + Optional(HASH, fragment), seps)
  {
  }

  // ----- When a composed URI is taken apart exactly -----

  /** A path once found is not empty, nothing is found behind a path that was not,
      and the rest is entered only at a slash. */
  predicate Tidy(uri: seq<Byte>, m: Machine) {
    && (m.parts.path == NoSpan ==> m.parts.query == NoSpan && m.parts.fragment == NoSpan)
    && (m.parts.path != NoSpan ==> Text(uri, m.parts.path) != [])
    && (m.state == Rest && m.p < |uri| ==> uri[m.p] == SLASH)
  }

  lemma {:induction false} FindStops(uri: seq<Byte>, p: nat, seps: set<Byte>)
    requires p <= |uri|
    ensures var q := Find(uri, p, seps); q < |uri| ==> uri[q] in seps
    decreases |uri| - p
  {
    if p < |uri| && uri[p] !in seps { FindStops(uri, p + 1, seps); }
  }

  lemma StepTidy(uri: seq<Byte>, m: Machine, after: Byte)
    requires m.p < |uri| && Tidy(uri, m)
    ensures var r := Step(uri, m, after); r.Some? ==> Tidy(uri, r.value)
  {
    match m.state
    case Start => FindStops(uri, m.p, {COLON, SLASH});
    case SchemeOrPort =>
    case UserInfo =>
    case Host =>
    case Port => FindStops(uri, m.p + 1, {SLASH});
    case Rest => RestTidy(uri, m);
    hide Find, Text;
  }

  lemma RestTidy(uri: seq<Byte>, m: Machine)
    requires m.p < |uri| && m.state == Rest && uri[m.p] == SLASH
    ensures Tidy(uri, RestStep(uri, m))
  {
    var q := Find(uri, m.p + 1, {QUERY, HASH});
    assert Find(uri, m.p, {QUERY, HASH}) == q;
    var r := RestStep(uri, m);
    assert r.parts.path == Span(m.p, q - m.p);
    var p := Component(uri, m.p, {QUERY, HASH}).1;
    NoSeparator(uri, QueryPart(uri, p, m.parts.query).1, Find(uri, QueryPart(uri, p, m.parts.query).1, {}));
  }

  /** A parse that finds an empty path finds no query and no fragment. */
  lemma {:induction false} NothingBehind(uri: seq<Byte>, m: Machine, after: Byte)
    requires m.p <= |uri| && Tidy(uri, m)
    ensures var r := Run(uri, m, after);
            r.Some? && Text(uri, r.value.path) == [] ==> Text(uri, r.value.query) == [] && Text(uri, r.value.fragment) == []
    decreases |uri| - m.p, Rank(m.state)
  {
    hide Step, Rank;
    if m.p < |uri| {
      StepDescends(uri, m, after);
      StepTidy(uri, m, after);
      hide Tidy, Text;
      if Step(uri, m, after).Some? { NothingBehind(uri, Step(uri, m, after).value, after); }
    }
  }

  /** From the byte after `://`, with a bracket behind the user. */
  lemma BracketUser(uri: seq<Byte>, m: Machine, u: Option<seq<Byte>>, rest: seq<Byte>)
    requires m.p < |uri| && GoodUser(u) && rest != [] && rest[0] == OPEN && uri[m.p..] == UserText(u) + rest
    ensures var next := UserStep(uri, m);
            && next.state == Host && next.p < |uri| && uri[next.p..] == (if u.Some? then [AT] else []) + rest
            && next.parts == m.parts.(user := next.parts.user) && Text(uri, next.parts.user) == Given(u)
  {
    hide Find, Text;
    if u.Some? {
      UserFound(uri, m, u.value, rest);
    } else {
      assert UserText(u) + rest == rest && [] + rest == rest;
      NoUserBracket(uri, m, rest);
    }
  }

  lemma NoUserBracket(uri: seq<Byte>, m: Machine, rest: seq<Byte>)
    requires m.p < |uri| && rest != [] && rest[0] == OPEN && uri[m.p..] == rest
    ensures UserStep(uri, m) == m.(state := Host, parts := m.parts.(user := Span(m.p, 0)))
    ensures Text(uri, Span(m.p, 0)) == []
  {
    FirstOf(uri, m.p, rest);
    assert Find(uri, m.p, {AT, OPEN, SLASH}) == m.p;
    hide Find;
  }

  /** Behind a bracketed host a further text without separators takes its place. */
  lemma BracketRun(uri: seq<Byte>, m: Machine, at: bool, h: seq<Byte>, marks: seq<Byte>, after: Byte)
    requires m.state == Host && m.p < |uri| && GoodHost(h) && h != [] && h[0] == OPEN
    requires marks != [] && Free(marks, {COLON, SLASH, AT, OPEN})
    requires uri[m.p..] == (if at then [AT] else []) + (h + marks)
    ensures var r := Run(uri, m, after); r.Some? && Texts(uri, r.value) == Texts(uri, m.parts).(host := marks)
  {
    var p := if at then m.p + 1 else m.p;
    FirstOf(uri, m.p, (if at then [AT] else []) + (h + marks));
    if at { assert uri[m.p + 1..] == uri[m.p..][1..]; }
    assert uri[p..] == h + marks;
    assert (uri[m.p] == AT) == at;
    BracketFirst(uri, m, p, h, marks, after);
    var m1 := Machine(Host, p + |h|, m.parts.(host := Span(p, |h|)));
    hide Find, Text, GoodHost, Free, HostStep, Run, Texts;
    MarksSecond(uri, m1, marks, after);
    OneStep(uri, m, m1, after);
    OneStep(uri, m1, Machine(Host, |uri|, m1.parts.(host := Span(m1.p, |marks|))), after);
    HostTexts(uri, m.parts, Span(m1.p, |marks|));
    RunEnd(uri, Machine(Host, |uri|, m1.parts.(host := Span(m1.p, |marks|))), after);
  }

  lemma RunEnd(uri: seq<Byte>, m: Machine, after: Byte)
    requires m.p == |uri|
    ensures Run(uri, m, after) == Some(m.parts)
  {
  }

  /** Past the bracket the host is not left. */
  lemma BracketFirst(uri: seq<Byte>, m: Machine, p: nat, h: seq<Byte>, marks: seq<Byte>, after: Byte)
    requires m.p < |uri| && p == (if uri[m.p] == AT then m.p + 1 else m.p) && p <= |uri| && uri[p..] == h + marks
    requires GoodHost(h) && h != [] && h[0] == OPEN && marks != [] && Free(marks, {COLON, SLASH, AT, OPEN})
    ensures p + |h| < |uri| && uri[p + |h|..] == marks
    ensures HostStep(uri, m, after) == Some(Machine(Host, p + |h|, m.parts.(host := Span(p, |h|))))
  {
    BracketEnd(uri, p, h, marks);
    FirstOf(uri, p + |h|, marks);
    assert marks[0] !in {COLON, SLASH, AT, OPEN};
    hide Find, Text, GoodHost, Free;
  }

  /** The marks are then taken for the host. */
  lemma MarksSecond(uri: seq<Byte>, m: Machine, marks: seq<Byte>, after: Byte)
    requires m.p < |uri| && uri[m.p..] == marks && marks != [] && Free(marks, {COLON, SLASH, AT, OPEN})
    ensures HostStep(uri, m, after) == Some(Machine(Host, |uri|, m.parts.(host := Span(m.p, |marks|))))
    ensures Text(uri, Span(m.p, |marks|)) == marks
  {
    FirstOf(uri, m.p, marks);
    assert marks + [] == marks && marks[0] !in {COLON, SLASH, AT, OPEN};
    assert Free(marks, {COLON, SLASH});
    FindAfter(uri, m.p, marks, [], {COLON, SLASH});
    hide Find, Text, Free;
  }

  /** A query or fragment behind a bracketed host without a path takes the place of
      the host. */
  lemma PathlessBracket(scheme: seq<Byte>, u: Option<seq<Byte>>, h: seq<Byte>, marks: seq<Byte>, after: Byte)
    requires Free(scheme, {COLON, SLASH}) && (scheme == [] || scheme[0] != OPEN) && GoodUser(u)
    requires GoodHost(h) && h != [] && h[0] == OPEN && marks != [] && Free(marks, {COLON, SLASH, AT, OPEN})
    ensures var uri := scheme + (SCHEME_MARK + (UserText(u) + (h + marks)));
            var r := Parse(uri, after);
            r.Some? && Texts(uri, r.value) == Components(scheme, Given(u), marks, 0, [], [], [])
  {
    var rest := UserText(u) + (h + marks);
    var uri := scheme + (SCHEME_MARK + rest);
    hide GoodHost, Free, UserText, Text, Run, Parse;
    SchemeRun(uri, scheme, rest, after);
    BracketBehind(uri, Machine(UserInfo, |scheme| + 3, NO_PARTS.(scheme := Span(0, |scheme|))), u, h, marks, after);
    NoText(uri);
  }

  lemma BracketBehind(uri: seq<Byte>, m: Machine, u: Option<seq<Byte>>, h: seq<Byte>, marks: seq<Byte>, after: Byte)
    requires m.state == UserInfo && m.p <= |uri| && uri[m.p..] == UserText(u) + (h + marks) && GoodUser(u)
    requires GoodHost(h) && h != [] && h[0] == OPEN && marks != [] && Free(marks, {COLON, SLASH, AT, OPEN})
    ensures var r := Run(uri, m, after);
            r.Some? && Texts(uri, r.value) == Texts(uri, m.parts).(user := Given(u), host := marks)
  {
    hide GoodHost, Free, Text, Run;
    FirstOf(uri, m.p, UserText(u) + (h + marks));
    BracketUser(uri, m, u, h + marks);
    var next := UserStep(uri, m);
    hide UserStep, UserText;
    OneStep(uri, m, next, after);
    BracketRun(uri, next, u.Some?, h, marks, after);
  }

  lemma SchemeRun(uri: seq<Byte>, scheme: seq<Byte>, rest: seq<Byte>, after: Byte)
    requires uri == scheme + (SCHEME_MARK + rest) && Free(scheme, {COLON, SLASH}) && (scheme == [] || scheme[0] != OPEN)
    ensures var m := Machine(UserInfo, |scheme| + 3, NO_PARTS.(scheme := Span(0, |scheme|)));
            && m.p <= |uri| && uri[m.p..] == rest && Text(uri, Span(0, |scheme|)) == scheme
            && Parse(uri, after) == Run(uri, m, after)
  {
    SchemeNext(uri, scheme, rest);
    var m0 := Machine(Start, 0, NO_PARTS);
    var m1 := Machine(SchemeOrPort, |scheme|, NO_PARTS);
    OneStep(uri, m0, m1, after);
    OneStep(uri, m1, Machine(UserInfo, |scheme| + 3, NO_PARTS.(scheme := Span(0, |scheme|))), after);
  }

  /** A URI with any path, query and fragment, whether or not there is a path. */
  function Written(scheme: seq<Byte>, u: Option<seq<Byte>>, h: seq<Byte>, s: Suffix): seq<Byte> {
    scheme + (SCHEME_MARK + (UserText(u) + (h + SuffixText(s))))
  }

  /** Components that can be told apart: a port is a 16-bit number, a path begins
      with a slash, and nothing holds the mark that would end it. */
  predicate Sound(scheme: seq<Byte>, u: Option<seq<Byte>>, h: seq<Byte>, s: Suffix) {
    && Free(scheme, {COLON, SLASH}) && (scheme == [] || scheme[0] != OPEN) && GoodUser(u) && GoodHost(h)
    && Digits(Given(s.port)) && Decimal(Given(s.port)) < 0x1_0000
    && Free(s.path, {QUERY, HASH}) && (s.path == [] || s.path[0] == SLASH) && Free(Given(s.query), {HASH})
  }

  /** The parse gives exactly these components. */
  predicate TakenApart(scheme: seq<Byte>, u: Option<seq<Byte>>, h: seq<Byte>, s: Suffix, after: Byte)
    requires Digits(Given(s.port))
  {
    var uri := Written(scheme, u, h, s);
    var r := Parse(uri, after);
    && r.Some?
    && Texts(uri, r.value)
       == Components(scheme, Given(u), h, Decimal(Given(s.port)), s.path, Given(s.query), Given(s.fragment))
  }

  /** A composed URI is taken apart into exactly its components if and only if it
      has a path, or neither a query nor a fragment. */
  lemma TakenApartIff(scheme: seq<Byte>, u: Option<seq<Byte>>, h: seq<Byte>, s: Suffix, after: Byte)
    requires Sound(scheme, u, h, s) && after != OPEN
    ensures TakenApart(scheme, u, h, s, after) <==> s.path != [] || (s.query.None? && s.fragment.None?)
  {
    assert Digits(Given(s.port));
    hide Sound, TakenApart, Digits;
    if s.path != [] || (s.query.None? && s.fragment.None?) {
      WithPath(scheme, u, h, s, after);
    } else if Given(s.query) != [] || Given(s.fragment) != [] {
      WithoutPath(scheme, u, h, s, after);
    } else {
      BareMarks(scheme, u, h, s, after);
    }
  }

  lemma WithPath(scheme: seq<Byte>, u: Option<seq<Byte>>, h: seq<Byte>, s: Suffix, after: Byte)
    requires Sound(scheme, u, h, s) && after != OPEN && (s.path != [] || (s.query.None? && s.fragment.None?))
    ensures TakenApart(scheme, u, h, s, after)
  {
    hide GoodSuffix, GoodUser, GoodHost, Free, Parse, Texts, UserText, SuffixText, Decimal, Digits;
    SoundSuffix(scheme, u, h, s);
    ParseComposed(scheme, u, h, s, after);
  }

  lemma SoundSuffix(scheme: seq<Byte>, u: Option<seq<Byte>>, h: seq<Byte>, s: Suffix)
    requires Sound(scheme, u, h, s) && (s.path != [] || (s.query.None? && s.fragment.None?))
    ensures GoodSuffix(s)
  {
    hide Decimal, GoodHost, GoodUser;
    DigitsFree(Given(s.port));
  }

  lemma WithoutPath(scheme: seq<Byte>, u: Option<seq<Byte>>, h: seq<Byte>, s: Suffix, after: Byte)
    requires Sound(scheme, u, h, s) && s.path == [] && (Given(s.query) != [] || Given(s.fragment) != [])
    ensures !TakenApart(scheme, u, h, s, after)
  {
    hide Run, Written, Decimal, Text;
    NothingFound(Written(scheme, u, h, s), after);
  }

  lemma NothingFound(uri: seq<Byte>, after: Byte)
    ensures var r := Parse(uri, after);
            r.Some? && Text(uri, r.value.path) == [] ==> Text(uri, r.value.query) == [] && Text(uri, r.value.fragment) == []
  {
    NothingBehind(uri, Machine(Start, 0, NO_PARTS), after);
    hide Run, Text;
  }

  lemma DigitsFree(s: seq<Byte>)
    requires Digits(s)
    ensures Free(s, {SLASH, AT, OPEN, COLON})
  {
  }

  /** Marks with nothing behind them: ?, # or ?#. */
  lemma BareMarks(scheme: seq<Byte>, u: Option<seq<Byte>>, h: seq<Byte>, s: Suffix, after: Byte)
    requires Sound(scheme, u, h, s) && after != OPEN
    requires s.path == [] && Given(s.query) == [] && Given(s.fragment) == [] && (s.query.Some? || s.fragment.Some?)
    ensures !TakenApart(scheme, u, h, s, after)
  {
    var marks := Optional(QUERY, s.query) + Optional(HASH, s.fragment);
    MarksFree(s.query, s.fragment, {COLON, SLASH, AT, OPEN});
    assert marks != [] && marks[0] != OPEN && TailText(s) == marks;
    assert SuffixText(s) == if s.port.Some? then [COLON] + (s.port.value + marks) else marks;
    hide SuffixText, TailText, Parse, Texts, UserText;
    if s.port.Some? {
      BarePortUri(scheme, u, h, s, marks, after);
    } else {
      BareHostUri(scheme, u, h, s, marks, after);
    }
  }

  lemma BarePortUri(scheme: seq<Byte>, u: Option<seq<Byte>>, h: seq<Byte>, s: Suffix, marks: seq<Byte>, after: Byte)
    requires Sound(scheme, u, h, s) && after != OPEN && s.port.Some? && SuffixText(s) == [COLON] + (s.port.value + marks)
    requires marks == Optional(QUERY, s.query) + Optional(HASH, s.fragment) && (s.query.Some? || s.fragment.Some?)
    requires Given(s.query) == [] && Given(s.fragment) == []
    ensures !TakenApart(scheme, u, h, s, after)
  {
    hide SuffixText, Parse, Texts, UserText, PortOf, Decimal, GoodHost, GoodUser;
    DigitsFree(s.port.value);
    PathlessPort(scheme, u, h, s.port.value, s.query, s.fragment, after);
    BarePort(s.port.value, s.query, s.fragment);
    hide Optional, Digits;
  }

  lemma BareHostUri(scheme: seq<Byte>, u: Option<seq<Byte>>, h: seq<Byte>, s: Suffix, marks: seq<Byte>, after: Byte)
    requires Sound(scheme, u, h, s) && after != OPEN && s.port.None? && SuffixText(s) == marks
    requires marks == Optional(QUERY, s.query) + Optional(HASH, s.fragment) && marks != [] && marks[0] != OPEN
    requires Free(marks, {COLON, SLASH, AT, OPEN}) && Given(s.query) == [] && Given(s.fragment) == []
    ensures !TakenApart(scheme, u, h, s, after)
  {
    hide SuffixText, Parse, Texts, UserText, GoodUser, Decimal;
    if h != [] && h[0] == OPEN {
      PathlessBracket(scheme, u, h, marks, after);
    } else {
      PathlessHost(scheme, u, h, s.query, s.fragment, after);
      assert |h + marks| != |h|;
    }
    hide Optional, GoodHost;
  }

  /** The marks change the port that is read. */
  lemma BarePort(d: seq<Byte>, query: Option<seq<Byte>>, fragment: Option<seq<Byte>>)
    requires Digits(d) && Decimal(d) < 0x1_0000 && Given(query) == [] && Given(fragment) == []
    requires query.Some? || fragment.Some?
    ensures PortOf(0, d + (Optional(QUERY, query) + Optional(HASH, fragment))) != Decimal(d)
  {
    PortDecimal(d);
    var n := Decimal(d);
    hide Decimal, PortOf, Digits;
    BareText(d, query, fragment);
    hide Optional;
    AfterQuery(d, n);
    AfterHash(d, n);
    AfterHash(d + [QUERY], n * 10 + 15);
  }

  lemma BareText(d: seq<Byte>, query: Option<seq<Byte>>, fragment: Option<seq<Byte>>)
    requires Given(query) == [] && Given(fragment) == [] && (query.Some? || fragment.Some?)
    ensures d + (Optional(QUERY, query) + Optional(HASH, fragment)) ==
            if query.None? then d + [HASH] else if fragment.None? then d + [QUERY] else (d + [QUERY]) + [HASH]
  {
  }

  lemma AfterQuery(s: seq<Byte>, n: nat)
    requires PortOf(0, s) == n < 0x10_0000
    ensures PortOf(0, s + [QUERY]) == n * 10 + 15
  {
    hide PortOf;
    PortOneMore(s, QUERY);
  }

  lemma AfterHash(s: seq<Byte>, n: nat)
    requires PortOf(0, s) == n < 0x10_0000
    ensures PortOf(0, s + [HASH]) == if n < 2 then TWO_32 + n * 10 - 13 else n * 10 - 13
  {
    hide PortOf;
    PortOneMore(s, HASH);
    PortMinus(n);
  }

  lemma PortOneMore(s: seq<Byte>, c: Byte)
    ensures PortOf(0, s + [c]) == (PortOf(0, s) * 10 + (Signed(c) - ZERO as int)) % TWO_32
  {
    PortLast(0, s + [c]);
    assert (s + [c])[..|s|] == s;
  }

  lemma PortMinus(n: nat)
    requires n < 0x10_0000
    ensures (n * 10 - 13) % TWO_32 == if n < 2 then TWO_32 + n * 10 - 13 else n * 10 - 13
  {
  }

  /** For instance, http://h?q has the host h?q. */
  lemma HostExample(after: Byte)
    requires after != OPEN
    ensures var uri: seq<Byte> := [104, 116, 116, 112, COLON, SLASH, SLASH, 104, QUERY, 113];
            var r := Parse(uri, after);
            r.Some? && Texts(uri, r.value) == Components([104, 116, 116, 112], [], [104, QUERY, 113], 0, [], [], [])
  {
    var scheme: seq<Byte> := [104, 116, 116, 112];
    var h: seq<Byte> := [104];
    var q: seq<Byte> := [113];
    var marks := Optional(QUERY, Some(q)) + Optional(HASH, None);
    assert marks == [QUERY, 113] && h + marks == [104, QUERY, 113];
    assert scheme + (SCHEME_MARK + (UserText(None) + (h + marks)))
        == [104, 116, 116, 112, COLON, SLASH, SLASH, 104, QUERY, 113];
    hide Parse, Texts;
    PathlessHost(scheme, None, h, Some(q), None, after);
  }

  /** And http://h:80?q has the port 8215. */
  lemma PortExample(after: Byte)
    requires after != OPEN
    ensures var uri: seq<Byte> := [104, 116, 116, 112, COLON, SLASH, SLASH, 104, COLON, 56, 48, QUERY, 113];
            var r := Parse(uri, after);
            r.Some? && Texts(uri, r.value) == Components([104, 116, 116, 112], [], [104], 8215, [], [], [])
  {
    var scheme: seq<Byte> := [104, 116, 116, 112];
    var h: seq<Byte> := [104];
    var d: seq<Byte> := [56, 48];
    var q: seq<Byte> := [113];
    var marks := Optional(QUERY, Some(q)) + Optional(HASH, None);
    assert marks == [QUERY, 113] && d + marks == [56, 48, QUERY, 113];
    assert scheme + (SCHEME_MARK + (UserText(None) + (h + ([COLON] + (d + marks)))))
        == [104, 116, 116, 112, COLON, SLASH, SLASH, 104, COLON, 56, 48, QUERY, 113];
    PortRead();
    hide Parse, Texts, PortOf;
    PathlessPort(scheme, None, h, d, Some(q), None, after);
  }

  lemma PortRead()
    ensures PortOf(0, [56, 48, QUERY, 113]) == 8215
  {
    var s: seq<Byte> := [56, 48, QUERY, 113];
    assert s[1..] == [48, QUERY, 113] && [48, QUERY, 113][1..] == [QUERY, 113];
    assert [QUERY, 113][1..] == [113] && [113 as Byte][1..] == [];
    assert PortOf(815, [113]) == PortOf(8215, []);
    assert PortOf(80, [QUERY, 113]) == PortOf(815, [113]);
    assert PortOf(8, [48, QUERY, 113]) == PortOf(80, [QUERY, 113]);
  }

  lemma SchemeNext(uri: seq<Byte>, scheme: seq<Byte>, rest: seq<Byte>)
    requires uri == scheme + (SCHEME_MARK + rest) && Free(scheme, {COLON, SLASH}) && (scheme == [] || scheme[0] != OPEN)
    ensures StartStep(uri, Machine(Start, 0, NO_PARTS)) == Machine(SchemeOrPort, |scheme|, NO_PARTS)
    ensures SchemeStep(uri, Machine(SchemeOrPort, |scheme|, NO_PARTS))
            == Machine(UserInfo, |scheme| + 3, NO_PARTS.(scheme := Span(0, |scheme|)))
    ensures |scheme| + 3 <= |uri| && uri[|scheme| + 3..] == rest && Text(uri, Span(0, |scheme|)) == scheme
  {
    assert uri[0..] == uri;
    FindAfter(uri, 0, scheme, SCHEME_MARK + rest, {COLON, SLASH});
  }

  /** Without a scheme: host[:port][/path...], unless the text after an empty port
      makes it look like a scheme; the port of digits is its decimal value. */
  lemma ParseSchemeless(h: seq<Byte>, s: Suffix, after: Byte)
    requires GoodHost(h) && GoodSuffix(s) && after != OPEN
    requires s.port == Some([]) ==> !(|s.path| >= 2 && s.path[1] == SLASH)
    ensures var uri := h + SuffixText(s);
            var r := Parse(uri, after);
            && r.Some?
            && Texts(uri, r.value) == Components([], [], h, PortValue(s.port), s.path, Given(s.query), Given(s.fragment))
            && (Digits(Given(s.port)) ==> r.value.port == Decimal(Given(s.port)) % TWO_32)
  {
    if Digits(Given(s.port)) { PortDecimal(Given(s.port)); }
    hide PortOf, Decimal;
    var uri := h + SuffixText(s);
    var m0 := Machine(Start, 0, NO_PARTS);
    assert uri[0..] == uri;
    SuffixHead(s);
    if uri == [] {
      assert h == [];
    } else if uri[0] == OPEN {
      var m1 := m0.(state := Host);
      OneStep(uri, m0, m1, after);
      assert [] + (h + SuffixText(s)) == uri;
      HostRun(uri, m1, false, h, s, after);
    } else {
      PlainNext(uri, h, s, after);
    }
  }

  lemma PlainNext(uri: seq<Byte>, h: seq<Byte>, s: Suffix, after: Byte)
    requires GoodHost(h) && GoodSuffix(s) && uri == h + SuffixText(s) && uri != [] && uri[0] != OPEN
    requires s.port == Some([]) ==> !(|s.path| >= 2 && s.path[1] == SLASH)
    ensures var r := Parse(uri, after);
            && r.Some?
            && Texts(uri, r.value) == Components([], [], h, PortValue(s.port), s.path, Given(s.query), Given(s.fragment))
  {
    var m0 := Machine(Start, 0, NO_PARTS);
    assert uri[0..] == uri;
    SuffixHead(s);
    FindAfter(uri, 0, h, SuffixText(s), {COLON, SLASH});
    var q := |h|;
    if q < |uri| { assert uri[q] == uri[q..][0]; }
    var m1 := StartStep(uri, m0);
    OneStep(uri, m0, m1, after);
    var parts := NO_PARTS.(host := Span(0, q));
    assert Texts(uri, parts) == Components([], [], h, 0, [], [], []);
    if s.port.Some? {
      NoSchemeMark(uri, h, s);
      OneStep(uri, m1, Machine(Port, q, parts), after);
      SuffixRun(uri, Machine(Port, q, parts), s, after);
    } else {
      SuffixRun(uri, m1, s, after);
    }
  }

  lemma NoSchemeMark(uri: seq<Byte>, h: seq<Byte>, s: Suffix)
    requires GoodSuffix(s) && uri == h + SuffixText(s) && s.port.Some?
    requires s.port == Some([]) ==> !(|s.path| >= 2 && s.path[1] == SLASH)
    ensures !SchemeMark(uri, |h|)
  {
    assert SuffixText(s) == [COLON] + (s.port.value + TailText(s));
    TailHead(s);
  }
}
