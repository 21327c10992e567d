/** Which texts http_parse_uri rejects (application/http_client/http_client.c). */
module UriRejects {
  import opened Bytes
  import opened Words
  import opened Wrappers
  import opened Uri

  // ----- Unclosed brackets -----

  /** A bracketed host, with or without an `@` in front. */
  datatype Group = Group(at: bool, body: seq<Byte>)

  function At(at: bool): seq<Byte> {
    if at then [64] else []
  }

  function GroupText(g: Group): seq<Byte> {
    At(g.at) + ([91] + (g.body + [93]))
  }

  function GroupsText(gs: seq<Group>): seq<Byte> {
    if gs == [] then [] else GroupText(gs[0]) + GroupsText(gs[1..])
  }

  predicate Closed(gs: seq<Group>) {
    forall i :: 0 <= i < |gs| ==> 93 !in gs[i].body
  }

  /** A bracket that nothing closes, with or without an `@` in front, or a final `@`
      when a bracket happens to follow the text in memory. */
  predicate OpenEnd(t: seq<Byte>, after: Byte) {
    || (t != [] && t[0] == 91 && 93 !in t)
    || (|t| >= 2 && t[0] == 64 && t[1] == 91 && 93 !in t)
    || (t == [64] && after == 91)
  }

  predicate UnclosedAs(s: seq<Byte>, after: Byte, gs: seq<Group>, t: seq<Byte>) {
    Closed(gs) && s == GroupsText(gs) + t && OpenEnd(t, after)
  }

  /** Any number of bracketed hosts, and then a bracket that nothing closes. */
  ghost predicate Unclosed(s: seq<Byte>, after: Byte) {
    exists gs, t :: UnclosedAs(s, after, gs, t)
  }

  // ----- One host step -----

  lemma {:induction false} FindIs(uri: seq<Byte>, p: nat, seps: set<Byte>)
    requires p <= |uri|
    ensures var q := Find(uri, p, seps);
            (forall i :: p <= i < q ==> uri[i] !in seps) && (q < |uri| ==> uri[q] in seps)
    decreases |uri| - p
  {
    if p < |uri| && uri[p] !in seps { FindIs(uri, p + 1, seps); }
  }

  /** Behind a host nothing is rejected. */
  lemma {:induction false} LateRun(uri: seq<Byte>, m: Machine, after: Byte)
    requires m.p <= |uri| && (m.state == Port || m.state == Rest)
    ensures Run(uri, m, after).Some?
    decreases |uri| - m.p, Rank(m.state)
  {
    if m.p < |uri| {
      StepDescends(uri, m, after);
      LateRun(uri, Step(uri, m, after).value, after);
    }
  }

  /** Where a bracket begins. */
  predicate Bracket(s: seq<Byte>, after: Byte) {
    s != [] && (s[0] == 91 || (s[0] == 64 && (if |s| > 1 then s[1] else after) == 91))
  }

  lemma GroupsHead(gs: seq<Group>, t: seq<Byte>)
    requires gs != []
    ensures GroupsText(gs) + t == GroupText(gs[0]) + (GroupsText(gs[1..]) + t)
  {
    hide GroupText;
  }

  lemma GroupHead(g: Group, rest: seq<Byte>, after: Byte)
    ensures Bracket(GroupText(g) + rest, after)
  {
  }

  lemma UnclosedHead(s: seq<Byte>, after: Byte)
    requires Unclosed(s, after)
    ensures Bracket(s, after)
  {
    var gs, t :| UnclosedAs(s, after, gs, t);
    assert gs == [] ==> s == t;
    if gs != [] {
      hide GroupsText;
      GroupsHead(gs, t);
      GroupHead(gs[0], GroupsText(gs[1..]) + t, after);
    }
  }

  /** The group ends at the first closing bracket. */
  lemma FirstClose(g: Group, rest: seq<Byte>)
    requires 93 !in g.body
    ensures var s, n := GroupText(g) + rest, |GroupText(g)| - 1;
            s[n] == 93 && forall i :: 0 <= i < n ==> s[i] != 93
  {
    var s, n, k := GroupText(g) + rest, |GroupText(g)| - 1, |At(g.at)| + 1;
    forall i | k <= i < n ensures s[i] != 93 { assert s[i] == g.body[i - k]; }
  }

  lemma Peel(g: Group, rest: seq<Byte>, after: Byte)
    requires 93 !in g.body
    ensures Unclosed(GroupText(g) + rest, after) <==> Unclosed(rest, after)
  {
    var s := GroupText(g) + rest;
    if Unclosed(rest, after) {
      var gs, t :| UnclosedAs(rest, after, gs, t);
      assert ([g] + gs)[1..] == gs;
      assert s == GroupsText([g] + gs) + t;
      assert UnclosedAs(s, after, [g] + gs, t);
    }
    if gs, t :| UnclosedAs(s, after, gs, t) { PeelFirst(g, rest, after, gs, t); }
  }

  lemma PeelFirst(g: Group, rest: seq<Byte>, after: Byte, gs: seq<Group>, t: seq<Byte>)
    requires 93 !in g.body && UnclosedAs(GroupText(g) + rest, after, gs, t)
    ensures Unclosed(rest, after)
  {
    var s := GroupText(g) + rest;
    FirstClose(g, rest);
    assert 93 in s && (gs == [] ==> s == t);
    if gs != [] {
      var more := GroupsText(gs[1..]) + t;
      assert s == GroupText(gs[0]) + more;
      FirstClose(gs[0], more);
      assert |GroupText(g)| == |GroupText(gs[0])|;
      assert rest == s[|GroupText(g)|..] == more;
      assert UnclosedAs(rest, after, gs[1..], t);
    }
  }

  // ----- The host -----

  /** From a host on, a text is rejected if and only if it is bracketed hosts and then
      a bracket that nothing closes. */
  lemma {:induction false} HostRejected(uri: seq<Byte>, m: Machine, after: Byte)
    requires m.p < |uri| && m.state == Host
    ensures Run(uri, m, after).None? <==> Unclosed(uri[m.p..], after)
    decreases |uri| - m.p
  {
    var s := uri[m.p..];
    var at := uri[m.p] == 64;
    var p := if at then m.p + 1 else m.p;
    hide Find;
    if !Bracket(s, after) {
      if Unclosed(s, after) { UnclosedHead(s, after); }
      PlainHost(uri, m, after);
    } else if p == |uri| || 93 !in s {
      FindIs(uri, p, {CLOSE});
      assert s == GroupsText([]) + s;
      assert UnclosedAs(s, after, [], s);
    } else {
      FindIs(uri, p, {CLOSE});
      var q := Find(uri, p, {CLOSE});
      BracketHost(uri, m, after, at, p, q);
    }
  }

  lemma PlainHost(uri: seq<Byte>, m: Machine, after: Byte)
    requires m.p < |uri| && m.state == Host && !Bracket(uri[m.p..], after)
    ensures Run(uri, m, after).Some?
  {
    hide Find;
    var p := if uri[m.p] == 64 then m.p + 1 else m.p;
    FindIs(uri, p, {COLON, SLASH});
    var next := HostStep(uri, m, after).value;
    OneStep(uri, m, next, after);
    if next.p < |uri| { LateRun(uri, next, after); }
  }

  lemma GroupAt(uri: seq<Byte>, start: nat, at: bool, p: nat, q: nat)
    requires start < |uri| && at == (uri[start] == 64) && p == (if at then start + 1 else start)
    requires p < q < |uri| && uri[p] == 91 && uri[q] == 93
    ensures uri[start..] == GroupText(Group(at, uri[p + 1..q])) + uri[q + 1..]
  {
    var s := uri[start..];
    assert uri[p..] == [91] + (uri[p + 1..q] + ([93] + uri[q + 1..]));
    assert s == At(at) + uri[p..];
  }

  /** The step over a bracketed host. */
  lemma BracketStep(uri: seq<Byte>, m: Machine, after: Byte, p: nat, q: nat)
    requires m.p < |uri| && m.state == Host && p == (if uri[m.p] == 64 then m.p + 1 else m.p)
    requires p < q < |uri| && uri[p] == 91 && q == Find(uri, p, {CLOSE})
    ensures var r := HostStep(uri, m, after);
            && r.Some? && r.value.p == q + 1 && Step(uri, m, after) == r
            && r.value.state == (if q + 1 == |uri| then Host else if uri[q + 1] == 58 then Port else if uri[q + 1] == 47 then Rest else Host)
  {
    hide Find;
  }

  lemma {:induction false} BracketHost(uri: seq<Byte>, m: Machine, after: Byte, at: bool, p: nat, q: nat)
    requires m.p < |uri| && m.state == Host && at == (uri[m.p] == 64) && p == (if at then m.p + 1 else m.p)
    requires p < q < |uri| && uri[p] == 91 && uri[q] == 93 && q == Find(uri, p, {CLOSE})
    requires forall i :: p <= i < q ==> uri[i] != 93
    ensures Run(uri, m, after).None? <==> Unclosed(uri[m.p..], after)
    decreases |uri| - m.p, 0
  {
    var g, rest := Group(at, uri[p + 1..q]), uri[q + 1..];
    GroupAt(uri, m.p, at, p, q);
    Peel(g, rest, after);
    BracketStep(uri, m, after, p, q);
    var next := HostStep(uri, m, after).value;
    hide Find, Unclosed, GroupText, HostStep, Run;
    OneStep(uri, m, next, after);
    if rest == [] || rest[0] in {COLON, SLASH} {
      if Unclosed(rest, after) { UnclosedHead(rest, after); }
      if rest != [] { LateRun(uri, next, after); } else { RunEnd(uri, next, after); }
    } else {
      HostRejected(uri, next, after);
    }
  }

  // ----- The whole text -----

  /** Where the host begins if it may be bracketed: at the front, or behind a scheme and
      its two slashes, at the `@` of a user if there is one. */
  function HostStart(uri: seq<Byte>): (h: Option<nat>)
    ensures h.Some? ==> h.value <= |uri|
  {
    if uri != [] && uri[0] == 91 then Some(0)
    else
      var q := Find(uri, 0, {58, 47});
      if !(q + 3 <= |uri| && uri[q..q + 3] == [58, 47, 47]) then None
      else
        var u := Find(uri, q + 3, {64, 91, 47});
        Some(if u < |uri| && uri[u] == 64 then u else q + 3)
  }

  /** http_parse_uri rejects a text if and only if its host is such a text. */
  lemma RejectedIff(uri: seq<Byte>, after: Byte)
    ensures Parse(uri, after).None? <==> HostStart(uri).Some? && Unclosed(uri[HostStart(uri).value..], after)
  {
    var m := Machine(Start, 0, NO_PARTS);
    hide Find;
    if uri == [] {
      FindIs(uri, 0, {58, 47});
    } else if uri[0] == 91 {
      OneStep(uri, m, StartStep(uri, m), after);
      HostRejected(uri, StartStep(uri, m), after);
    } else {
      var q := Find(uri, 0, {58, 47});
      FindIs(uri, 0, {58, 47});
      var next := StartStep(uri, m);
      OneStep(uri, m, next, after);
      if q < |uri| && uri[q] == 47 {
        LateRun(uri, next, after);
      } else if q < |uri| {
        if q + 3 <= |uri| { assert uri[q..q + 3] == [uri[q], uri[q + 1], uri[q + 2]]; }
        SchemeRejected(uri, next, after);
      }
    }
  }

  lemma SchemeRejected(uri: seq<Byte>, m: Machine, after: Byte)
    requires m.p < |uri| && m.state == SchemeOrPort && uri[m.p] == 58
    ensures if SchemeMark(uri, m.p)
            then
              var u := Find(uri, m.p + 3, {64, 91, 47});
              var h := if u < |uri| && uri[u] == 64 then u else m.p + 3;
              Run(uri, m, after).None? <==> Unclosed(uri[h..], after)
            else Run(uri, m, after).Some?
  {
    hide Find;
    var next := SchemeStep(uri, m);
    OneStep(uri, m, next, after);
    if !SchemeMark(uri, m.p) {
      LateRun(uri, next, after);
    } else if next.p == |uri| {
      assert uri[m.p + 3..] == [];
      if Unclosed([], after) { UnclosedHead([], after); }
    } else {
      var host := UserStep(uri, next);
      OneStep(uri, next, host, after);
      HostRejected(uri, host, after);
    }
  }

  // ----- Ports -----

  /** A byte from 128 on is a negative digit, and the port wraps around. */
  lemma HighDigit(b: Byte)
    requires b >= 128
    ensures PortOf(0, [b]) == 0x1_0000_0000 - 304 + b as int
  {
    assert [b][1..] == [];
    assert PortOf(0, [b]) == PortOf((Signed(b) - 48) % TWO_32, []);
  }
}
