/** Session scheduling of application/micro-talk-client: sessions wait in the work
    queue, one at a time is attached to the data channel, and each reply releases
    the connection. */
module MtkSessions {
  import opened Wrappers

  const WORKS_CAPACITY: nat := 8

  /** mtk_session_start with its session, mtk_dc_connect, or work of the notice
      channel. */
  datatype Work = Start(id: nat) | Connect | Other

  /** The context: pending works, sessions allocated and freed, the session
      attached to the data channel, whether that channel is connected, whether the
      attached session's request is out, and the last session number given. */
  datatype Net = Net(
    works: multiset<Work>, live: set<nat>, freed: set<nat>,
    attached: Option<nat>, connected: bool, awaiting: bool, last: nat)

  const START := Net(multiset{}, {}, {}, None, false, false, 0)

  /** What mtk_dc_connect meets: no connection, a request sent, a request that
      could not be allocated, or one that failed and deleted its session. */
  datatype Connecting = Unreachable | Sent | Unsent | Refused

  /** What a reply does to the attached session: nothing, a further request, the
      end (possibly adding a session), or deletion on an error. */
  datatype Replied = Ignored | Again | Finished(adds: bool) | Rejected

  datatype Event =
    | Add
    | AddOther
    | RunStart(id: nat)
    | RunConnect(outcome: Connecting)
    | RunOther
    | Reply(reply: Replied)
    | Broken

  // ----- Steps -----

  /** awoke_minpq_insert refuses work when the queue is full. */
  function Schedule(n: Net, w: Work): Net {
    if |n.works| < WORKS_CAPACITY then n.(works := n.works + multiset{w}) else n
  }

  function Take(n: Net, w: Work): Net {
    n.(works := n.works - multiset{w})
  }

  /** mtk_session_add. */
  function Added(n: Net): Net {
    Schedule(n.(last := n.last + 1, live := n.live + {n.last + 1}), Start(n.last + 1))
  }

  /** mtk_session_free on the attached session. */
  function Freed(n: Net): Net
    requires n.attached.Some?
  {
    var a := n.attached.value;
    n.(live := n.live - {a}, freed := n.freed + {a}, attached := None, awaiting := false)
  }

  /** mtk_session_start. */
  function Started(n: Net, id: nat): Net {
    match n.attached
    case Some(a) => if a == id then Schedule(n, Connect) else Schedule(n, Start(id))
    case None => Schedule(n.(attached := Some(id), awaiting := false), Connect)
  }

  /** mtk_dc_connect and mtk_client_connect_via_info. */
  function Connected(n: Net, outcome: Connecting): Net {
    if n.connected || outcome.Unreachable? then n
    else
      var up := n.(connected := true);
      if n.attached.None? || outcome.Unsent? then up
      else if outcome.Sent? then up.(awaiting := true)
      else Freed(up)
  }

  /** dc_response_recv and the release that follows it in short_link_read. */
  function Answered(n: Net, reply: Replied): Net {
    var down := n.(connected := false);
    match n.attached
    case None => down
    case Some(a) =>
      match reply
      case Ignored => down
      case Again => Schedule(down.(awaiting := false), Start(a))
      case Finished(adds) => Freed(if adds then Added(down) else down)
      case Rejected => Freed(down)
  }

  predicate Enabled(n: Net, e: Event) {
    match e
    case RunStart(id) => Start(id) in n.works
    case RunConnect(_) => Connect in n.works
    case RunOther => Other in n.works
    case Reply(_) => n.connected
    case Broken => n.connected
    case _ => true
  }

  function Step(n: Net, e: Event): Net {
    if !Enabled(n, e) then n
    else match e
      case Add => Added(n)
      case AddOther => Schedule(n, Other)
      case RunStart(id) => Started(Take(n, Start(id)), id)
      case RunConnect(outcome) => Connected(Take(n, Connect), outcome)
      case RunOther => Take(n, Other)
      case Reply(reply) => Answered(n, reply)
      case Broken => n.(connected := false)
  }

  function Run(es: seq<Event>): Net {
    if es == [] then START else Step(Run(es[..|es| - 1]), es[|es| - 1])
  }

  // ----- Safety -----

  /** No pending work and no connection refers to a freed session, and no session
      has two pending starts. */
  ghost predicate Safe(n: Net) {
    && (forall id: nat :: Start(id) in n.works ==> id in n.live && id !in n.freed)
    && (n.attached.Some? ==> n.attached.value in n.live && n.attached.value !in n.freed)
    && (forall id: nat :: n.works[Start(id)] <= 1)
  }

  /** A reply that asks for a further request, reaching an attached session while
      a connect is pending and the work queue has room. */
  predicate Hazard(n: Net, e: Event) {
    && e == Reply(Again) && n.connected && n.attached.Some?
    && Connect in n.works && |n.works| < 8
  }

  predicate HazardFree(es: seq<Event>) {
    forall k :: 0 <= k < |es| ==> !Hazard(Run(es[..k]), es[k])
  }

  /** The start work of the attached session excludes a connection and a connect. */
  ghost predicate Exclusive(n: Net) {
    n.attached.Some? && Start(n.attached.value) in n.works ==> !n.connected && Connect !in n.works
  }

  ghost predicate Numbered(n: Net) {
    && (forall id :: id in n.live ==> id <= n.last && id !in n.freed)
    && (forall id :: id in n.freed ==> id <= n.last)
  }

  ghost predicate Inv(n: Net) {
    Safe(n) && Exclusive(n) && Numbered(n)
  }

  lemma AddedKeeps(n: Net)
    requires Inv(n)
    ensures Inv(Added(n))
  {
    var id := n.last + 1;
    assert Start(id) !in n.works;
  }

  lemma FreedKeeps(n: Net)
    requires Inv(n) && n.attached.Some? && Start(n.attached.value) !in n.works
    ensures Inv(Freed(n))
  {
  }

  lemma StartedKeeps(n: Net, id: nat)
    requires Inv(n) && Start(id) in n.works
    ensures Inv(Started(Take(n, Start(id)), id))
  {
    assert n.works[Start(id)] == 1;
    var t := Take(n, Start(id));
    assert Start(id) !in t.works;
  }

  lemma ConnectedKeeps(n: Net, outcome: Connecting)
    requires Inv(n) && Connect in n.works
    ensures Inv(Connected(Take(n, Connect), outcome))
  {
    var t := Take(n, Connect);
    assert n.attached.Some? ==> Start(n.attached.value) !in t.works;
    assert Inv(t);
    if !n.connected && outcome.Refused? && n.attached.Some? { FreedKeeps(t.(connected := true)); }
  }

  lemma AnsweredKeeps(n: Net, reply: Replied)
    requires Inv(n) && n.connected && !Hazard(n, Reply(reply))
    ensures Inv(Answered(n, reply))
  {
    var down := n.(connected := false);
    assert Inv(down);
    if n.attached.Some? {
      assert Start(n.attached.value) !in n.works;
      match reply
      case Ignored =>
      case Again =>
      case Rejected => FreedKeeps(down);
      case Finished(adds) =>
        if adds {
          AddedKeeps(down);
          assert n.attached.value <= n.last;
          FreedKeeps(Added(down));
        } else {
          FreedKeeps(down);
        }
    }
  }

  lemma StepKeeps(n: Net, e: Event)
    requires Inv(n) && !Hazard(n, e)
    ensures Inv(Step(n, e))
  {
    if Enabled(n, e) {
      match e
      case Add => AddedKeeps(n);
      case AddOther =>
      case RunStart(id) => StartedKeeps(n, id);
      case RunConnect(outcome) => ConnectedKeeps(n, outcome);
      case RunOther =>
      case Reply(reply) => AnsweredKeeps(n, reply);
      case Broken =>
    }
  }

  /** Every hazard-free run keeps the invariant. */
  lemma {:induction false} HazardFreeInv(es: seq<Event>)
    requires HazardFree(es)
    ensures Inv(Run(es))
  {
    if es != [] {
      var before := es[..|es| - 1];
      assert forall k :: 0 <= k < |before| ==> before[..k] == es[..k];
      HazardFreeInv(before);
      StepKeeps(Run(before), es[|es| - 1]);
    }
  }

  /** Every hazard, in whatever state, lets the next connect free a session that
      has work pending. */
  lemma HazardBreaks(n: Net)
    requires Hazard(n, Reply(Again))
    ensures !Safe(Step(Step(n, Reply(Again)), RunConnect(Refused)))
  {
    var a := n.attached.value;
    var m := Step(n, Reply(Again));
    var w := Step(m, RunConnect(Refused));
    assert Start(a) in w.works && a in w.freed;
  }

  /** The run is safe at moment `k`, and stays safe should a connect fail there. */
  ghost predicate SafeAt(es: seq<Event>, k: nat)
    requires k <= |es|
  {
    Safe(Run(es[..k])) && Safe(Run(es[..k] + [RunConnect(Refused)]))
  }

  /** A run is safe at every moment, whether or not the next connect fails, exactly
      when it meets no hazard. */
  lemma SafeIff(es: seq<Event>)
    ensures HazardFree(es) <==> forall k :: 0 <= k <= |es| ==> SafeAt(es, k)
  {
    if HazardFree(es) {
      forall k | 0 <= k <= |es| ensures SafeAt(es, k) { PrefixSafe(es, k); }
    } else {
      var k :| 0 <= k < |es| && Hazard(Run(es[..k]), es[k]);
      UnsafeAfter(es, k);
    }
    hide SafeAt, Hazard, Run;
  }

  lemma UnsafeAfter(es: seq<Event>, k: nat)
    requires k < |es| && Hazard(Run(es[..k]), es[k])
    ensures !SafeAt(es, k + 1)
  {
    hide Hazard, Safe, Step;
    assert es[..k + 1] == es[..k] + [es[k]];
    RunPrefix(es[..k], es[k]);
    RunPrefix(es[..k + 1], RunConnect(Refused));
    HazardOnlyAgain(Run(es[..k]), es[k]);
    HazardBreaks(Run(es[..k]));
  }

  lemma HazardOnlyAgain(n: Net, e: Event)
    requires Hazard(n, e)
    ensures e == Reply(Again)
  {
  }

  lemma PrefixSafe(es: seq<Event>, k: nat)
    requires HazardFree(es) && k <= |es|
    ensures SafeAt(es, k)
  {
    var before := es[..k];
    forall i | 0 <= i < k
      ensures !Hazard(Run(before[..i]), before[i])
    {
      assert before[..i] == es[..i];
    }
    HazardFreeInv(before);
    RunPrefix(before, RunConnect(Refused));
    StepKeeps(Run(before), RunConnect(Refused));
  }

  // ----- Servers that answer only requests -----

  /** A reply reaches a session only while its request is out. */
  predicate Solicited(es: seq<Event>) {
    forall k :: 0 <= k < |es| ==> Asked(Run(es[..k]), es[k])
  }

  predicate Asked(n: Net, e: Event) {
    e.Reply? && n.attached.Some? ==> n.awaiting
  }

  /** The attached session is driven by at most one of: its own start work, a
      connect work, or a request that is out. */
  ghost predicate OneDriver(n: Net) {
    match n.attached
    case None => Connect !in n.works && !n.awaiting
    case Some(a) =>
      && n.works[Start(a)] + n.works[Connect] <= 1
      && (n.connected || n.awaiting ==> Start(a) !in n.works)
      && (n.awaiting ==> Connect !in n.works)
  }

  lemma DriverKeeps(n: Net, e: Event)
    requires Inv(n) && OneDriver(n) && Asked(n, e)
    ensures OneDriver(Step(n, e)) && !Hazard(n, e)
  {
    if Enabled(n, e) {
      hide Inv;
      match e
      case Add => AddedDriver(n);
      case RunStart(id) => StartedDriver(n, id);
      case RunConnect(outcome) => ConnectedDriver(n, outcome);
      case Reply(reply) => AnsweredDriver(n, reply);
      case _ =>
    }
  }

  lemma AddedDriver(n: Net)
    requires Inv(n) && OneDriver(n)
    ensures OneDriver(Added(n)) && Added(n).attached == n.attached
  {
    assert Start(n.last + 1) !in n.works;
  }

  lemma ConnectedDriver(n: Net, outcome: Connecting)
    requires OneDriver(n) && Connect in n.works
    ensures OneDriver(Connected(Take(n, Connect), outcome))
  {
  }

  lemma AnsweredDriver(n: Net, reply: Replied)
    requires Inv(n) && OneDriver(n) && n.connected && (n.attached.Some? ==> n.awaiting)
    ensures OneDriver(Answered(n, reply))
  {
    var down := n.(connected := false);
    if reply == Finished(true) && n.attached.Some? {
      assert Connect !in n.works;
      assert Connect !in Added(down).works;
    }
  }

  lemma StartedDriver(n: Net, id: nat)
    requires Inv(n) && OneDriver(n) && Start(id) in n.works
    ensures OneDriver(Started(Take(n, Start(id)), id))
  {
    assert n.works[Start(id)] == 1;
  }

  lemma {:induction false} SolicitedDriver(es: seq<Event>)
    requires Solicited(es)
    ensures HazardFree(es) && OneDriver(Run(es))
  {
    if es != [] {
      var before := es[..|es| - 1];
      assert forall k :: 0 <= k < |before| ==> before[..k] == es[..k];
      SolicitedDriver(before);
      HazardFreeInv(before);
      DriverKeeps(Run(before), es[|es| - 1]);
      forall k | 0 <= k < |es|
        ensures !Hazard(Run(es[..k]), es[k])
      {
        if k < |before| { assert before[..k] == es[..k]; }
      }
    }
  }

  /** A server that answers only requests never causes a hazard, so that every run
      with it is safe at every moment. */
  lemma SolicitedSafe(es: seq<Event>)
    requires Solicited(es)
    ensures HazardFree(es) && forall k :: 0 <= k <= |es| ==> SafeAt(es, k)
  {
    SolicitedDriver(es);
    SafeIff(es);
  }

  /** Such a state is reached: a first request fails and leaves the connection up,
      a second session attaches, and an unasked reply arrives before its connect. */
  lemma UnsafeRun()
    ensures !Safe(Run([Add, RunStart(1), RunConnect(Refused), Add, RunStart(2), Reply(Again), RunConnect(Refused)]))
  {
    hide Run, Step, Safe, Inv;
    RunEmpty();
    var e1 := [Add];
    var e2 := e1 + [RunStart(1)];
    var e3 := e2 + [RunConnect(Refused)];
    var e4 := e3 + [Add];
    var e5 := e4 + [RunStart(2)];
    var e6 := e5 + [Reply(Again)];
    var e7 := e6 + [RunConnect(Refused)];
    RunPrefix([], Add);
    assert [] + [Add] == e1;
    RunPrefix(e1, RunStart(1));
    RunPrefix(e2, RunConnect(Refused));
    RunPrefix(e3, Add);
    RunPrefix(e4, RunStart(2));
    RunPrefix(e5, Reply(Again));
    RunPrefix(e6, RunConnect(Refused));
    assert e7 == [Add, RunStart(1), RunConnect(Refused), Add, RunStart(2), Reply(Again), RunConnect(Refused)];
    FirstFails();
    SecondAttaches();
    HazardBreaks(WAITING);
  }

  const LEFT_UP := Net(multiset{}, {}, {1}, None, true, false, 1)
  const WAITING := Net(multiset{Connect}, {2}, {1}, Some(2), true, false, 2)

  lemma FirstFails()
    ensures Step(Step(Step(START, Add), RunStart(1)), RunConnect(Refused)) == LEFT_UP
  {
    assert Step(START, Add) == Net(multiset{Start(1)}, {1}, {}, None, false, false, 1);
    var m := Net(multiset{Connect}, {1}, {}, Some(1), false, false, 1);
    assert Step(Step(START, Add), RunStart(1)) == m;
  }

  lemma SecondAttaches()
    ensures Step(Step(LEFT_UP, Add), RunStart(2)) == WAITING && Hazard(WAITING, Reply(Again))
  {
    assert Step(LEFT_UP, Add) == Net(multiset{Start(2)}, {2}, {1}, None, true, false, 2);
  }

  lemma RunEmpty()
    ensures Run([]) == START
  {
  }

  lemma RunPrefix(es: seq<Event>, e: Event)
    ensures Run(es + [e]) == Step(Run(es), e)
  {
    assert (es + [e])[..|es|] == es;
  }

  // ----- No session is forgotten -----

  /** Nothing gets lost at this step: no work meets a full queue, no connection
      fails or breaks, and a reply does something. */
  predicate Smooth(n: Net, e: Event) {
    match e
    case Add => |n.works| < 8
    case RunConnect(outcome) => !outcome.Unreachable?
    case Reply(reply) =>
      n.attached.Some? ==> !reply.Ignored? && (reply == Again || reply == Finished(true) ==> |n.works| < 8)
    case Broken => false
    case _ => true
  }

  predicate SmoothRun(es: seq<Event>) {
    forall k :: 0 <= k < |es| ==> Smooth(Run(es[..k]), es[k])
  }

  /** Every session added is there until it is freed; a waiting one has exactly one
      start pending, and the attached one its start, a connect or a connection. */
  ghost predicate Kept(n: Net) {
    && (forall id :: 1 <= id <= n.last ==> id in n.live || id in n.freed)
    && (forall id :: id in n.live ==> id <= n.last)
    && (forall id: nat :: Start(id) in n.works ==> id <= n.last)
    && (forall id :: id in n.live && n.attached != Some(id) ==> n.works[Start(id)] == 1)
    && (n.attached.Some? ==> n.attached.value <= n.last)
    && (n.attached.Some? ==> Start(n.attached.value) in n.works || Connect in n.works || n.connected)
    && |n.works| <= 8
  }

  lemma AddedKept(n: Net)
    requires Kept(n) && |n.works| < 8
    ensures Kept(Added(n)) && Added(n).attached == n.attached && Added(n).connected == n.connected
  {
    var id := n.last + 1;
    assert Start(id) !in n.works;
  }

  lemma StartedKept(n: Net, id: nat)
    requires Kept(n) && Start(id) in n.works
    ensures Kept(Started(Take(n, Start(id)), id))
  {
    var t := Take(n, Start(id));
    assert |t.works| == |n.works| - 1;
    assert forall other: nat :: other != id ==> t.works[Start(other)] == n.works[Start(other)];
  }

  lemma ConnectedKept(n: Net, outcome: Connecting)
    requires Kept(n) && Connect in n.works && !outcome.Unreachable?
    ensures Kept(Connected(Take(n, Connect), outcome))
  {
    var t := Take(n, Connect);
    assert |t.works| == |n.works| - 1;
    assert forall other: nat :: t.works[Start(other)] == n.works[Start(other)];
  }

  lemma FreedKept(n: Net)
    requires Kept(n.(connected := true)) && n.attached.Some?
    ensures Kept(Freed(n))
  {
  }

  lemma AnsweredKept(n: Net, reply: Replied)
    requires Kept(n) && n.connected && Smooth(n, Reply(reply))
    ensures Kept(Answered(n, reply))
  {
    var down := n.(connected := false);
    if n.attached.Some? {
      match reply
      case Again =>
        assert forall other: nat :: other != n.attached.value ==>
            Schedule(down, Start(n.attached.value)).works[Start(other)] == n.works[Start(other)];
      case Rejected => FreedKept(down);
      case Finished(adds) =>
        if adds {
          AddedKept(n);
          assert Added(down) == Added(n).(connected := false);
          FreedKept(Added(down));
        } else {
          FreedKept(down);
        }
    }
  }

  lemma StepKept(n: Net, e: Event)
    requires Kept(n) && Smooth(n, e)
    ensures Kept(Step(n, e))
  {
    if Enabled(n, e) {
      match e
      case Add => AddedKept(n);
      case AddOther =>
      case RunStart(id) => StartedKept(n, id);
      case RunConnect(outcome) => ConnectedKept(n, outcome);
      case RunOther => assert forall id: nat :: Take(n, Other).works[Start(id)] == n.works[Start(id)];
      case Reply(reply) => AnsweredKept(n, reply);
    }
  }

  /** Over every run in which nothing gets lost, safe or not, no session is forgotten:
      each waits with exactly one start, or is attached and driven, or was freed. */
  lemma {:induction false} SmoothKept(es: seq<Event>)
    requires SmoothRun(es)
    ensures Kept(Run(es))
  {
    if es != [] {
      var before := es[..|es| - 1];
      assert forall k :: 0 <= k < |before| ==> before[..k] == es[..k];
      SmoothKept(before);
      StepKept(Run(before), es[|es| - 1]);
    }
  }

  /** And no request fails. */
  predicate Faultless(n: Net, e: Event) {
    && Smooth(n, e) && Asked(n, e)
    && (e.RunConnect? ==> e.outcome == Sent)
  }

  predicate FaultlessRun(es: seq<Event>) {
    forall k :: 0 <= k < |es| ==> Faultless(Run(es[..k]), es[k])
  }

  function Drivers(n: Net, a: nat): nat {
    n.works[Start(a)] + n.works[Connect] + if n.connected then 1 else 0
  }

  /** The attached session has exactly one driver, and a connection is a request that
      is out; a free channel has none. */
  ghost predicate Driven(n: Net) {
    && n.connected == n.awaiting && (forall id: nat :: Start(id) in n.works ==> id in n.live)
    && match n.attached {
         case None => Connect !in n.works && !n.connected
         case Some(a) => a in n.live && Drivers(n, a) == 1
       }
  }

  lemma StepDriven(n: Net, e: Event)
    requires Kept(n) && Driven(n) && Faultless(n, e)
    ensures Driven(Step(n, e))
  {
    if Enabled(n, e) {
      match e
      case Add => assert Start(n.last + 1) !in n.works;
      case AddOther =>
      case RunStart(id) => StartedDriven(n, id);
      case RunConnect(outcome) => ConnectedDriven(n);
      case RunOther =>
      case Reply(reply) => AnsweredDriven(n, reply);
    }
  }

  lemma ConnectedDriven(n: Net)
    requires Driven(n) && Connect in n.works
    ensures Driven(Connected(Take(n, Connect), Sent))
  {
  }

  lemma StartedDriven(n: Net, id: nat)
    requires Kept(n) && Driven(n) && Start(id) in n.works
    ensures Driven(Started(Take(n, Start(id)), id))
  {
    assert |Take(n, Start(id)).works| == |n.works| - 1;
    assert n.attached.None? ==> n.works[Start(id)] == 1;
  }

  lemma AnsweredDriven(n: Net, reply: Replied)
    requires Kept(n) && Driven(n) && n.connected && Faultless(n, Reply(reply))
    ensures Driven(Answered(n, reply))
  {
    if n.attached.Some? {
      assert Start(n.attached.value) !in n.works && Connect !in n.works;
      if reply == Finished(true) {
        var m := Added(n.(connected := false));
        assert Connect !in m.works && n.attached.value != m.last;
      }
    }
  }

  /** Over every run in which nothing gets lost, the server answers only requests and
      every request is sent, the attached session has exactly one driver at every
      moment. */
  lemma {:induction false} FaultlessDriven(es: seq<Event>)
    requires FaultlessRun(es)
    ensures Kept(Run(es)) && Driven(Run(es))
  {
    if es != [] {
      var before := es[..|es| - 1];
      assert forall k :: 0 <= k < |before| ==> before[..k] == es[..k];
      FaultlessDriven(before);
      StepKept(Run(before), es[|es| - 1]);
      StepDriven(Run(before), es[|es| - 1]);
    }
  }

  // ----- Sessions are accounted for -----

  /** The step reaches the attached session over the channel. */
  predicate Reaches(n: Net, e: Event) {
    e.Reply? && n.connected && n.attached.Some?
  }

  predicate Adds(n: Net, e: Event) {
    e == Add || (Reaches(n, e) && e.reply == Finished(true))
  }

  predicate Ends(n: Net, e: Event) {
    || (Reaches(n, e) && (e.reply.Finished? || e.reply.Rejected?))
    || (e == RunConnect(Refused) && Connect in n.works && !n.connected && n.attached.Some?)
  }

  function AddCount(es: seq<Event>): nat {
    if es == [] then 0
    else
      var k := |es| - 1;
      AddCount(es[..k]) + if Adds(Run(es[..k]), es[k]) then 1 else 0
  }

  function EndCount(es: seq<Event>): nat {
    if es == [] then 0
    else
      var k := |es| - 1;
      EndCount(es[..k]) + if Ends(Run(es[..k]), es[k]) then 1 else 0
  }

  /** The sessions ever added, alive or freed. */
  ghost predicate Registered(n: Net) {
    n.live !! n.freed && forall id :: id in n.live || id in n.freed <==> 1 <= id <= n.last
  }

  lemma StepRegistered(n: Net, e: Event)
    requires Registered(n) && (n.attached.Some? ==> n.attached.value in n.live)
    ensures var m := Step(n, e);
            && Registered(m) && m.last == n.last + (if Adds(n, e) then 1 else 0)
            && |m.freed| == |n.freed| + if Ends(n, e) then 1 else 0
  {
    hide Registered, Added, Started, Connected, Answered, Schedule;
    if Enabled(n, e) {
      WorkRegistered(n);
      match e
      case Add => AddedRegistered(n);
      case AddOther =>
      case RunStart(id) => StartedRegistered(Take(n, Start(id)), id);
      case RunConnect(outcome) => ConnectedRegistered(Take(n, Connect), outcome);
      case RunOther =>
      case Reply(reply) => AnsweredRegistered(n, reply);
      case Broken => BrokenRegistered(n);
    }
  }

  /** Works and the connection do not matter. */
  lemma WorkRegistered(n: Net)
    requires Registered(n)
    ensures forall w :: Registered(Take(n, w))
    ensures var m := Schedule(n, Other); Registered(m) && m.last == n.last && m.freed == n.freed
  {
  }

  lemma BrokenRegistered(n: Net)
    requires Registered(n)
    ensures Registered(n.(connected := false))
  {
  }

  lemma AddedRegistered(n: Net)
    requires Registered(n)
    ensures Registered(Added(n)) && Added(n).last == n.last + 1 && Added(n).freed == n.freed && n.live <= Added(n).live
    ensures Added(n).attached == n.attached
  {
    var m := Added(n);
    assert n.last + 1 !in n.freed;
    forall id ensures id in m.live || id in m.freed <==> 1 <= id <= m.last {
      assert id in m.live <==> id in n.live || id == n.last + 1;
    }
  }

  lemma FreedRegistered(n: Net)
    requires Registered(n) && n.attached.Some? && n.attached.value in n.live
    ensures Registered(Freed(n)) && Freed(n).last == n.last && |Freed(n).freed| == |n.freed| + 1
  {
    var a, m := n.attached.value, Freed(n);
    assert a !in n.freed;
    forall id ensures id in m.live || id in m.freed <==> 1 <= id <= m.last {
      assert id in m.live || id in m.freed <==> id in n.live || id in n.freed;
    }
  }

  lemma StartedRegistered(n: Net, id: nat)
    ensures Started(n, id).live == n.live && Started(n, id).freed == n.freed && Started(n, id).last == n.last
    ensures Registered(n) ==> Registered(Started(n, id))
  {
  }

  lemma ConnectedRegistered(n: Net, outcome: Connecting)
    requires Registered(n) && (n.attached.Some? ==> n.attached.value in n.live)
    ensures var m := Connected(n, outcome);
            && Registered(m) && m.last == n.last
            && |m.freed| == |n.freed| + if outcome.Refused? && !n.connected && n.attached.Some? then 1 else 0
  {
    var up := n.(connected := true);
    assert Registered(up) && Registered(up.(awaiting := true));
    if n.attached.Some? { FreedRegistered(up); }
    hide Registered, Freed;
  }

  lemma AnsweredRegistered(n: Net, reply: Replied)
    requires Registered(n) && (n.attached.Some? ==> n.attached.value in n.live)
    ensures var m := Answered(n, reply);
            && Registered(m) && m.last == n.last + (if n.attached.Some? && reply == Finished(true) then 1 else 0)
            && |m.freed| == |n.freed| + if n.attached.Some? && (reply.Finished? || reply.Rejected?) then 1 else 0
  {
    var down := n.(connected := false);
    assert Registered(down) && Registered(down.(awaiting := false));
    AddedRegistered(down);
    if n.attached.Some? {
      FreedRegistered(down);
      FreedRegistered(Added(down));
      AgainRegistered(down);
    }
    hide Registered, Freed, Added, Schedule;
  }

  lemma AgainRegistered(n: Net)
    requires Registered(n) && n.attached.Some?
    ensures var m := Schedule(n.(awaiting := false), Start(n.attached.value));
            Registered(m) && m.last == n.last && m.freed == n.freed
  {
  }

  /** In every run that is free of hazards the sessions alive and those freed are exactly
      those added, one for each Add and for each reply that asks for another, and one is
      freed for each reply that ends it and each connect it is refused. */
  lemma {:induction false} Accounted(es: seq<Event>)
    requires HazardFree(es)
    ensures var n := Run(es); Registered(n) && n.last == AddCount(es) && |n.freed| == EndCount(es)
  {
    if es != [] {
      var before := es[..|es| - 1];
      assert forall k :: 0 <= k < |before| ==> before[..k] == es[..k];
      Accounted(before);
      HazardFreeInv(before);
      StepRegistered(Run(before), es[|es| - 1]);
    }
  }

  // ----- The channel and the other works -----

  /** A connect that reaches the server opens the channel, and a reply or a break closes it,
      whatever the reply says. */
  predicate Up(es: seq<Event>) {
    es != [] &&
    var k := |es| - 1;
    match es[k]
    case RunConnect(outcome) => Up(es[..k]) || (!outcome.Unreachable? && Connect in Run(es[..k]).works)
    case Reply(_) => false
    case Broken => false
    case _ => Up(es[..k])
  }

  /** Works of other kinds that were put in and not yet run. */
  function Others(es: seq<Event>): int {
    if es == [] then 0
    else
      var k := |es| - 1;
      var n := Others(es[..k]);
      match es[k]
      case AddOther => if |Run(es[..k]).works| < 8 then n + 1 else n
      case RunOther => if n > 0 then n - 1 else n
      case _ => n
  }

  /** Over every run the channel is open exactly between a connect that reaches the server
      and the next reply or break, and works of other kinds are neither lost nor made. */
  lemma {:induction false} ChannelAndOthers(es: seq<Event>)
    ensures Run(es).connected == Up(es) && Run(es).works[Other] == Others(es)
  {
    if es != [] {
      var k := |es| - 1;
      ChannelAndOthers(es[..k]);
      StepChannel(Run(es[..k]), es[k]);
      hide Step;
    }
  }

  lemma StepChannel(n: Net, e: Event)
    ensures var m := Step(n, e);
            && m.connected == (match e
                               case RunConnect(outcome) => n.connected || (!outcome.Unreachable? && Connect in n.works)
                               case Reply(_) => false
                               case Broken => false
                               case _ => n.connected)
            && m.works[Other] == (match e
                                  case AddOther => n.works[Other] + if |n.works| < 8 then 1 else 0
                                  case RunOther => if n.works[Other] > 0 then n.works[Other] - 1 else 0
                                  case _ => n.works[Other])
  {
    hide Added, Started, Connected, Answered;
    if Enabled(n, e) {
      match e
      case Add => AddedChannel(n);
      case AddOther =>
      case RunStart(id) => StartedChannel(Take(n, Start(id)), id);
      case RunConnect(outcome) => ConnectedChannel(Take(n, Connect), outcome);
      case RunOther =>
      case Reply(reply) => AnsweredChannel(n, reply);
      case Broken =>
    }
  }

  lemma AddedChannel(n: Net)
    ensures Added(n).connected == n.connected && Added(n).works[Other] == n.works[Other] && Added(n).attached == n.attached
  {
  }

  lemma StartedChannel(n: Net, id: nat)
    ensures Started(n, id).connected == n.connected && Started(n, id).works[Other] == n.works[Other]
  {
  }

  lemma ConnectedChannel(n: Net, outcome: Connecting)
    ensures Connected(n, outcome).connected == (n.connected || !outcome.Unreachable?) && Connected(n, outcome).works == n.works
  {
  }

  lemma AnsweredChannel(n: Net, reply: Replied)
    ensures !Answered(n, reply).connected && Answered(n, reply).works[Other] == n.works[Other]
  {
    AddedChannel(n.(connected := false));
    hide Added;
  }

  // ----- One session at a time -----

  /** A step leaves the attached session in place or frees it. */
  lemma AttachedStep(n: Net, e: Event)
    ensures var m := Step(n, e);
            && n.freed <= m.freed
            && (n.attached.Some? && m.attached != n.attached ==> n.attached.value in m.freed && m.attached.None?)
  {
  }

  /** In every run, safe or not, a session once attached holds the channel until it
      is freed: at any later moment it is still the attached one, or freed. */
  lemma {:induction false} AttachedUntilFreed(es: seq<Event>, j: nat, k: nat, a: nat)
    requires j <= k <= |es| && Run(es[..j]).attached == Some(a)
    ensures Run(es[..k]).attached == Some(a) || a in Run(es[..k]).freed
    decreases k - j
  {
    hide Run, Step;
    if j < k {
      AttachedUntilFreed(es, j, k - 1, a);
      OnePrefix(es, k - 1);
      AttachedStep(Run(es[..k - 1]), es[k - 1]);
    }
  }

  lemma OnePrefix(es: seq<Event>, k: nat)
    requires k < |es|
    ensures Run(es[..k + 1]) == Step(Run(es[..k]), es[k])
  {
    assert es[..k + 1] == es[..k] + [es[k]];
    RunPrefix(es[..k], es[k]);
    hide Step;
  }

  /** In every run, a step that attaches a session finds the channel empty. */
  lemma AttachOnlyWhenFree(es: seq<Event>, k: nat)
    requires k < |es|
    ensures var n, m := Run(es[..k]), Run(es[..k + 1]);
            m.attached.Some? && m.attached != n.attached ==> n.attached.None?
  {
    hide Run, Step;
    OnePrefix(es, k);
    AttachedStep(Run(es[..k]), es[k]);
  }

  // ----- The context as an object -----

  /** Scheduling and closing the connection commute. */
  lemma AddedDown(n: Net)
    ensures Added(n).(connected := false) == Added(n.(connected := false)) && Added(n).attached == n.attached
    ensures n.attached.Some? ==>
              var w := Start(n.attached.value);
              Schedule(n.(awaiting := false), w).(connected := false) == Schedule(n.(connected := false, awaiting := false), w)
  {
  }

  /** struct _mtk_context with its data channel, updated in place. */
  class Context {
    var works: multiset<Work>
    var attached: Option<nat>
    var connected: bool
    var awaiting: bool
    var last: nat
    ghost var live: set<nat>
    ghost var freed: set<nat>

    ghost function View(): Net
      reads this
    {
      Net(works, live, freed, attached, connected, awaiting, last)
    }

    constructor ()
      ensures View() == START
    {
      works, attached, connected, awaiting, last := multiset{}, None, false, false, 0;
      live, freed := {}, {};
    }

    method Insert(w: Work)
      modifies this
      ensures View() == Schedule(old(View()), w)
    {
      if |works| < WORKS_CAPACITY { works := works + multiset{w}; }
    }

    method SessionAdd()
      modifies this
      ensures View() == Added(old(View()))
    {
      hide Schedule;
      last := last + 1;
      live := live + {last};
      Insert(Start(last));
    }

    method SessionFree()
      requires attached.Some?
      modifies this
      ensures View() == Freed(old(View()))
    {
      live, freed := live - {attached.value}, freed + {attached.value};
      attached, awaiting := None, false;
    }

    method SessionStart(id: nat)
      modifies this
      ensures View() == Started(old(View()), id)
    {
      hide Schedule;
      if attached == Some(id) {
        Insert(Connect);
      } else if attached.Some? {
        Insert(Start(id));
      } else {
        attached, awaiting := Some(id), false;
        Insert(Connect);
      }
    }

    method DcConnect(outcome: Connecting)
      modifies this
      ensures View() == Connected(old(View()), outcome)
    {
      if connected || outcome.Unreachable? { return; }
      if attached.Some? {
        match outcome {
          case Sent => awaiting := true;
          case Refused => SessionFree();
          case _ =>
        }
      }
      connected := true;
    }

    /** mtk_service_work: takes a pending work and handles it. */
    method ServiceWork(w: Work, outcome: Connecting)
      requires w in works
      modifies this
      ensures View() == Step(old(View()), match w case Start(id) => RunStart(id) case Connect => RunConnect(outcome) case Other => RunOther)
    {
      hide Started, Connected;
      works := works - multiset{w};
      match w {
        case Start(id) => SessionStart(id);
        case Connect => DcConnect(outcome);
        case Other =>
      }
    }

    /** mtk_connect_release; `finished` is whether the session reached its end. */
    method Release(finished: bool)
      modifies this
      ensures View() == (var down := old(View()).(connected := false); if finished && down.attached.Some? then Freed(down) else down)
    {
      connected := false;
      if finished && attached.Some? { SessionFree(); }
    }

    /** A reply on the data channel: dc_response_recv, then the release. */
    method Receive(reply: Replied)
      requires connected
      modifies this
      ensures View() == Step(old(View()), Reply(reply))
    {
      AddedDown(View());
      hide Added, Schedule;
      var finished := false;
      if attached.Some? {
        match reply {
          case Ignored =>
          case Again =>
            awaiting := false;
            Insert(Start(attached.value));
          case Finished(adds) =>
            if adds { SessionAdd(); }
            finished := true;
          case Rejected => SessionFree();
        }
      }
      Release(finished);
    }
  }
}
