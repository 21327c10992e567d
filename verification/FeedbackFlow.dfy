/** The feedback flow of application/benchmark/bk_fbkflow.c: a five-state machine
    that accepts a set, an exposure and a frame event, one per run. */
module FeedbackFlow {

  datatype FlowState = Init | Idle | Set | Expo | Frame
  datatype FlowEvent = SetEvent | ExpoEvent | FrameEvent

  /** The fields of struct _bk_feedback_flow; the event word as one flag a bit. */
  datatype Flow = Flow(state: FlowState, enabled: bool, setUp: bool, expo: bool, frame: bool)

  function Quiet(f: Flow): Flow {
    f.(setUp := false, expo := false, frame := false)
  }

  function Notified(f: Flow, e: FlowEvent): Flow {
    if !f.enabled then f
    else match e
      case SetEvent => f.(setUp := true)
      case ExpoEvent => f.(expo := true)
      case FrameEvent => f.(frame := true)
  }

  const DISABLED := Flow(Init, false, false, false, false)

  function Enable(f: Flow, on: bool): Flow {
    if on then f.(enabled := true) else DISABLED
  }

  /** fbkflow_wait: the next state, and whether an update is due.  All events are
      dropped, whether they moved the state or not. */
  function Waited(f: Flow): (Flow, bool) {
    match f.state
    case Init => (Quiet(f.(state := Idle)), true)
    case Idle => (Quiet(if f.setUp then f.(state := Set) else f), false)
    case Set => (Quiet(if f.expo then f.(state := Expo) else f), false)
    case Expo => (Quiet(if f.frame then f.(state := Frame) else f), false)
    case Frame => (Quiet(f.(state := Idle)), true)
  }

  /** The object itself, updated in place. */
  class FeedbackFlow {
    var state: FlowState
    var enabled: bool
    var setUp: bool
    var expo: bool
    var frame: bool

    ghost function View(): Flow
      reads this
    {
      Flow(state, enabled, setUp, expo, frame)
    }

    constructor (enable: bool)
      ensures View() == Enable(DISABLED, enable)
    {
      state, enabled, setUp, expo, frame := Init, enable, false, false, false;
    }

    method Wait() returns (valid: bool)
      modifies this
      ensures (View(), valid) == Waited(old(View()))
    {
      valid := false;
      match state {
        case Init => valid := true; state := Idle;
        case Idle => if setUp { state := Set; }
        case Set => if expo { state := Expo; }
        case Expo => if frame { state := Frame; }
        case Frame => valid := true; state := Idle;
      }
      setUp, expo, frame := false, false, false;
    }

    /** bk_fbkflow_run, with the update callback left to the caller. */
    method Run() returns (update: bool)
      modifies this
      ensures if old(enabled) then (View(), update) == Waited(old(View())) else View() == old(View()) && !update
    {
      if !enabled { return false; }
      update := Wait();
    }

    method SetEnable(on: bool)
      modifies this
      ensures View() == Enable(old(View()), on)
    {
      if !on {
        setUp, expo, frame, state, enabled := false, false, false, Init, false;
      } else {
        enabled := true;
      }
    }

    method Notify(e: FlowEvent)
      modifies this
      ensures View() == Notified(old(View()), e)
    {
      if enabled {
        match e {
          case SetEvent => setUp := true;
          case ExpoEvent => expo := true;
          case FrameEvent => frame := true;
        }
      }
    }
  }

  // ----- No update without a set, an exposure and a frame, in that order -----

  /** One call of bk_fbkflow_run preceded by these notifications. */
  datatype Round = Round(setUp: bool, expo: bool, frame: bool)

  function Step(f: Flow, r: Round): (Flow, bool)
    requires f.enabled
  {
    var f1 := if r.setUp then Notified(f, SetEvent) else f;
    var f2 := if r.expo then Notified(f1, ExpoEvent) else f1;
    Waited(if r.frame then Notified(f2, FrameEvent) else f2)
  }

  function RunFlow(f: Flow, rounds: seq<Round>): (r: Flow)
    requires f.enabled
    ensures r.enabled
  {
    if rounds == [] then f else Step(RunFlow(f, rounds[..|rounds| - 1]), rounds[|rounds| - 1]).0
  }

  /** Idle, enabled, all events dropped: the flow after every update. */
  const AT_REST := Flow(Idle, true, false, false, false)

  /** Some round brought a set event. */
  ghost predicate HasSet(rounds: seq<Round>) {
    exists a :: 0 <= a < |rounds| && rounds[a].setUp
  }

  /** Some round brought an exposure, and a strictly earlier one a set event. */
  ghost predicate HasExpo(rounds: seq<Round>) {
    exists b :: 0 <= b < |rounds| && rounds[b].expo && HasSet(rounds[..b])
  }

  /** Some round brought a frame after such an exposure. */
  ghost predicate HasFrame(rounds: seq<Round>) {
    exists c :: 0 <= c < |rounds| && rounds[c].frame && HasExpo(rounds[..c])
  }

  /** No round has led to an update. */
  ghost predicate Silent(rounds: seq<Round>) {
    forall n :: 0 <= n < |rounds| ==> !Step(RunFlow(AT_REST, rounds[..n]), rounds[n]).1
  }

  /** The state of the flow is exactly how much of the chain has been seen. */
  ghost predicate Progress(f: Flow, rounds: seq<Round>) {
    && Quiet(f) == f && f.state != Init
    && (f.state == Idle <==> !HasSet(rounds))
    && (f.state == Set <==> HasSet(rounds) && !HasExpo(rounds))
    && (f.state == Expo <==> HasExpo(rounds) && !HasFrame(rounds))
    && (f.state == Frame <==> HasFrame(rounds))
  }

  /** How the chain grows by one round. */
  lemma SetGrows(rounds: seq<Round>)
    requires rounds != []
    ensures var n := |rounds| - 1; HasSet(rounds) <==> HasSet(rounds[..n]) || rounds[n].setUp
  {
    var n := |rounds| - 1;
    if HasSet(rounds[..n]) {
      var a :| 0 <= a < n && rounds[..n][a].setUp;
      assert rounds[a].setUp;
    }
    if HasSet(rounds) && !rounds[n].setUp {
      var a :| 0 <= a < |rounds| && rounds[a].setUp;
      assert rounds[..n][a].setUp;
    }
  }

  lemma ExpoGrows(rounds: seq<Round>)
    requires rounds != []
    ensures var n := |rounds| - 1; HasExpo(rounds) <==> HasExpo(rounds[..n]) || (HasSet(rounds[..n]) && rounds[n].expo)
  {
    hide HasSet;
    var n := |rounds| - 1;
    if HasExpo(rounds[..n]) {
      var b :| 0 <= b < n && rounds[..n][b].expo && HasSet(rounds[..n][..b]);
      assert rounds[..n][..b] == rounds[..b] && rounds[b].expo;
    }
    if HasExpo(rounds) {
      var b :| 0 <= b < |rounds| && rounds[b].expo && HasSet(rounds[..b]);
      if b < n { assert rounds[..n][..b] == rounds[..b] && rounds[..n][b].expo; }
    }
  }

  lemma FrameGrows(rounds: seq<Round>)
    requires rounds != []
    ensures var n := |rounds| - 1; HasFrame(rounds) <==> HasFrame(rounds[..n]) || (HasExpo(rounds[..n]) && rounds[n].frame)
  {
    hide HasExpo;
    var n := |rounds| - 1;
    if HasFrame(rounds[..n]) {
      var c :| 0 <= c < n && rounds[..n][c].frame && HasExpo(rounds[..n][..c]);
      assert rounds[..n][..c] == rounds[..c] && rounds[c].frame;
    }
    if HasFrame(rounds) {
      var c :| 0 <= c < |rounds| && rounds[c].frame && HasExpo(rounds[..c]);
      if c < n { assert rounds[..n][..c] == rounds[..c] && rounds[..n][c].frame; }
    }
  }

  lemma {:induction false} RunProgress(rounds: seq<Round>)
    requires Silent(rounds)
    ensures Progress(RunFlow(AT_REST, rounds), rounds)
  {
    if rounds != [] {
      var n := |rounds| - 1;
      var before := rounds[..n];
      forall k | 0 <= k < |before|
        ensures !Step(RunFlow(AT_REST, before[..k]), before[k]).1
      {
        assert before[..k] == rounds[..k];
      }
      hide HasSet, HasExpo, HasFrame;
      RunProgress(before);
      SetGrows(rounds);
      ExpoGrows(rounds);
      FrameGrows(rounds);
      Nested(before);
    } else {
      Nested(rounds);
    }
  }

  lemma {:induction false} Nested(rounds: seq<Round>)
    ensures HasFrame(rounds) ==> HasExpo(rounds)
    ensures HasExpo(rounds) ==> HasSet(rounds)
  {
    if rounds != [] {
      var n := |rounds| - 1;
      SetGrows(rounds);
      ExpoGrows(rounds);
      FrameGrows(rounds);
      Nested(rounds[..n]);
    }
  }

  /** Whatever events arrive after the flow came to rest, the first update is due
      exactly one round after the rounds so far hold a set event, a strictly later
      exposure and a strictly later frame: stale events never advance the flow,
      and none of the three is lost. */
  lemma UpdateExactlyAfterChain(rounds: seq<Round>, last: Round)
    requires Silent(rounds)
    ensures Step(RunFlow(AT_REST, rounds), last).1 <==> HasFrame(rounds)
    ensures HasFrame(rounds) ==> Step(RunFlow(AT_REST, rounds), last).0 == AT_REST
  {
    RunProgress(rounds);
  }

  // ----- Disabled flows -----

  function NotifiedAll(f: Flow, es: seq<FlowEvent>): Flow {
    if es == [] then f else Notified(NotifiedAll(f, es[..|es| - 1]), es[|es| - 1])
  }

  /** Whatever a flow had seen before it was disabled and whatever arrives until it is
      enabled again: it begins anew, and its first run calls for an update at once. */
  lemma {:induction false} BeginsAnew(f: Flow, es: seq<FlowEvent>, r: Round)
    ensures var g := Enable(NotifiedAll(Enable(f, false), es), true);
            g == Flow(Init, true, false, false, false) && Step(g, r) == (AT_REST, true)
  {
    if es != [] { BeginsAnew(f, es[..|es| - 1], r); }
  }
}
