/** Every fair run of the autofocus benchmark ends, if the samples show a stop. */
module AutofocusLiveness {
  import opened FeedbackFlow
  import opened Autofocus

  // ----- Unending schedules -----

  /** Which thread does the next access, for ever. */
  type Schedule = nat -> Actor

  function Prefix(turn: Schedule, i: nat): seq<Actor> {
    seq(i, k requires 0 <= k < i => turn(k))
  }

  function Moment(turn: Schedule, i: nat, data: nat -> int): Sys {
    Run(Prefix(turn, i), data)
  }

  ghost predicate Later(turn: Schedule, i: nat, a: Actor) {
    exists j: nat :: i <= j && turn(j) == a
  }

  /** No thread is left out for ever. */
  ghost predicate Fair(turn: Schedule) {
    forall i: nat, a: Actor :: a != Starter ==> Later(turn, i, a)
  }

  lemma MomentStep(turn: Schedule, i: nat, data: nat -> int)
    ensures Moment(turn, i + 1, data) == Act(Moment(turn, i, data), turn(i), data)
  {
    assert Prefix(turn, i + 1)[..i] == Prefix(turn, i);
  }

  // ----- A signalled step is answered -----

  predicate Answering(s: Sys) {
    s.c.af == Stepping && s.f.evStep && !s.f.stepRsp ==> s.motor == CmdRespond
  }

  lemma ActAnswers(s: Sys, a: Actor, data: nat -> int)
    requires Inv(s, data) && Answering(s)
    ensures Answering(Act(s, a, data))
  {
    hide Inv, MainStep, MotorStep;
    WhileStepping(s, data);
    match a
    case Main => MainAnswers(Tick(s), data);
    case Motor => MotorAnswers(Tick(s));
    case Fpga =>
    case Starter =>
  }

  lemma WhileStepping(s: Sys, data: nat -> int)
    requires Inv(s, data)
    ensures (s.main.InitClearEvent? ==> !s.f.evStep) && (s.c.af == Stepping ==> !s.main.FinZeroCmd?)
  {
    hide Peak, InPhase, Focused, Timely, StepFlags;
  }

  lemma MotorAnswers(s: Sys)
    requires Answering(s)
    ensures Answering(MotorStep(s))
  {
    match s.motor
    case CmdSignal => assert MotorStep(s).motor == CmdRespond;
    case CmdRespond => assert MotorStep(s).f.stepRsp;
    case _ => assert MotorStep(s).f.evStep == s.f.evStep && MotorStep(s).f.stepRsp == s.f.stepRsp && MotorStep(s).c == s.c;
    hide MotorStep;
  }

  lemma MainAnswers(s: Sys, data: nat -> int)
    requires Answering(s) && (s.main.InitClearEvent? ==> !s.f.evStep) && (s.c.af == Stepping ==> !s.main.FinZeroCmd?)
    ensures Answering(MainStep(s, data))
  {
    var t := MainStep(s, data);
    if s.main.InitClearEvent? {
      assert t.f.evStep == s.f.evStep;
    } else if s.main.FinZeroCmd? || s.main.FinZeroEvents? {
      assert t.c.af != Stepping;
    } else {
      OtherAnswers(s, data);
    }
    hide MainStep;
  }

  lemma OtherAnswers(s: Sys, data: nat -> int)
    requires !s.main.InitClearEvent? && !s.main.FinZeroCmd? && !s.main.FinZeroEvents?
    ensures var t := MainStep(s, data);
            (t.f.evStep ==> s.f.evStep) && t.f.stepRsp == s.f.stepRsp && t.motor == s.motor && (t.c.af == Stepping ==> s.c.af == Stepping)
  {
    if s.main.RunFlowPc? { RunFlags(s, data); }
    hide RunStep;
  }

  lemma RunFlags(s: Sys, data: nat -> int)
    ensures var t := RunStep(s, data);
            t.f.evStep == s.f.evStep && t.f.stepRsp == s.f.stepRsp && t.motor == s.motor && (t.c.af == Stepping ==> s.c.af == Stepping)
  {
  }

  lemma {:induction false} RunAnswers(acts: seq<Actor>, data: nat -> int)
    requires forall i :: data(i) >= 0
    ensures Inv(Run(acts, data), data) && Answering(Run(acts, data))
  {
    hide Inv, Act;
    RunInv(acts, data);
    if acts != [] {
      var front := acts[..|acts| - 1];
      RunAnswers(front, data);
      ActAnswers(Run(front, data), acts[|acts| - 1], data);
    }
  }

  // ----- How far it is to the end -----

  /** Motor accesses until a positioning command is answered. */
  function PosDistance(f: Flags, m: MotorPc): (n: nat)
    ensures n <= 6
  {
    if f.cmdPos then
      match m
      case CmdRespond => 6
      case CmdTest => 5
      case PosTest => 4
      case PosClear => 3
      case _ => 0
    else if m == PosSignal then 2 else if m == PosRespond then 1 else 0
  }

  /** Motor accesses until a step command is answered. */
  function StepDistance(f: Flags, m: MotorPc): (n: nat)
    ensures n <= 6
  {
    if f.cmdStep then
      match m
      case CmdRespond => 6
      case PosTest => 5
      case CmdTest => 4
      case CmdClear => 3
      case _ => 0
    else if m == CmdSignal then 2 else if m == CmdRespond && !f.stepRsp then 1 else 0
  }

  /** The order of the main thread's accesses in one pass of the STEP case. */
  function Place(pc: MainPc): (n: nat)
    ensures n <= 8
  {
    match pc
    case StepTestRsp => 1
    case StepTestEvent => 2
    case StepClearEvent => 3
    case ExpoTest => 4
    case ExpoClear => 5
    case FrameTest => 6
    case FrameClear => 7
    case RunFlowPc => 8
    case _ => 0
  }

  /** Accesses to a place, in this pass or the next. */
  function Ahead(pc: MainPc, place: nat): (n: nat)
    requires place <= 8
    ensures n <= 8
  {
    if Place(pc) <= place then place - Place(pc) else 9 + place - Place(pc)
  }

  /** Main accesses to the end of the INIT_POS and FIN_POS cases. */
  function Closing(pc: MainPc): (n: nat)
    ensures n <= 8
  {
    match pc
    case Outer => 7
    case FinTestRsp => 6
    case FinTestEvent => 5
    case FinClearRsp => 4
    case FinClearEvent => 3
    case FinZeroCmd => 2
    case FinZeroEvents => 1
    case InitTestRsp => 6
    case InitTestEvent => 5
    case InitClearRsp => 4
    case InitClearEvent => 3
    case _ => 0
  }

  function FpgaDistance(pc: FpgaPc, wanted: FpgaPc): nat {
    if pc == wanted then 1 else 2
  }

  /** What the run waits for: the thread whose turn brings it on, the stage, and the
      accesses left in the stage. */
  datatype Awaited = Awaited(who: Actor, stage: nat, left: nat)

  function AwaitsPosition(s: Sys): Awaited {
    var d := PosDistance(s.f, s.motor);
    if d > 0 then Awaited(Motor, 1, d) else Awaited(Main, 0, Closing(s.main))
  }

  function AwaitsStep(s: Sys): Awaited {
    var flow, d := s.c.flow, StepDistance(s.f, s.motor);
    match flow.state
    case Idle =>
      if flow.setUp then Awaited(Main, 7, Ahead(s.main, 8))
      else if d > 0 then Awaited(Motor, 9, d)
      else Awaited(Main, 8, Ahead(s.main, 3))
    case Set =>
      if flow.expo then Awaited(Main, 4, Ahead(s.main, 8))
      else if s.f.evExpo then Awaited(Main, 5, Ahead(s.main, 5))
      else Awaited(Fpga, 6, FpgaDistance(s.fpga, RaiseExpo))
    case Expo =>
      if flow.frame then Awaited(Main, 1, Ahead(s.main, 8))
      else if s.f.evFrame then Awaited(Main, 2, Ahead(s.main, 7))
      else Awaited(Fpga, 3, FpgaDistance(s.fpga, RaiseFrame))
    case _ => Awaited(Main, 0, Ahead(s.main, 8))
  }

  function Awaits(s: Sys): (w: Awaited)
    ensures w.left <= 8 && w.stage <= 9
  {
    if s.c.af == Stepping then AwaitsStep(s) else AwaitsPosition(s)
  }

  /** Rounds left: one for every sample still to be read, and one on either side. */
  function Rounds(c: Core, n: nat): int {
    match c.af
    case InitPos => n + 1
    case Stepping => n - c.count
    case _ => 0
  }

  /** The distance to the end of the run when the samples stop after `n`. */
  function Rank(s: Sys, n: nat): int {
    var w := Awaits(s);
    Rounds(s.c, n) * 100 + w.stage * 10 + w.left
  }

  /** From `s` to `t`: the run came closer to its end, or still waits for the same
      thread, which has not moved. */
  predicate Closer(s: Sys, a: Actor, t: Sys, n: nat) {
    || (0 <= Rank(t, n) < Rank(s, n))
    || (Rank(t, n) == Rank(s, n) && Awaits(t).who == Awaits(s).who && a != Awaits(s).who)
  }

  // ----- Every access keeps the distance or shortens it -----

  /** One round: a shorter wait is a shorter distance. */
  predicate Shorter(v: Awaited, a: Actor, w: Awaited) {
    || w.stage < v.stage
    || (w.stage == v.stage && w.left < v.left)
    || (w == v && a != v.who)
  }

  lemma ShorterCloser(s: Sys, a: Actor, t: Sys, n: nat)
    requires s.c.af == t.c.af && s.c.count == t.c.count && Rounds(s.c, n) >= 0
    requires Shorter(Awaits(s), a, Awaits(t))
    ensures Closer(s, a, t, n)
  {
    hide Awaits;
  }

  /** Positioning, at the beginning and at the end. */
  lemma PositionCloser(s: Sys, a: Actor, data: nat -> int)
    requires Inv(s, data) && (s.c.af == InitPos || s.c.af == FinPos)
    ensures var t := Act(s, a, data);
            t.c.af == s.c.af ==> t.c.count == s.c.count && Shorter(AwaitsPosition(s), a, AwaitsPosition(t))
  {
    var u := Tick(s);
    TickKeeps(s, data);
    TickAwaits(s);
    match a
    case Main => MainPosition(u, data);
    case Motor => MotorPosition(u, data);
    case Fpga => assert AwaitsPosition(FpgaStep(u)) == AwaitsPosition(u) && AwaitsPosition(u).who != Fpga;
    case Starter => assert AwaitsPosition(u).who != Starter;
    hide Inv, MainStep, MotorStep, FpgaStep, AwaitsPosition;
  }

  lemma TickAwaits(s: Sys)
    ensures AwaitsPosition(Tick(s)) == AwaitsPosition(s)
    ensures AwaitsStep(Tick(s)) == AwaitsStep(s)
  {
  }

  lemma MainPosition(s: Sys, data: nat -> int)
    requires Inv(s, data) && (s.c.af == InitPos || s.c.af == FinPos)
    ensures var t := MainStep(s, data);
            t.c.af == s.c.af ==> t.c.count == s.c.count && Shorter(AwaitsPosition(s), Main, AwaitsPosition(t))
  {
    if s.c.af == InitPos { InitPosition(s, data); } else { FinPosition(s, data); }
    hide MainStep, AwaitsPosition;
  }

  lemma InitPosition(s: Sys, data: nat -> int)
    requires InitPosInv(s)
    ensures var t := MainStep(s, data);
            t.c.af == InitPos ==> t.c.count == s.c.count && Shorter(AwaitsPosition(s), Main, AwaitsPosition(t))
  {
  }

  lemma FinPosition(s: Sys, data: nat -> int)
    requires FinPosInv(s, data)
    ensures var t := MainStep(s, data);
            t.c.af == FinPos ==> t.c.count == s.c.count && Shorter(AwaitsPosition(s), Main, AwaitsPosition(t))
  {
    hide Focused;
  }

  lemma MotorPosition(s: Sys, data: nat -> int)
    requires Inv(s, data) && (s.c.af == InitPos || s.c.af == FinPos)
    ensures var t := MotorStep(s); t.c == s.c && Shorter(AwaitsPosition(s), Motor, AwaitsPosition(t))
  {
    hide Focused;
    match s.c.af
    case InitPos =>
    case FinPos =>
  }

  lemma FinalAct(s: Sys, a: Actor, data: nat -> int)
    requires FinPosInv(s, data) && Act(s, a, data).c.af != FinPos
    ensures Act(s, a, data).c.af == Stopped
  {
    hide Focused;
  }

  lemma FirstStep(s: Sys, a: Actor, data: nat -> int, n: nat)
    requires InitPosInv(s) && Act(s, a, data).c.af != InitPos
    ensures var t := Act(s, a, data); t.c.af == Stepping && Closer(s, a, t, n)
  {
  }

  /** The motor, the FPGA and the start command while the run steps. */
  lemma OthersCloser(s: Sys, a: Actor, data: nat -> int)
    requires SteppingInv(s, data) && Answering(s) && a != Main
    ensures var t := Act(s, a, data);
            t.c.af == Stepping && t.c.count == s.c.count && Shorter(AwaitsStep(s), a, AwaitsStep(t))
  {
    var u := Tick(s);
    TickAwaits(s);
    match a
    case Motor => MotorCloser(u);
    case Fpga => FpgaCloser(u);
    case Starter => assert AwaitsStep(u).who != Starter;
    hide MotorStep, FpgaStep, AwaitsStep;
  }

  lemma MotorCloser(s: Sys)
    requires StepFlags(s.c.flow, s.f, s.main, s.motor) && PosQuiet(s.f) && Answering(s) && s.c.af == Stepping
    ensures MotorStep(s).c == s.c && Shorter(AwaitsStep(s), Motor, AwaitsStep(MotorStep(s)))
  {
    hide Place;
    if s.c.flow.state == Idle && !s.c.flow.setUp { MotorShorter(s); }
  }

  lemma FpgaCloser(s: Sys)
    ensures FpgaStep(s).c == s.c && Shorter(AwaitsStep(s), Fpga, AwaitsStep(FpgaStep(s)))
  {
    hide Place;
  }

  lemma MotorShorter(s: Sys)
    requires StepPending(s.f, s.motor) && PosQuiet(s.f) && (s.f.evStep && !s.f.stepRsp ==> s.motor == CmdRespond)
    ensures var d, e := StepDistance(s.f, s.motor), StepDistance(MotorStep(s).f, MotorStep(s).motor);
            e < d || (d == 0 && e == 0)
  {
  }

  /** The main thread inside a pass: up to the step, and behind it. */
  lemma EarlyCloser(s: Sys, data: nat -> int)
    requires SteppingInv(s, data) && Answering(s)
    requires s.main.Outer? || s.main.StepTestRsp? || s.main.StepTestEvent? || s.main.StepClearEvent?
    ensures var t := MainStep(s, data);
            t.c.af == Stepping && t.c.count == s.c.count && Shorter(AwaitsStep(s), Main, AwaitsStep(t))
  {
    hide Peak, InPhase;
  }

  lemma ExpoCloser(s: Sys, data: nat -> int)
    requires SteppingInv(s, data) && (s.main.ExpoTest? || s.main.ExpoClear?)
    ensures var t := MainStep(s, data);
            t.c.af == Stepping && t.c.count == s.c.count && Shorter(AwaitsStep(s), Main, AwaitsStep(t))
  {
    hide Peak, InPhase, StepPending, StepQuiet;
  }

  lemma FrameCloser(s: Sys, data: nat -> int)
    requires SteppingInv(s, data) && (s.main.FrameTest? || s.main.FrameClear?)
    ensures var t := MainStep(s, data);
            t.c.af == Stepping && t.c.count == s.c.count && Shorter(AwaitsStep(s), Main, AwaitsStep(t))
  {
    hide Peak, InPhase, StepPending, StepQuiet;
  }

  lemma PassCloser(s: Sys, data: nat -> int)
    requires SteppingInv(s, data) && Answering(s) && s.main != RunFlowPc
    ensures var t := Act(s, Main, data);
            t.c.af == Stepping && t.c.count == s.c.count && Shorter(AwaitsStep(s), Main, AwaitsStep(t))
  {
    var u := Tick(s);
    TickKeeps(s, data);
    TickAwaits(s);
    if s.main.Outer? || s.main.StepTestRsp? || s.main.StepTestEvent? || s.main.StepClearEvent? {
      EarlyCloser(u, data);
    } else if s.main.ExpoTest? || s.main.ExpoClear? {
      ExpoCloser(u, data);
    } else {
      FrameCloser(u, data);
    }
    hide MainStep, AwaitsStep;
  }

  /** The main thread at the end of a pass: no update, or one more sample. */
  lemma FlowWaits(s: Sys, data: nat -> int)
    requires SteppingInv(s, data) && s.main == RunFlowPc && s.c.flow.state !in {Init, Frame}
    ensures var t := MainStep(s, data);
            t.c.af == Stepping && t.c.count == s.c.count && Shorter(AwaitsStep(s), Main, AwaitsStep(t))
  {
    hide Peak, InPhase, StepPending, StepQuiet, StepDistance;
  }

  lemma FlowUpdates(s: Sys, data: nat -> int, n: nat)
    requires SteppingInv(s, data) && s.main == RunFlowPc && s.c.flow.state in {Init, Frame} && s.c.count < n
    ensures var t := MainStep(s, data); t.c.af != Stopped && 0 <= Rounds(t.c, n) < Rounds(s.c, n)
  {
    hide Peak, InPhase, StepPending, StepQuiet;
  }

  lemma FlowCloser(s: Sys, data: nat -> int, n: nat)
    requires SteppingInv(s, data) && s.main == RunFlowPc && s.c.count < n
    ensures Closer(s, Main, Act(s, Main, data), n)
  {
    var u, t := Tick(s), Act(s, Main, data);
    TickKeeps(s, data);
    TickAwaits(s);
    hide MainStep, AwaitsStep, AwaitsPosition;
    if s.c.flow.state in {Init, Frame} {
      FlowUpdates(u, data, n);
    } else {
      FlowWaits(u, data);
      ShorterCloser(s, Main, t, n);
    }
  }

  lemma StepCloser(s: Sys, a: Actor, data: nat -> int, n: nat)
    requires SteppingInv(s, data) && Answering(s) && s.c.count < n
    ensures Closer(s, a, Act(s, a, data), n)
  {
    assert s.c.af == Stepping;
    hide SteppingInv, Answering, Closer, Act, AwaitsStep, Shorter;
    if a != Main {
      OthersCloser(s, a, data);
      ShorterCloser(s, a, Act(s, a, data), n);
    } else if s.main == RunFlowPc {
      FlowCloser(s, data, n);
    } else {
      PassCloser(s, data);
      ShorterCloser(s, a, Act(s, a, data), n);
    }
  }

  lemma ActCloser(s: Sys, a: Actor, data: nat -> int, n: nat)
    requires Inv(s, data) && Answering(s) && s.c.af != Stopped && StopsAt(data, n)
    ensures var t := Act(s, a, data); t.c.af == Stopped || Closer(s, a, t, n)
  {
    if s.c.af == Stepping {
      assert s.c.count < n by { assert Fallen(data, n); }
      StepCloser(s, a, data, n);
      hide Inv, Closer, Act, StopsAt;
    } else {
      hide StopsAt, Closer, AwaitsPosition, AwaitsStep, Shorter;
      PositionCloser(s, a, data);
      var t := Act(s, a, data);
      if t.c.af == s.c.af {
        ShorterCloser(s, a, t, n);
      } else if s.c.af == InitPos {
        FirstStep(s, a, data, n);
      } else {
        FinalAct(s, a, data);
      }
    }
  }

  // ----- Fair runs end -----

  /** At the latest when the awaited thread has its turn, the run is closer to its end. */
  lemma {:induction false} TurnComes(turn: Schedule, i: nat, j: nat, data: nat -> int, n: nat) returns (k: nat)
    requires (forall m :: data(m) >= 0) && StopsAt(data, n) && Moment(turn, i, data).c.af != Stopped
    requires i <= j && turn(j) == Awaits(Moment(turn, i, data)).who
    ensures i < k
    ensures Moment(turn, k, data).c.af == Stopped || 0 <= Rank(Moment(turn, k, data), n) < Rank(Moment(turn, i, data), n)
    decreases j - i
  {
    hide Run, Act, Awaits, Rank, StopsAt, Inv, Answering;
    RunAnswers(Prefix(turn, i), data);
    var s, t := Moment(turn, i, data), Moment(turn, i + 1, data);
    MomentStep(turn, i, data);
    ActCloser(s, turn(i), data, n);
    k := i + 1;
    if t.c.af != Stopped && !(0 <= Rank(t, n) < Rank(s, n)) {
      k := TurnComes(turn, i + 1, j, data, n);
    }
  }

  /** Whatever the fair interleaving, and from whatever moment of a run: it ends. */
  lemma {:induction false} Stops(turn: Schedule, i: nat, data: nat -> int, n: nat) returns (k: nat)
    requires (forall m :: data(m) >= 0) && StopsAt(data, n) && Fair(turn) && Moment(turn, i, data).c.af != Stopped
    ensures i < k && Moment(turn, k, data).c.af == Stopped
    decreases Rank(Moment(turn, i, data), n)
  {
    hide Run, Act, Rank, StopsAt;
    var who := Awaits(Moment(turn, i, data)).who;
    assert Later(turn, i, who);
    var j: nat :| i <= j && turn(j) == who;
    k := TurnComes(turn, i, j, data, n);
    if Moment(turn, k, data).c.af != Stopped {
      k := Stops(turn, k, data, n);
    }
  }

  lemma OnlyFromFinal(s: Sys, a: Actor, data: nat -> int)
    requires Inv(s, data) && s.c.af != Stopped && Act(s, a, data).c.af == Stopped
    ensures s.c.af == FinPos
  {
    hide Peak, InPhase, Focused;
  }

  /** The access that ends the run. */
  lemma {:induction false} LastBefore(turn: Schedule, i: nat, k: nat, data: nat -> int) returns (m: nat)
    requires (forall m :: data(m) >= 0) && i < k && Moment(turn, i, data).c.af != Stopped && Moment(turn, k, data).c.af == Stopped
    ensures i <= m < k && Moment(turn, m, data).c.af == FinPos && Moment(turn, m + 1, data).c.af == Stopped
    decreases k - i
  {
    hide Run, Prefix, Inv, Act;
    RunInv(Prefix(turn, i), data);
    MomentStep(turn, i, data);
    m := i;
    if Moment(turn, i + 1, data).c.af != Stopped {
      m := LastBefore(turn, i + 1, k, data);
    } else {
      OnlyFromFinal(Moment(turn, i, data), turn(i), data);
    }
  }

  /** Each start command leaves a run going, begun by it or before. */
  lemma StartBegins(turn: Schedule, i: nat, data: nat -> int)
    requires (forall m :: data(m) >= 0) && turn(i) == Starter
    ensures Moment(turn, i + 1, data).c.af != Stopped
    ensures Moment(turn, i, data).c.af == Stopped ==> Moment(turn, i + 1, data).c == STOPPED.(af := InitPos, pos := 576328)
  {
    RunInv(Prefix(turn, i), data);
    MomentStep(turn, i, data);
    hide Run, Prefix;
  }

  /** However the threads are interleaved, no thread being left out for ever: a run
      that has begun ends if and only if the samples show a stop, and then with the
      motor sent to the position of the last largest sample before it. */
  lemma EndsIff(turn: Schedule, i: nat, data: nat -> int)
    requires (forall m :: data(m) >= 0) && Fair(turn) && Moment(turn, i, data).c.af != Stopped
    ensures (exists n: nat :: StopsAt(data, n)) <==> exists k: nat :: i < k && Moment(turn, k, data).c.af == Stopped
    ensures forall n: nat :: StopsAt(data, n) ==> exists m: nat ::
              && i <= m && Moment(turn, m, data).c.af == FinPos && Moment(turn, m + 1, data).c.af == Stopped
              && Moment(turn, m, data).c.pos == (576328 - 1280 * (n - 4)) % 0x1_0000_0000
  {
    hide Run, Moment, Fair, StopsAt;
    forall n: nat | StopsAt(data, n)
      ensures exists k: nat :: i < k && Moment(turn, k, data).c.af == Stopped
      ensures exists m: nat ::
                && i <= m && Moment(turn, m, data).c.af == FinPos && Moment(turn, m + 1, data).c.af == Stopped
                && Moment(turn, m, data).c.pos == (576328 - 1280 * (n - 4)) % 0x1_0000_0000
    {
      var k := Stops(turn, i, data, n);
      var m := EndsAt(turn, i, k, data);
      StopUnique(data, n, Moment(turn, m, data).h.read);
    }
    if k: nat :| i < k && Moment(turn, k, data).c.af == Stopped {
      var m := EndsAt(turn, i, k, data);
    }
  }

  lemma EndsAt(turn: Schedule, i: nat, k: nat, data: nat -> int) returns (m: nat)
    requires (forall m :: data(m) >= 0) && i < k
    requires Moment(turn, i, data).c.af != Stopped && Moment(turn, k, data).c.af == Stopped
    ensures i <= m < k && Moment(turn, m, data).c.af == FinPos && Moment(turn, m + 1, data).c.af == Stopped
    ensures var s := Moment(turn, m, data);
            StopsAt(data, s.h.read) && s.c.pos == (576328 - 1280 * (s.h.read - 4)) % 0x1_0000_0000
  {
    hide Run, StopsAt;
    m := LastBefore(turn, i, k, data);
    FinalPosition(Prefix(turn, m), data);
  }
}
