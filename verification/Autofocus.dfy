/** The autofocus benchmark of application/benchmark/autofocus.c: the main loop,
    the motor thread and the FPGA thread, interleaved at every access to the two
    shared flag words. */
module Autofocus {
  import opened FeedbackFlow
  import opened Words

  const WINDOW: int := 3
  const START_POS: int := 576328
  const STEP_SIZE: int := 1280

  datatype AfState = Stopped | InitPos | Stepping | FinPos

  /** Where the main thread is: between calls of autofocus_handle, or about to do
      the named access inside the INIT_POS, STEP or FIN_POS case. */
  datatype MainPc =
    | Outer
    | InitTestRsp | InitTestEvent | InitClearRsp | InitClearEvent
    | StepTestRsp | StepTestEvent | StepClearEvent
    | ExpoTest | ExpoClear | FrameTest | FrameClear | RunFlowPc
    | FinTestRsp | FinTestEvent | FinClearRsp | FinClearEvent | FinZeroCmd | FinZeroEvents

  /** Where the motor thread is in its loop. */
  datatype MotorPc =
    | PosTest | PosClear | PosSignal | PosRespond
    | CmdTest | CmdClear | CmdSignal | CmdRespond

  datatype FpgaPc = RaiseExpo | RaiseFrame

  /** When an event was raised, when the main thread took it, and in which run of
      the flow it moved the flow. */
  datatype Stage = Stage(raised: nat, taken: nat, run: nat)

  /** When the event bits now set were raised. */
  datatype Bits = Bits(step: nat, expo: nat, frame: nat)

  /** The events that brought the flow to its state, and those just taken. */
  datatype Chain = Chain(step: Stage, expo: Stage, frame: Stage)
  datatype Got = Got(expo: Stage, frame: Stage)

  /** History: a clock of atomic steps, the number of flow runs, the samples read
      in this run, and the events behind the current state of the flow. */
  datatype History = History(
    clock: nat, runs: nat, read: nat, updated: nat, updatedRun: nat,
    bits: Bits, chain: Chain, got: Got)

  /** Fields of struct _bk_autofocus_struct that only the main thread uses, and the
      sample counter of autofocus_update. */
  datatype Core = Core(af: AfState, gmax: int, fall: int, pos: int, step: int, count: nat, flow: Flow)

  /** motor_cmd and intr_events, one flag a bit. */
  datatype Flags = Flags(
    cmdPos: bool, cmdStep: bool, posRsp: bool, stepRsp: bool,
    evPos: bool, evStep: bool, evExpo: bool, evFrame: bool)

  datatype Sys = Sys(c: Core, f: Flags, main: MainPc, motor: MotorPc, fpga: FpgaPc, h: History)

  const STOPPED := Core(Stopped, 0, 0, 0, 0, 0, DISABLED)

  /** autofocus_init, and both threads at the top of their loops. */
  function Initial(): Sys {
    var z := Stage(0, 0, 0);
    Sys(STOPPED, Flags(false, false, false, false, false, false, false, false),
        Outer, PosTest, RaiseExpo, History(0, 0, 0, 0, 0, Bits(0, 0, 0), Chain(z, z, z), Got(z, z)))
  }

  // ----- The motor and the FPGA -----

  /** One access of motor_work. */
  function MotorStep(s: Sys): Sys {
    match s.motor
    case PosTest => s.(motor := if s.f.cmdPos then PosClear else CmdTest)
    case PosClear => s.(f := s.f.(cmdPos := false), motor := PosSignal)
    case PosSignal => s.(f := s.f.(evPos := true), motor := PosRespond)
    case PosRespond => s.(f := s.f.(posRsp := true), motor := CmdTest)
    case CmdTest => s.(motor := if s.f.cmdStep then CmdClear else PosTest)
    case CmdClear => s.(f := s.f.(cmdStep := false), motor := CmdSignal)
    case CmdSignal => s.(f := s.f.(evStep := true), motor := CmdRespond, h := s.h.(bits := s.h.bits.(step := s.h.clock)))
    case CmdRespond => s.(f := s.f.(stepRsp := true), motor := PosTest)
  }

  /** One access of fpga_work. */
  function FpgaStep(s: Sys): Sys {
    match s.fpga
    case RaiseExpo =>
      s.(f := s.f.(evExpo := true), fpga := RaiseFrame,
         h := if s.f.evExpo then s.h else s.h.(bits := s.h.bits.(expo := s.h.clock)))
    case RaiseFrame =>
      s.(f := s.f.(evFrame := true), fpga := RaiseExpo,
         h := if s.f.evFrame then s.h else s.h.(bits := s.h.bits.(frame := s.h.clock)))
  }

  // ----- The main thread -----

  /** autofocus_start, between two calls of autofocus_handle. */
  function Start(s: Sys): Sys {
    if s.main != Outer || s.c.af != Stopped then s
    else s.(c := s.c.(gmax := 0, fall := 0, pos := START_POS, af := InitPos), f := s.f.(cmdPos := true))
  }

  /** autofocus_update on the next sample: the fields, and the command it issues. */
  function Update(c: Core, value: int): Core {
    var n := c.count + 1;
    if c.gmax <= value then
      c.(count := n, gmax := value, fall := 0, flow := Quiet(c.flow))
    else if c.fall + 1 >= WINDOW then
      c.(count := 0, fall := c.fall + 1, flow := Enable(c.flow, false), af := FinPos,
         pos := (START_POS - (c.step - (c.fall + 1)) * STEP_SIZE) % TWO_32)
    else
      c.(count := n, fall := c.fall + 1)
  }

  /** The event that moved the flow in this run. */
  function Advanced(h: History, before: FlowState, after: FlowState): History {
    if before == Idle && after == Set then h.(chain := h.chain.(step := h.chain.step.(run := h.runs)))
    else if before == Set && after == Expo then h.(chain := h.chain.(expo := h.got.expo.(run := h.runs)))
    else if before == Expo && after == Frame then h.(chain := h.chain.(frame := h.got.frame.(run := h.runs)))
    else h
  }

  /** bk_fbkflow_run with autofocus_update as its callback. */
  function RunStep(s: Sys, data: nat -> int): Sys {
    if !s.c.flow.enabled then s.(main := Outer)
    else
      var (flow, due) := Waited(s.c.flow);
      var h := Advanced(s.h, s.c.flow.state, flow.state);
      if !due then s.(c := s.c.(flow := flow), main := Outer, h := h.(runs := h.runs + 1))
      else
        var c := Update(s.c.(flow := flow), data(s.c.count));
        s.(c := c, main := Outer,
           f := if c.af == FinPos then s.f.(cmdPos := true) else s.f.(cmdStep := true),
           h := h.(read := s.c.count + 1, updated := h.clock, updatedRun := h.runs, runs := h.runs + 1))
  }

  function MainStep(s: Sys, data: nat -> int): Sys {
    match s.main
    case Outer =>
      s.(main := match s.c.af
                 case Stopped => Outer
                 case InitPos => InitTestRsp
                 case Stepping => StepTestRsp
                 case FinPos => FinTestRsp)
    // AFOCUS_S_INIT_POS
    case InitTestRsp => s.(main := if s.f.posRsp then InitTestEvent else Outer)
    case InitTestEvent => s.(main := if s.f.evPos then InitClearRsp else Outer)
    case InitClearRsp => s.(f := s.f.(posRsp := false), main := InitClearEvent)
    case InitClearEvent =>
      s.(f := s.f.(evPos := false), c := s.c.(af := Stepping, flow := Enable(s.c.flow, true)), main := Outer)
    // AFOCUS_S_STEP
    case StepTestRsp => s.(main := if s.f.stepRsp then StepTestEvent else ExpoTest)
    case StepTestEvent => s.(main := if s.f.evStep then StepClearEvent else ExpoTest)
    case StepClearEvent =>
      s.(f := s.f.(evStep := false), main := ExpoTest,
         c := s.c.(step := (s.c.step + 1) % TWO_32, flow := Notified(s.c.flow, SetEvent)),
         h := s.h.(chain := s.h.chain.(step := Stage(s.h.bits.step, s.h.clock, 0))))
    case ExpoTest => s.(main := if s.f.evExpo then ExpoClear else FrameTest)
    case ExpoClear =>
      s.(f := s.f.(evExpo := false), main := FrameTest, c := s.c.(flow := Notified(s.c.flow, ExpoEvent)),
         h := s.h.(got := s.h.got.(expo := Stage(s.h.bits.expo, s.h.clock, 0))))
    case FrameTest => s.(main := if s.f.evFrame then FrameClear else RunFlowPc)
    case FrameClear =>
      s.(f := s.f.(evFrame := false), main := RunFlowPc, c := s.c.(flow := Notified(s.c.flow, FrameEvent)),
         h := s.h.(got := s.h.got.(frame := Stage(s.h.bits.frame, s.h.clock, 0))))
    case RunFlowPc => RunStep(s, data)
    // AFOCUS_S_FIN_POS
    case FinTestRsp => s.(main := if s.f.posRsp then FinTestEvent else Outer)
    case FinTestEvent => s.(main := if s.f.evPos then FinClearRsp else Outer)
    case FinClearRsp => s.(f := s.f.(posRsp := false), main := FinClearEvent)
    case FinClearEvent => s.(f := s.f.(evPos := false), main := FinZeroCmd)
    case FinZeroCmd =>
      s.(f := s.f.(cmdPos := false, cmdStep := false, posRsp := false, stepRsp := false), main := FinZeroEvents)
    case FinZeroEvents =>
      s.(f := s.f.(evPos := false, evStep := false, evExpo := false, evFrame := false), main := Outer,
         c := STOPPED.(count := s.c.count))
  }

  // ----- Runs -----

  datatype Actor = Main | Motor | Fpga | Starter

  function Tick(s: Sys): Sys {
    s.(h := s.h.(clock := s.h.clock + 1))
  }

  /** One atomic step of one thread. */
  function Act(s: Sys, a: Actor, data: nat -> int): Sys {
    var t := Tick(s);
    match a
    case Main => MainStep(t, data)
    case Motor => MotorStep(t)
    case Fpga => FpgaStep(t)
    case Starter => Start(t)
  }

  /** The state after any interleaving of the threads. */
  function Run(acts: seq<Actor>, data: nat -> int): Sys {
    if acts == [] then Initial() else Act(Run(acts[..|acts| - 1], data), acts[|acts| - 1], data)
  }

  // ----- What the samples say -----

  /** `k` is the index of the last of the largest among the first `n` samples. */
  ghost predicate IsLastMax(data: nat -> int, n: nat, k: int) {
    && 0 <= k < n
    && (forall j :: 0 <= j < n ==> data(j) <= data(k))
    && (forall j :: k < j < n ==> data(j) < data(k))
  }

  /** The stopping rule: exactly three samples lie after the last largest one. */
  ghost predicate Fallen(data: nat -> int, n: nat) {
    IsLastMax(data, n, n - 4)
  }

  /** `n` samples are the fewest that meet the stopping rule. */
  ghost predicate StopsAt(data: nat -> int, n: nat) {
    Fallen(data, n) && forall m :: 0 <= m < n ==> !Fallen(data, m)
  }

  lemma LastMaxUnique(data: nat -> int, n: nat, k: int, l: int)
    requires IsLastMax(data, n, k) && IsLastMax(data, n, l)
    ensures k == l
  {
    assert data(k) <= data(l) && data(l) <= data(k);
  }

  // ----- The invariant -----

  predicate MotorIdle(m: MotorPc) {
    m.PosTest? || m.CmdTest?
  }

  /** A positioning command is on its way: set, taken, signalled or answered. */
  predicate PosPending(f: Flags, m: MotorPc) {
    || (f.cmdPos && !f.evPos && !f.posRsp && (MotorIdle(m) || m.CmdRespond? || m.PosClear?))
    || (!f.cmdPos && !f.evPos && !f.posRsp && m.PosSignal?)
    || (!f.cmdPos && f.evPos && !f.posRsp && m.PosRespond?)
    || PosAnswered(f, m)
  }

  predicate PosAnswered(f: Flags, m: MotorPc) {
    !f.cmdPos && f.evPos && f.posRsp && MotorIdle(m)
  }

  /** No positioning command. */
  predicate PosQuiet(f: Flags) {
    !f.cmdPos && !f.evPos && !f.posRsp
  }

  /** A step command is on its way: set, taken or signalled. */
  predicate StepPending(f: Flags, m: MotorPc) {
    || (f.cmdStep && !f.evStep && (MotorIdle(m) || m.CmdRespond? || m.CmdClear?))
    || (!f.cmdStep && !f.evStep && m.CmdSignal?)
    || StepSignalled(f, m)
  }

  predicate StepSignalled(f: Flags, m: MotorPc) {
    !f.cmdStep && f.evStep && (MotorIdle(m) || m.CmdRespond?)
  }

  predicate StepQuiet(f: Flags, m: MotorPc) {
    !f.cmdStep && !f.evStep && (MotorIdle(m) || m.CmdRespond?)
  }

  predicate InStep(pc: MainPc) {
    pc.StepTestRsp? || pc.StepTestEvent? || pc.StepClearEvent? || AfterStep(pc)
  }

  predicate AfterStep(pc: MainPc) {
    pc.ExpoTest? || pc.ExpoClear? || AfterExpo(pc)
  }

  predicate AfterExpo(pc: MainPc) {
    pc.FrameTest? || pc.FrameClear? || pc.RunFlowPc?
  }

  predicate StoppedInv(s: Sys) {
    s.main == Outer && s.c == STOPPED && PosQuiet(s.f) && StepQuiet(s.f, s.motor) && MotorIdle(s.motor) && !s.f.stepRsp
  }

  predicate InitPosInv(s: Sys) {
    && s.c == STOPPED.(af := InitPos, pos := START_POS)
    && !s.f.cmdStep && !s.f.evStep && !s.f.stepRsp && s.motor != CmdRespond
    && match s.main {
         case Outer => PosPending(s.f, s.motor)
         case InitTestRsp => PosPending(s.f, s.motor)
         case InitTestEvent => PosAnswered(s.f, s.motor)
         case InitClearRsp => PosAnswered(s.f, s.motor)
         case InitClearEvent => !s.f.cmdPos && s.f.evPos && !s.f.posRsp && MotorIdle(s.motor)
         case _ => false
       }
  }

  /** The largest sample so far and how many samples ago it was; no stop so far. */
  ghost predicate Peak(c: Core, data: nat -> int) {
    && (forall m :: 0 <= m <= c.count ==> !Fallen(data, m))
    && if c.count == 0 then c.gmax == 0 && c.fall == 0
    else
      && 0 <= c.fall < WINDOW && IsLastMax(data, c.count, c.count - 1 - c.fall)
      && c.gmax == data(c.count - 1 - c.fall)
  }

  /** The 32-bit step counter stands for `n`. */
  predicate Counts(step: int, n: int) {
    step == n % TWO_32
  }

  /** Where a step command is, given the state of the flow: none before the first
      update, one on its way while the flow is idle, none again once taken. */
  predicate StepFlags(flow: Flow, f: Flags, pc: MainPc, m: MotorPc) {
    match flow.state
    case Init => StepQuiet(f, m) && MotorIdle(m) && !flow.setUp && pc != StepClearEvent
    case Idle =>
      if flow.setUp then StepQuiet(f, m) && AfterStep(pc)
      else StepPending(f, m) && (pc == StepClearEvent ==> StepSignalled(f, m))
    case _ => StepQuiet(f, m) && !flow.setUp && pc != StepClearEvent
  }

  /** After n updates the counter is n - 1 while a step is on its way and n once
      it has been taken. */
  predicate InPhase(c: Core) {
    match c.flow.state
    case Init => c.count == 0 && c.step == 0
    case Idle => c.count >= 1 && Counts(c.step, if c.flow.setUp then c.count else c.count - 1)
    case _ => c.count >= 1 && Counts(c.step, c.count)
  }

  /** Events reach the flow only inside the call that runs it. */
  predicate Timely(flow: Flow, f: Flags, pc: MainPc) {
    && flow.enabled
    && (flow.setUp ==> AfterStep(pc)) && (flow.expo ==> AfterExpo(pc)) && (flow.frame ==> pc.RunFlowPc?)
    && (pc.ExpoClear? ==> f.evExpo) && (pc.FrameClear? ==> f.evFrame)
  }

  ghost predicate SteppingInv(s: Sys, data: nat -> int) {
    && s.c.af == Stepping && (s.main == Outer || InStep(s.main)) && PosQuiet(s.f)
    && StepFlags(s.c.flow, s.f, s.main, s.motor) && InPhase(s.c) && Timely(s.c.flow, s.f, s.main)
    && Peak(s.c, data)
  }

  /** The final position, from the index of the last maximal sample. */
  function FinalPos(k: int): int {
    (START_POS - k * STEP_SIZE) % TWO_32
  }

  /** The first stop, and the position of the last maximal sample. */
  ghost predicate Focused(c: Core, read: nat, data: nat -> int) {
    && c.fall == WINDOW && StopsAt(data, read)
    && c.pos == FinalPos(read - 1 - WINDOW)
  }

  ghost predicate FinPosInv(s: Sys, data: nat -> int) {
    && s.c.af == FinPos && s.c.flow == DISABLED && s.c.count == 0
    && !s.f.cmdStep && !s.f.evStep && Focused(s.c, s.h.read, data)
    && match s.main {
         case Outer => PosPending(s.f, s.motor)
         case FinTestRsp => PosPending(s.f, s.motor)
         case FinTestEvent => PosAnswered(s.f, s.motor)
         case FinClearRsp => PosAnswered(s.f, s.motor)
         case FinClearEvent => !s.f.cmdPos && s.f.evPos && !s.f.posRsp && MotorIdle(s.motor)
         case FinZeroCmd => PosQuiet(s.f) && MotorIdle(s.motor)
         case FinZeroEvents => PosQuiet(s.f) && MotorIdle(s.motor) && !s.f.stepRsp
         case _ => false
       }
  }

  ghost predicate Inv(s: Sys, data: nat -> int) {
    match s.c.af
    case Stopped => StoppedInv(s)
    case InitPos => InitPosInv(s)
    case Stepping => SteppingInv(s, data)
    case FinPos => FinPosInv(s, data)
  }

  lemma MotorKeeps(s: Sys, data: nat -> int)
    requires Inv(s, data)
    ensures Inv(MotorStep(s), data)
  {
    hide Peak, InPhase, Timely, Focused;
    match s.motor
    case PosTest =>
    case PosClear =>
    case PosSignal =>
    case PosRespond =>
    case CmdTest =>
    case CmdClear => if s.c.af == Stepping { TimelyFlags(s.c.flow, s.f, MotorStep(s).f, s.main); }
    case CmdSignal => if s.c.af == Stepping { TimelyFlags(s.c.flow, s.f, MotorStep(s).f, s.main); }
    case CmdRespond => if s.c.af == Stepping { TimelyFlags(s.c.flow, s.f, MotorStep(s).f, s.main); }
  }

  lemma TimelyFlags(flow: Flow, f: Flags, f': Flags, pc: MainPc)
    requires Timely(flow, f, pc) && (f.evExpo ==> f'.evExpo) && (f.evFrame ==> f'.evFrame)
    ensures Timely(flow, f', pc)
  {
  }

  lemma FpgaKeeps(s: Sys, data: nat -> int)
    requires Inv(s, data)
    ensures Inv(FpgaStep(s), data)
  {
    hide Peak, InPhase, Timely, Focused;
    if s.c.af == Stepping { TimelyFlags(s.c.flow, s.f, FpgaStep(s).f, s.main); }
  }

  lemma StartKeeps(s: Sys, data: nat -> int)
    requires Inv(s, data)
    ensures Inv(Start(s), data)
  {
    hide Peak, InPhase, Timely, Focused;
  }

  lemma MainKeeps(s: Sys, data: nat -> int)
    requires Inv(s, data) && s.main != RunFlowPc
    ensures Inv(MainStep(s, data), data)
  {
    hide Peak, InPhase, Focused;
    match s.c.af
    case Stopped =>
    case InitPos => InitKeeps(s, data);
    case Stepping => StepKeeps(s, data);
    case FinPos =>
  }

  lemma InitKeeps(s: Sys, data: nat -> int)
    requires InitPosInv(s)
    ensures Inv(MainStep(s, data), data)
  {
  }

  lemma StepKeeps(s: Sys, data: nat -> int)
    requires SteppingInv(s, data) && s.main != RunFlowPc
    ensures SteppingInv(MainStep(s, data), data)
  {
    if s.main == StepClearEvent { StepTaken(s, data); } else { StepOthers(s, data); }
    hide SteppingInv, MainStep;
  }

  /** The step is taken: the counter catches up with the samples. */
  lemma StepTaken(s: Sys, data: nat -> int)
    requires SteppingInv(s, data) && s.main == StepClearEvent
    ensures SteppingInv(MainStep(s, data), data)
  {
    SamePeak(s.c, MainStep(s, data).c, data);
    ModStep(s.c.count);
    hide Peak;
  }

  /** Every other access leaves the counters alone. */
  lemma StepOthers(s: Sys, data: nat -> int)
    requires SteppingInv(s, data) && s.main != RunFlowPc && s.main != StepClearEvent
    ensures SteppingInv(MainStep(s, data), data)
  {
    SamePeak(s.c, MainStep(s, data).c, data);
    hide Peak, Counts;
    if s.main != StepTestEvent { hide StepPending, StepQuiet; }
  }

  lemma SamePeak(c: Core, d: Core, data: nat -> int)
    requires c.count == d.count && c.gmax == d.gmax && c.fall == d.fall
    ensures Peak(c, data) == Peak(d, data)
  {
  }

  lemma ModStep(n: nat)
    requires n >= 1
    ensures ((n - 1) % TWO_32 + 1) % TWO_32 == n % TWO_32
  {
  }

  // ----- A run of the flow -----

  lemma RunKeeps(s: Sys, data: nat -> int)
    requires SteppingInv(s, data) && s.main == RunFlowPc && (forall i :: data(i) >= 0)
    ensures Inv(RunStep(s, data), data)
  {
    if Waited(s.c.flow).1 { RunUpdates(s, data); } else { RunWaits(s, data); }
    hide SteppingInv;
  }

  lemma RunUpdates(s: Sys, data: nat -> int)
    requires SteppingInv(s, data) && s.main == RunFlowPc && Waited(s.c.flow).1 && (forall i :: data(i) >= 0)
    ensures Inv(RunStep(s, data), data)
  {
    UpdatePeak(s.c, Waited(s.c.flow).0, data);
    hide Peak, Focused;
    if RunStep(s, data).c.af == FinPos { RunEnds(s, data); } else { RunGoesOn(s, data); }
    hide SteppingInv, RunStep;
  }

  lemma RunEnds(s: Sys, data: nat -> int)
    requires SteppingInv(s, data) && s.main == RunFlowPc && Waited(s.c.flow).1
    requires var t := RunStep(s, data); t.c.af == FinPos && Focused(t.c, t.h.read, data)
    ensures FinPosInv(RunStep(s, data), data)
  {
    hide Peak, Focused, InPhase, Timely;
  }

  lemma RunGoesOn(s: Sys, data: nat -> int)
    requires SteppingInv(s, data) && s.main == RunFlowPc && Waited(s.c.flow).1
    requires var t := RunStep(s, data); t.c.af == Stepping && Peak(t.c, data)
    ensures SteppingInv(RunStep(s, data), data)
  {
    hide Peak, Focused;
  }

  lemma RunWaits(s: Sys, data: nat -> int)
    requires SteppingInv(s, data) && s.main == RunFlowPc && !Waited(s.c.flow).1
    ensures SteppingInv(RunStep(s, data), data)
  {
    SamePeak(s.c, RunStep(s, data).c, data);
    hide Peak;
  }

  /** One sample moves the last largest one to the end, or one further away. */
  lemma SampleRead(data: nat -> int, n: nat, k: int, l: int)
    requires (forall m :: 0 <= m <= n ==> !Fallen(data, m)) && (n == 0 || IsLastMax(data, n, k))
    requires l == if n == 0 || data(k) <= data(n) then n else k
    ensures IsLastMax(data, n + 1, l) && (Fallen(data, n + 1) <==> l == n - WINDOW)
    ensures l != n - WINDOW ==> forall m :: 0 <= m <= n + 1 ==> !Fallen(data, m)
  {
    if n == 0 || data(k) <= data(n) {
      assert forall j :: 0 <= j < n ==> data(j) <= data(n);
    }
    assert IsLastMax(data, n + 1, l);
    if Fallen(data, n + 1) { LastMaxUnique(data, n + 1, l, n - WINDOW); }
  }

  /** What one sample does to the peak, and to the final position. */
  lemma UpdatePeak(c: Core, flow: Flow, data: nat -> int)
    requires Peak(c, data) && Counts(c.step, c.count) && (forall i :: data(i) >= 0) && c.af == Stepping
    ensures var d := Update(c.(flow := flow), data(c.count));
            if d.af == FinPos then Focused(d, c.count + 1, data) else d.af == Stepping && Peak(d, data)
  {
    var n, k := c.count, c.count - 1 - c.fall;
    SampleRead(data, n, k, if n == 0 || data(k) <= data(n) then n else k);
    if n > 0 && data(k) > data(n) { FinalModulo(n, c.step); }
    hide IsLastMax, Fallen, FinalPos;
    hide Counts;
  }

  lemma FinalModulo(n: int, step: int)
    requires Counts(step, n)
    ensures (START_POS - (step - WINDOW) * STEP_SIZE) % TWO_32 == FinalPos(n - WINDOW)
  {
    var q := n / TWO_32;
    assert n == q * TWO_32 + step;
    var x := START_POS - (n - WINDOW) * STEP_SIZE;
    assert START_POS - (step - WINDOW) * STEP_SIZE == x + (q * STEP_SIZE) * TWO_32;
    ModShift(x, q * STEP_SIZE);
  }

  lemma ActKeeps(s: Sys, a: Actor, data: nat -> int)
    requires Inv(s, data) && (forall i :: data(i) >= 0)
    ensures Inv(Act(s, a, data), data)
  {
    var t := Tick(s);
    TickKeeps(s, data);
    hide Inv, MainStep, MotorStep, FpgaStep, Start;
    match a
    case Main => if t.main == RunFlowPc { AtRun(t, data); } else { MainKeeps(t, data); }
    case Motor => MotorKeeps(t, data);
    case Fpga => FpgaKeeps(t, data);
    case Starter => StartKeeps(t, data);
  }

  lemma AtRun(s: Sys, data: nat -> int)
    requires Inv(s, data) && s.main == RunFlowPc && (forall i :: data(i) >= 0)
    ensures SteppingInv(s, data) && Inv(MainStep(s, data), data)
  {
    hide StepFlags, InPhase, Timely, Peak, Focused;
    assert SteppingInv(s, data);
    RunKeeps(s, data);
  }

  lemma TickKeeps(s: Sys, data: nat -> int)
    requires Inv(s, data)
    ensures Inv(Tick(s), data)
  {
    hide StepFlags, InPhase, Timely, Peak, Focused, PosPending, PosAnswered, PosQuiet;
  }

  /** Every interleaving from autofocus_init keeps the invariant. */
  lemma {:induction false} RunInv(acts: seq<Actor>, data: nat -> int)
    requires forall i :: data(i) >= 0
    ensures Inv(Run(acts, data), data)
  {
    if acts != [] {
      RunInv(acts[..|acts| - 1], data);
      ActKeeps(Run(acts[..|acts| - 1], data), acts[|acts| - 1], data);
    }
  }

  /** The next access of the main thread runs the flow and performs an update. */
  predicate UpdateDue(s: Sys) {
    s.main == RunFlowPc && s.c.flow.enabled && Waited(s.c.flow).1
  }

  /** Under every interleaving, and in every restarted run, the motor has made
      exactly as many steps as samples have been read when the next one is read. */
  lemma UpdateInStep(acts: seq<Actor>, data: nat -> int)
    requires (forall i :: data(i) >= 0) && UpdateDue(Run(acts, data))
    ensures var c := Run(acts, data).c; c.af == Stepping && c.step == c.count % TWO_32
  {
    RunInv(acts, data);
    hide Peak, StepFlags, Timely;
  }

  /** Under every interleaving, a run that ends sends the motor to the position of
      the last largest sample, having read the fewest samples that show three
      smaller ones after it. */
  lemma FinalPosition(acts: seq<Actor>, data: nat -> int)
    requires (forall i :: data(i) >= 0) && Run(acts, data).c.af == FinPos
    ensures var s := Run(acts, data);
            var k := s.h.read - 4;
            && StopsAt(data, s.h.read) && IsLastMax(data, s.h.read, k)
            && s.c.pos == (576328 - 1280 * k) % 0x1_0000_0000
            && (k <= 450 ==> s.c.pos == 576328 - 1280 * k)
  {
    hide Run, Inv;
    RunInv(acts, data);
    var s := Run(acts, data);
    Settled(s, data);
    assert Fallen(data, s.h.read);
    hide StopsAt;
  }

  lemma Settled(s: Sys, data: nat -> int)
    requires Inv(s, data) && s.c.af == FinPos
    ensures s.h.read >= 0 && Focused(s.c, s.h.read, data)
  {
    hide Focused, PosPending, PosAnswered;
  }

  /** The outcome does not depend on the interleaving, nor on which run it is. */
  lemma SameFocus(acts: seq<Actor>, others: seq<Actor>, data: nat -> int)
    requires forall i :: data(i) >= 0
    requires Run(acts, data).c.af == FinPos && Run(others, data).c.af == FinPos
    ensures Run(acts, data).c.pos == Run(others, data).c.pos
    ensures Run(acts, data).h.read == Run(others, data).h.read
  {
    hide Run, StopsAt, IsLastMax;
    FinalPosition(acts, data);
    FinalPosition(others, data);
    StopUnique(data, Run(acts, data).h.read, Run(others, data).h.read);
  }

  lemma StopUnique(data: nat -> int, m: nat, n: nat)
    requires StopsAt(data, m) && StopsAt(data, n)
    ensures m == n
  {
    hide Fallen;
    assert Fallen(data, m) && Fallen(data, n);
  }

  // ----- What happened since the previous update -----

  /** The motor stepped after the last update, and the main thread saw it. */
  predicate StepDone(h: History) {
    h.updated < h.chain.step.raised < h.chain.step.taken <= h.clock
  }

  predicate SetChain(h: History) {
    StepDone(h) && h.updatedRun < h.chain.step.run < h.runs
  }

  predicate ExpoChain(h: History) {
    && SetChain(h) && h.chain.step.run < h.chain.expo.run < h.runs
    && h.chain.step.taken < h.chain.expo.raised < h.chain.expo.taken <= h.clock
  }

  /** A step, an exposure begun after the step was seen, and a frame output after
      the exposure was seen, each moving the flow in a later run. */
  predicate FrameChain(h: History) {
    && ExpoChain(h) && h.chain.expo.run < h.chain.frame.run < h.runs
    && h.chain.expo.taken < h.chain.frame.raised < h.chain.frame.taken <= h.clock
  }

  predicate Causal(flow: Flow, f: Flags, pc: MainPc, h: History) {
    match flow.state
    case Init => true
    case Idle =>
      && h.updatedRun < h.runs
      && (f.evStep ==> h.updated < h.bits.step)
      && (flow.setUp ==> StepDone(h) && (AfterExpo(pc) && f.evExpo ==> h.chain.step.taken < h.bits.expo))
    case Set =>
      && SetChain(h) && (f.evExpo ==> h.chain.step.taken < h.bits.expo)
      && (flow.expo ==>
            && h.chain.step.taken < h.got.expo.raised < h.got.expo.taken <= h.clock
            && (pc.RunFlowPc? && f.evFrame ==> h.got.expo.taken < h.bits.frame))
    case Expo =>
      && ExpoChain(h) && (f.evFrame ==> h.chain.expo.taken < h.bits.frame)
      && (flow.frame ==> h.chain.expo.taken < h.got.frame.raised < h.got.frame.taken <= h.clock)
    case Frame => FrameChain(h)
  }

  /** Time stamps never lie in the future; the chain holds while stepping. */
  predicate CausalInv(s: Sys) {
    && s.h.updated <= s.h.clock && s.h.bits.step <= s.h.clock && s.h.bits.expo <= s.h.clock && s.h.bits.frame <= s.h.clock
    && (s.c.af == Stepping ==> Causal(s.c.flow, s.f, s.main, s.h))
  }

  /** Time passing, and flags outside the chain, keep it. */
  lemma LaterCausal(flow: Flow, f: Flags, g: Flags, pc: MainPc, h: History)
    requires Causal(flow, f, pc, h) && g.evStep == f.evStep && g.evExpo == f.evExpo && g.evFrame == f.evFrame
    ensures Causal(flow, g, pc, h.(clock := h.clock + 1))
  {
  }

  lemma MotorCausal(s: Sys, data: nat -> int)
    requires Inv(s, data) && CausalInv(s)
    ensures CausalInv(MotorStep(Tick(s)))
  {
    var t := MotorStep(Tick(s));
    hide Causal;
    if s.c.af == Stepping {
      hide Peak, InPhase, Timely, PosQuiet;
      assert SteppingInv(s, data);
      if s.motor == CmdSignal {
        SignalCausal(s.c.flow, s.f, s.main, s.motor, s.h);
      } else {
        LaterCausal(s.c.flow, s.f, t.f, s.main, s.h);
      }
    } else {
      hide Inv;
    }
  }

  /** A step signalled now comes after the last update. */
  lemma SignalCausal(flow: Flow, f: Flags, pc: MainPc, m: MotorPc, h: History)
    requires Causal(flow, f, pc, h) && StepFlags(flow, f, pc, m) && m == CmdSignal && h.updated <= h.clock
    ensures Causal(flow, f.(evStep := true), pc, h.(clock := h.clock + 1, bits := h.bits.(step := h.clock + 1)))
  {
  }

  lemma FpgaCausal(s: Sys)
    requires CausalInv(s)
    ensures CausalInv(FpgaStep(Tick(s)))
  {
    hide Causal;
    if s.c.af == Stepping {
      match s.fpga
      case RaiseExpo => ExpoRaised(s.c.flow, s.f, s.main, s.h);
      case RaiseFrame => FrameRaised(s.c.flow, s.f, s.main, s.h);
    }
  }

  /** An exposure raised now keeps the chain. */
  lemma ExpoRaised(flow: Flow, f: Flags, pc: MainPc, h: History)
    requires Causal(flow, f, pc, h)
    ensures var i := h.(clock := h.clock + 1);
            Causal(flow, f.(evExpo := true), pc, if f.evExpo then i else i.(bits := i.bits.(expo := i.clock)))
  {
  }

  /** So does a frame. */
  lemma FrameRaised(flow: Flow, f: Flags, pc: MainPc, h: History)
    requires Causal(flow, f, pc, h)
    ensures var i := h.(clock := h.clock + 1);
            Causal(flow, f.(evFrame := true), pc, if f.evFrame then i else i.(bits := i.bits.(frame := i.clock)))
  {
  }

  lemma MainCausal(s: Sys, data: nat -> int)
    requires Inv(s, data) && CausalInv(s)
    ensures CausalInv(MainStep(Tick(s), data))
  {
    hide Peak, InPhase, Focused, PosPending, PosAnswered, PosQuiet, RunStep;
    if s.c.af == Stepping {
      assert SteppingInv(s, data);
      if s.main == RunFlowPc { RunCausal(s, data); } else { StepCausal(s, data); }
    } else {
      hide Causal, StepFlags;
      OtherCausal(s, data);
    }
  }

  lemma StepCausal(s: Sys, data: nat -> int)
    requires SteppingInv(s, data) && CausalInv(s) && s.main != RunFlowPc
    ensures CausalInv(MainStep(Tick(s), data))
  {
    hide Peak, InPhase, Focused, PosQuiet;
  }

  lemma OtherCausal(s: Sys, data: nat -> int)
    requires Inv(s, data) && CausalInv(s) && s.c.af != Stepping
    ensures CausalInv(MainStep(Tick(s), data))
  {
    hide Peak, Focused, PosPending, PosAnswered, PosQuiet, RunStep;
  }

  lemma RunCausal(s: Sys, data: nat -> int)
    requires SteppingInv(s, data) && CausalInv(s) && s.main == RunFlowPc
    ensures CausalInv(RunStep(Tick(s), data))
  {
    hide RunStep, CausalInv, SteppingInv;
    if Waited(s.c.flow).1 { UpdateCausal(s, data); } else { WaitsCausal(s, data); }
  }

  lemma WaitsCausal(s: Sys, data: nat -> int)
    requires SteppingInv(s, data) && CausalInv(s) && s.main == RunFlowPc && !Waited(s.c.flow).1
    ensures CausalInv(RunStep(Tick(s), data))
  {
    hide Peak, InPhase, PosQuiet, StepFlags, Update, Causal;
    WaitCausal(s.c.flow, s.f, s.h);
    hide SteppingInv, Advanced;
    AdvancedKeeps(Tick(s).h, s.c.flow.state, Waited(s.c.flow).0.state);
  }

  lemma AdvancedKeeps(h: History, before: FlowState, after: FlowState)
    ensures var i := Advanced(h, before, after);
            i.clock == h.clock && i.runs == h.runs && i.updated == h.updated && i.bits == h.bits
  {
  }

  /** A run of the flow without an update moves the chain on by one event. */
  lemma WaitCausal(flow: Flow, f: Flags, h: History)
    requires Causal(flow, f, RunFlowPc, h) && !Waited(flow).1
    ensures var i := Advanced(h.(clock := h.clock + 1), flow.state, Waited(flow).0.state);
            Causal(Waited(flow).0, f, Outer, i.(runs := i.runs + 1))
  {
    match flow.state
    case Idle => WaitIdle(flow, f, h);
    case Set => WaitSet(flow, f, h);
    case Expo => WaitExpo(flow, f, h);
    hide Causal, Advanced;
  }

  lemma WaitIdle(flow: Flow, f: Flags, h: History)
    requires Causal(flow, f, RunFlowPc, h) && flow.state == Idle
    ensures var i := Advanced(h.(clock := h.clock + 1), Idle, Waited(flow).0.state);
            Causal(Waited(flow).0, f, Outer, i.(runs := i.runs + 1))
  {
  }

  lemma WaitSet(flow: Flow, f: Flags, h: History)
    requires Causal(flow, f, RunFlowPc, h) && flow.state == Set
    ensures var i := Advanced(h.(clock := h.clock + 1), Set, Waited(flow).0.state);
            Causal(Waited(flow).0, f, Outer, i.(runs := i.runs + 1))
  {
  }

  lemma WaitExpo(flow: Flow, f: Flags, h: History)
    requires Causal(flow, f, RunFlowPc, h) && flow.state == Expo
    ensures var i := Advanced(h.(clock := h.clock + 1), Expo, Waited(flow).0.state);
            Causal(Waited(flow).0, f, Outer, i.(runs := i.runs + 1))
  {
  }

  /** An update begins a new chain. */
  lemma UpdateCausal(s: Sys, data: nat -> int)
    requires SteppingInv(s, data) && CausalInv(s) && s.main == RunFlowPc && Waited(s.c.flow).1
    ensures CausalInv(RunStep(Tick(s), data))
  {
    hide Peak, InPhase, PosQuiet, Causal;
    assert !s.f.evStep;
    var t := RunStep(Tick(s), data);
    UpdateFlow(s.c.(flow := Waited(s.c.flow).0), data(s.c.count));
    AdvancedKeeps(Tick(s).h, s.c.flow.state, Idle);
    hide StepFlags, SteppingInv, Update, Advanced;
    if t.c.af == Stepping { NewChain(t.c.flow, t.f, t.h); }
  }

  lemma UpdateFlow(c: Core, value: int)
    requires c.flow.state == Idle && !c.flow.setUp && c.af == Stepping
    ensures var d := Update(c, value); d.af == FinPos || (d.af == Stepping && d.flow.state == Idle && !d.flow.setUp)
  {
  }

  lemma NewChain(flow: Flow, f: Flags, h: History)
    requires flow.state == Idle && !flow.setUp && !f.evStep && h.updatedRun < h.runs
    ensures Causal(flow, f, Outer, h)
  {
  }

  lemma {:induction false} RunCausalInv(acts: seq<Actor>, data: nat -> int)
    requires forall i :: data(i) >= 0
    ensures CausalInv(Run(acts, data))
  {
    if acts != [] {
      var s := Run(acts[..|acts| - 1], data);
      RunCausalInv(acts[..|acts| - 1], data);
      RunInv(acts[..|acts| - 1], data);
      hide Inv, MainStep, MotorStep, FpgaStep, Causal;
      match acts[|acts| - 1]
      case Main => MainCausal(s, data);
      case Motor => MotorCausal(s, data);
      case Fpga => FpgaCausal(s);
      case Starter => StartCausal(s, data);
    }
  }

  lemma StartCausal(s: Sys, data: nat -> int)
    requires CausalInv(s) && Inv(s, data)
    ensures CausalInv(Start(Tick(s)))
  {
    hide Peak, InPhase, Focused, PosPending, PosAnswered, Timely, StepFlags;
  }

  /** Under every interleaving, each update after the first of a run comes after a
      motor step since the previous update, an exposure begun after that step was
      seen, and a frame output after that exposure was seen, which moved the flow
      in strictly increasing runs: a stale event never advances it. */
  lemma UpdateAfterChain(acts: seq<Actor>, data: nat -> int)
    requires (forall i :: data(i) >= 0) && UpdateDue(Run(acts, data)) && Run(acts, data).c.count > 0
    ensures var h := Run(acts, data).h;
            && h.updated < h.chain.step.raised < h.chain.step.taken
            && h.chain.step.taken < h.chain.expo.raised < h.chain.expo.taken
            && h.chain.expo.taken < h.chain.frame.raised < h.chain.frame.taken <= h.clock
            && h.updatedRun < h.chain.step.run < h.chain.expo.run < h.chain.frame.run < h.runs
  {
    RunInv(acts, data);
    RunCausalInv(acts, data);
    hide Peak, StepFlags, Timely;
  }

  // ----- The fields of the main thread, updated in place -----

  class Focus {
    var af: AfState
    var gmax: int
    var fall: int
    var pos: int
    var step: int
    var count: nat
    var flow: Flow
    var cmdPos: bool
    var cmdStep: bool

    ghost function View(): Core
      reads this
    {
      Core(af, gmax, fall, pos, step, count, flow)
    }

    /** autofocus_init. */
    constructor ()
      ensures View() == STOPPED && !cmdPos && !cmdStep
    {
      af, gmax, fall, pos, step, count, flow := Stopped, 0, 0, 0, 0, 0, DISABLED;
      cmdPos, cmdStep := false, false;
    }

    method SetPos(to: int)
      modifies this`pos, this`cmdPos
      ensures pos == to && cmdPos
    {
      pos, cmdPos := to, true;
    }

    /** autofocus_start. */
    method Begin()
      modifies this
      ensures cmdStep == old(cmdStep) && cmdPos == (old(cmdPos) || old(af) == Stopped)
      ensures View() == if old(af) == Stopped then old(View()).(gmax := 0, fall := 0, pos := START_POS, af := InitPos) else old(View())
    {
      if af != Stopped { return; }
      gmax, fall := 0, 0;
      SetPos(START_POS);
      af := InitPos;
    }

    /** autofocus_update on one sample: the new fields, and exactly one command. */
    method Sample(value: int)
      modifies this
      ensures View() == Update(old(View()), value)
      ensures if old(gmax) <= value || old(fall) + 1 < WINDOW
              then cmdStep && cmdPos == old(cmdPos) else cmdPos && cmdStep == old(cmdStep)
    {
      count := count + 1;
      if gmax <= value {
        gmax, fall, cmdStep := value, 0, true;
        flow := Quiet(flow);
      } else {
        fall := fall + 1;
        if fall >= WINDOW {
          flow := Enable(flow, false);
          af, count := FinPos, 0;
          SetPos((START_POS - (step - fall) * STEP_SIZE) % TWO_32);
        } else {
          cmdStep := true;
        }
      }
    }
  }
}
