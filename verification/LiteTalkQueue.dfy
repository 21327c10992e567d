/** The transceiver of application/cmder/cmder.c with its eight-slot receive queue:
    uart_rx submits frames, cmder_protocol_poll takes them.  All frames of a
    transceiver have the same priority in the heap behind the queue. */
module LiteTalkQueue {
  import opened Bytes
  import opened Wrappers
  import opened LiteTalk
  import opened MinPq

  const CAPACITY: nat := 8

  // ----- The queue on values -----

  /** The receiver, the queue slot by slot, and what became of the frames. */
  datatype Station = Station(
    rx: Rx, queue: seq<seq<Byte>>, accepted: seq<seq<Byte>>, lost: seq<seq<Byte>>, taken: seq<seq<Byte>>)

  const EMPTY := Station(Rx([], []), [], [], [], [])

  datatype Op = Receive(poll: Poll) | Take

  /** The frame a poll submits, if any. */
  function FrameFound(rx: Rx, p: Poll): Option<seq<Byte>> {
    var b := rx.buffer + p.input;
    match Match(b)
    case Found(n) => Some(b[..n])
    case _ => None
  }

  /** tcvr_buffer_submit: a full queue refuses the frame, and nobody notices. */
  function Submit(st: Station, frame: seq<Byte>): Station {
    if |st.queue| < CAPACITY then st.(queue := st.queue + [frame], accepted := st.accepted + [frame])
    else st.(lost := st.lost + [frame])
  }

  /** Among frames of one priority the last takes the place of the first. */
  function Refilled(q: seq<seq<Byte>>): seq<seq<Byte>>
    requires q != []
  {
    if |q| == 1 then [] else [q[|q| - 1]] + q[1..|q| - 1]
  }

  function StationStep(st: Station, op: Op): Station {
    match op
    case Receive(p) =>
      var next := match FrameFound(st.rx, p) case None => st case Some(f) => Submit(st, f);
      next.(rx := PollStep(st.rx, p))
    case Take =>
      if st.queue == [] then st
      else st.(queue := Refilled(st.queue), taken := st.taken + [st.queue[0]])
  }

  function StationRun(ops: seq<Op>): Station {
    if ops == [] then EMPTY else StationStep(StationRun(ops[..|ops| - 1]), ops[|ops| - 1])
  }

  lemma OneOp(ops: seq<Op>, k: nat)
    requires k < |ops|
    ensures StationRun(ops[..k + 1]) == StationStep(StationRun(ops[..k]), ops[k])
  {
    assert ops[..k + 1][..k] == ops[..k];
  }

  // ----- No frame is invented, doubled or forgotten -----

  lemma RefilledHolds(q: seq<seq<Byte>>)
    requires q != []
    ensures multiset(q) == multiset{q[0]} + multiset(Refilled(q))
  {
    if |q| == 1 {
      assert q == [q[0]];
    } else {
      assert q == [q[0]] + q[1..|q| - 1] + [q[|q| - 1]];
    }
  }

  /** Every submitted frame was taken, is held or was lost, once. */
  ghost predicate Accounted(st: Station) {
    && multiset(st.accepted) == multiset(st.taken) + multiset(st.queue)
    && multiset(SubmittedOf(st.rx.pieces)) == multiset(st.accepted) + multiset(st.lost)
    && |st.queue| <= 8
  }

  lemma StepAccounted(st: Station, op: Op)
    requires Accounted(st)
    ensures Accounted(StationStep(st, op))
  {
    hide PollStep, FrameFound, Refilled, SubmittedOf;
    match op
    case Receive(p) =>
      SubmitsFound(st.rx, p);
      if FrameFound(st.rx, p).Some? { SubmitAccounted(st, PollStep(st.rx, p), FrameFound(st.rx, p).value); }
    case Take => if st.queue != [] { TakeAccounted(st); }
  }

  lemma SubmitAccounted(st: Station, rx: Rx, frame: seq<Byte>)
    requires Accounted(st) && SubmittedOf(rx.pieces) == SubmittedOf(st.rx.pieces) + [frame]
    ensures Accounted(Submit(st, frame).(rx := rx))
  {
    hide SubmittedOf;
  }

  lemma TakeAccounted(st: Station)
    requires Accounted(st) && st.queue != []
    ensures Accounted(st.(queue := Refilled(st.queue), taken := st.taken + [st.queue[0]]))
  {
    RefilledHolds(st.queue);
    RefilledLength(st.queue);
    hide Refilled, SubmittedOf;
  }

  lemma RefilledLength(q: seq<seq<Byte>>)
    requires q != []
    ensures |Refilled(q)| == |q| - 1
  {
  }

  lemma SubmitsFound(rx: Rx, p: Poll)
    ensures SubmittedOf(PollStep(rx, p).pieces)
            == SubmittedOf(rx.pieces) + match FrameFound(rx, p) case None => [] case Some(f) => [f]
  {
    var after := PollStep(rx, p);
    hide ScanLength;
    if |after.pieces| > |rx.pieces| { SubmittedAppend(rx.pieces, after.pieces[|rx.pieces|]); }
  }

  lemma {:induction false} RunAccounted(ops: seq<Op>)
    ensures Accounted(StationRun(ops))
  {
    if ops != [] {
      RunAccounted(ops[..|ops| - 1]);
      StepAccounted(StationRun(ops[..|ops| - 1]), ops[|ops| - 1]);
    }
  }

  // ----- Loss -----

  /** A poll finds a whole frame while eight are held. */
  predicate Overflows(st: Station, op: Op) {
    op.Receive? && FrameFound(st.rx, op.poll).Some? && |st.queue| == 8
  }

  ghost predicate NeverOverflows(ops: seq<Op>) {
    forall k :: 0 <= k < |ops| ==> !Overflows(StationRun(ops[..k]), ops[k])
  }

  lemma NeverOverflowsGrows(ops: seq<Op>)
    requires ops != []
    ensures var n := |ops| - 1;
            NeverOverflows(ops) <==> NeverOverflows(ops[..n]) && !Overflows(StationRun(ops[..n]), ops[n])
  {
    hide StationRun, Overflows;
    var n := |ops| - 1;
    var before := ops[..n];
    assert forall k :: 0 <= k < n ==> before[..k] == ops[..k] && before[k] == ops[k];
    if NeverOverflows(before) && !Overflows(StationRun(before), ops[n]) {
      forall k | 0 <= k < |ops|
        ensures !Overflows(StationRun(ops[..k]), ops[k])
      {
        if k < n { assert !Overflows(StationRun(before[..k]), before[k]); }
      }
    }
    if NeverOverflows(ops) {
      forall k | 0 <= k < n
        ensures !Overflows(StationRun(before[..k]), before[k])
      {
        assert !Overflows(StationRun(ops[..k]), ops[k]);
      }
    }
  }

  /** In every run, no frame is lost exactly when no poll finds a whole frame while
      eight are held. */
  lemma {:induction false} LostIff(ops: seq<Op>)
    ensures StationRun(ops).lost == [] <==> NeverOverflows(ops)
  {
    if ops != [] {
      var n := |ops| - 1;
      LostIff(ops[..n]);
      RunAccounted(ops[..n]);
      NeverOverflowsGrows(ops);
      LostStep(StationRun(ops[..n]), ops[n]);
      hide NeverOverflows, Accounted, StationStep, Overflows;
    }
  }

  lemma LostStep(st: Station, op: Op)
    requires |st.queue| <= 8
    ensures StationStep(st, op).lost == [] <==> st.lost == [] && !Overflows(st, op)
  {
  }

  function Repeat(op: Op, n: nat): seq<Op> {
    if n == 0 then [] else Repeat(op, n - 1) + [op]
  }

  lemma OneAfter(ops: seq<Op>, op: Op)
    ensures StationRun(ops + [op]) == StationStep(StationRun(ops), op) && StationRun([]) == EMPTY
  {
    assert (ops + [op])[..|ops|] == ops;
  }

  /** A poll that reads exactly one frame into an empty buffer submits it. */
  lemma WholeRead(st: Station, p: Poll)
    requires st.rx.buffer == [] && IsFrame(p.input)
    ensures StationStep(st, Receive(p)) == Submit(st, p.input).(rx := Rx([], st.rx.pieces + [Submitted(p.input)]))
  {
    var f := p.input;
    assert [] + f == f && f <= f + [];
    MatchPrefix(f, f, []);
    assert f[..|f|] == f && f[|f|..] == [];
    hide IsFrame, Match;
  }

  lemma {:induction false} Filled(p: Poll, n: nat)
    requires IsFrame(p.input) && n <= 8
    ensures var st := StationRun(Repeat(Receive(p), n)); st.rx.buffer == [] && |st.queue| == n && st.lost == []
  {
    hide StationRun, IsFrame, StationStep;
    OneAfter([], Take);
    if n > 0 {
      Filled(p, n - 1);
      OneAfter(Repeat(Receive(p), n - 1), Receive(p));
      WholeRead(StationRun(Repeat(Receive(p), n - 1)), p);
    }
  }

  /** For instance, of nine frames read one by one and none taken, the last is lost,
      though it has left the buffer. */
  lemma LossExample(p: Poll)
    requires p.input == Frame(0, [])
    ensures var st := StationRun(Repeat(Receive(p), 9));
            st.lost == [p.input] && st.rx.buffer == [] && |st.queue| == 8
  {
    hide StationRun, IsFrame, StationStep;
    Filled(p, 8);
    OneAfter(Repeat(Receive(p), 8), Receive(p));
    WholeRead(StationRun(Repeat(Receive(p), 8)), p);
  }

  // ----- Order -----

  /** The frames taken and held, slot by slot, are the accepted ones in order. */
  predicate InOrder(st: Station) {
    st.taken + st.queue == st.accepted
  }

  predicate Distinct(fs: seq<seq<Byte>>) {
    forall i, j :: 0 <= i < j < |fs| ==> fs[i] != fs[j]
  }

  /** A frame is taken while more than two are held. */
  predicate Crowded(st: Station, op: Op) {
    op.Take? && |st.queue| > 2
  }

  lemma OrderKept(st: Station, op: Op)
    requires InOrder(st) && !Crowded(st, op)
    ensures InOrder(StationStep(st, op))
  {
    var t := StationStep(st, op);
    if op.Take? && st.queue != [] {
      assert Refilled(st.queue) == st.queue[1..];
      assert t.taken + t.queue == st.taken + ([st.queue[0]] + st.queue[1..]) == st.taken + st.queue;
    } else if op.Receive? && FrameFound(st.rx, op.poll).Some? && |st.queue| < CAPACITY {
      assert t.taken + t.queue == (st.taken + st.queue) + [FrameFound(st.rx, op.poll).value];
    }
  }

  lemma OrderBroken(st: Station, op: Op)
    requires InOrder(st) && Crowded(st, op) && Distinct(st.accepted)
    ensures !InOrder(StationStep(st, op))
  {
    var t, n := StationStep(st, op), |st.taken|;
    assert (t.taken + t.queue)[n + 1] == st.queue[|st.queue| - 1] == st.accepted[n + |st.queue| - 1];
    assert st.accepted[n + 1] != st.accepted[n + |st.queue| - 1];
  }

  lemma {:induction false} AcceptedGrows(ops: seq<Op>, k: nat)
    requires k <= |ops|
    ensures StationRun(ops[..k]).accepted <= StationRun(ops).accepted
    decreases |ops| - k
  {
    if k == |ops| {
      assert ops[..k] == ops;
    } else {
      AcceptedGrows(ops, k + 1);
      OneOp(ops, k);
    }
  }

  ghost predicate AlwaysInOrder(ops: seq<Op>) {
    forall k :: 0 <= k <= |ops| ==> InOrder(StationRun(ops[..k]))
  }

  ghost predicate NeverCrowded(ops: seq<Op>) {
    forall k :: 0 <= k < |ops| ==> !Crowded(StationRun(ops[..k]), ops[k])
  }

  /** In every run in which no frame is taken while more than two are held, the queue
      is in the order of submission at every moment; over distinct frames in no
      other. */
  lemma OrderIff(ops: seq<Op>)
    ensures NeverCrowded(ops) ==> AlwaysInOrder(ops)
    ensures Distinct(StationRun(ops).accepted) ==> (AlwaysInOrder(ops) <==> NeverCrowded(ops))
  {
    hide StationRun, InOrder, Crowded, Distinct;
    if NeverCrowded(ops) {
      forall k | 0 <= k <= |ops|
        ensures InOrder(StationRun(ops[..k]))
      {
        OrderedUpTo(ops, k);
      }
    } else if Distinct(StationRun(ops).accepted) {
      var k :| 0 <= k < |ops| && Crowded(StationRun(ops[..k]), ops[k]);
      CrowdedBreaks(ops, k);
    }
  }

  lemma CrowdedBreaks(ops: seq<Op>, k: nat)
    requires k < |ops| && Crowded(StationRun(ops[..k]), ops[k]) && Distinct(StationRun(ops).accepted)
    ensures !InOrder(StationRun(ops[..k])) || !InOrder(StationRun(ops[..k + 1]))
  {
    hide StationStep, Crowded, InOrder, StationRun;
    OneOp(ops, k);
    AcceptedGrows(ops, k);
    if InOrder(StationRun(ops[..k])) { OrderBroken(StationRun(ops[..k]), ops[k]); }
  }

  lemma {:induction false} OrderedUpTo(ops: seq<Op>, k: nat)
    requires k <= |ops| && NeverCrowded(ops)
    ensures InOrder(StationRun(ops[..k]))
  {
    if k > 0 {
      OrderedUpTo(ops, k - 1);
      OneOp(ops, k - 1);
      OrderKept(StationRun(ops[..k - 1]), ops[k - 1]);
    }
  }

  // ----- The order in which frames come out -----

  /** Some frame was taken while more than two were held. */
  ghost predicate CrowdedOnce(ops: seq<Op>) {
    exists k :: 0 <= k < |ops| && Crowded(StationRun(ops[..k]), ops[k])
  }

  /** And another one after that. */
  ghost predicate TakenAfter(ops: seq<Op>) {
    exists j :: 0 <= j < |ops| && ops[j].Take? && CrowdedOnce(ops[..j])
  }

  lemma CrowdedGrows(ops: seq<Op>, op: Op)
    ensures CrowdedOnce(ops + [op]) <==> CrowdedOnce(ops) || Crowded(StationRun(ops), op)
  {
    hide StationRun, Crowded;
    var all := ops + [op];
    assert all[..|ops|] == ops && all[|ops|] == op;
    assert forall k :: 0 <= k < |ops| ==> all[..k] == ops[..k] && all[k] == ops[k];
    if CrowdedOnce(ops) {
      var k :| 0 <= k < |ops| && Crowded(StationRun(ops[..k]), ops[k]);
      assert Crowded(StationRun(all[..k]), all[k]);
    }
    if Crowded(StationRun(ops), op) { assert Crowded(StationRun(all[..|ops|]), all[|ops|]); }
    if CrowdedOnce(all) {
      var k :| 0 <= k < |all| && Crowded(StationRun(all[..k]), all[k]);
      if k < |ops| { assert Crowded(StationRun(ops[..k]), ops[k]); }
    }
  }

  lemma TakenGrows(ops: seq<Op>, op: Op)
    ensures TakenAfter(ops + [op]) <==> TakenAfter(ops) || (CrowdedOnce(ops) && op.Take?)
  {
    hide CrowdedOnce;
    var all := ops + [op];
    assert all[..|ops|] == ops && all[|ops|] == op;
    assert forall k :: 0 <= k < |ops| ==> all[..k] == ops[..k] && all[k] == ops[k];
    if TakenAfter(ops) {
      var j :| 0 <= j < |ops| && ops[j].Take? && CrowdedOnce(ops[..j]);
      assert all[j].Take? && CrowdedOnce(all[..j]);
    }
    if CrowdedOnce(ops) && op.Take? { assert all[|ops|].Take? && CrowdedOnce(all[..|ops|]); }
    if TakenAfter(all) {
      var j :| 0 <= j < |all| && all[j].Take? && CrowdedOnce(all[..j]);
      if j < |ops| { assert ops[j].Take? && CrowdedOnce(ops[..j]); }
    }
  }

  /** All taken frames came out in order, but the next one will not. */
  predicate Bent(st: Station) {
    && st.taken <= st.accepted && |st.taken| < |st.accepted| && st.queue != []
    && st.queue[0] != st.accepted[|st.taken|]
  }

  /** Some taken frame came out in the place of another. */
  ghost predicate Swapped(st: Station) {
    exists i :: 0 <= i < |st.taken| && i < |st.accepted| && st.taken[i] != st.accepted[i]
  }

  lemma CrowdedBends(st: Station)
    requires InOrder(st) && Crowded(st, Take) && Distinct(st.accepted)
    ensures Bent(StationStep(st, Take))
  {
    var n, q := |st.taken|, st.queue;
    assert st.accepted[n + 1] != st.accepted[n + |q| - 1];
    assert st.accepted == st.taken + q && st.taken + [q[0]] <= st.accepted;
    assert st.accepted[n + |q| - 1] == q[|q| - 1];
  }

  lemma BentStep(st: Station, op: Op)
    requires Bent(st)
    ensures if op.Take? then Swapped(StationStep(st, op)) else Bent(StationStep(st, op))
  {
    hide PollStep, FrameFound;
    var t := StationStep(st, op);
    if op.Take? { assert t.taken[|st.taken|] == st.queue[0] && t.accepted == st.accepted; }
  }

  lemma SwappedStep(st: Station, op: Op)
    requires Swapped(st)
    ensures Swapped(StationStep(st, op))
  {
    hide PollStep, FrameFound, Refilled;
    var i :| 0 <= i < |st.taken| && i < |st.accepted| && st.taken[i] != st.accepted[i];
    var t := StationStep(st, op);
    assert t.taken[i] == st.taken[i] && t.accepted[i] == st.accepted[i];
  }

  lemma AcceptedStep(st: Station, op: Op)
    ensures st.accepted <= StationStep(st, op).accepted
  {
  }

  /** Over distinct frames: in order, about to come out wrong, or come out wrong. */
  lemma {:induction false} ThreeStates(ops: seq<Op>)
    requires Distinct(StationRun(ops).accepted)
    ensures var st := StationRun(ops);
            if TakenAfter(ops) then Swapped(st) else if CrowdedOnce(ops) then Bent(st) else InOrder(st)
  {
    if ops != [] {
      var n := |ops| - 1;
      var before, op := ops[..n], ops[n];
      assert ops == before + [op];
      CrowdedGrows(before, op);
      TakenGrows(before, op);
      var st := StationRun(before);
      AcceptedStep(st, op);
      ThreeStates(before);
      hide CrowdedOnce, TakenAfter, Swapped, Bent, InOrder, StationStep;
      if TakenAfter(before) {
        SwappedStep(st, op);
      } else if CrowdedOnce(before) {
        BentStep(st, op);
      } else if Crowded(st, op) {
        CrowdedBends(st);
      } else {
        OrderKept(st, op);
      }
    }
  }

  lemma TakenStep(st: Station, op: Op)
    requires st.taken <= st.accepted && (op.Take? ==> InOrder(st))
    ensures var t := StationStep(st, op); t.taken <= t.accepted
  {
    hide PollStep, FrameFound, Refilled;
    if op.Take? && st.queue != [] { assert st.taken + [st.queue[0]] <= st.taken + st.queue; }
  }

  /** In every run frames come out in the order of submission unless one is taken
      after another was taken while more than two were held. */
  lemma {:induction false} TakenInOrder(ops: seq<Op>)
    requires !TakenAfter(ops)
    ensures var st := StationRun(ops); st.taken <= st.accepted && (!CrowdedOnce(ops) ==> InOrder(st))
  {
    if ops != [] {
      var n := |ops| - 1;
      var before, op := ops[..n], ops[n];
      assert ops == before + [op];
      CrowdedGrows(before, op);
      TakenGrows(before, op);
      var st := StationRun(before);
      AcceptedStep(st, op);
      TakenInOrder(before);
      hide CrowdedOnce, TakenAfter;
      hide StationStep;
      if !CrowdedOnce(before) && !Crowded(st, op) {
        OrderKept(st, op);
      } else {
        TakenStep(st, op);
      }
    }
  }

  /** What a caller sees: over distinct frames they come out in the order of
      submission exactly when none is taken after one was taken while more than two
      were held; without such a take they do in every run. */
  lemma TakenIff(ops: seq<Op>)
    ensures var st := StationRun(ops);
            && (!TakenAfter(ops) ==> st.taken <= st.accepted)
            && (Distinct(st.accepted) ==> (st.taken <= st.accepted <==> !TakenAfter(ops)))
  {
    hide StationRun, TakenAfter;
    if !TakenAfter(ops) {
      TakenInOrder(ops);
    } else if Distinct(StationRun(ops).accepted) {
      ThreeStates(ops);
    }
  }

  function Reads(f: seq<Byte>): Op {
    Receive(Poll(f, 0, 0))
  }

  /** For instance, of three frames read one by one the last comes out second. */
  lemma ReorderExample()
    ensures var a, b, c := Frame(0, []), Frame(1, []), Frame(2, []);
            StationRun([Reads(a), Reads(b), Reads(c), Take, Take]).taken == [a, c]
  {
    var a, b, c := Frame(0, []), Frame(1, []), Frame(2, []);
    hide StationRun, StationStep, IsFrame, Reads;
    ThreeHeld(a, b, c);
    FiveOps(Reads(a), Reads(b), Reads(c), Take, Take);
  }

  lemma FiveOps(o1: Op, o2: Op, o3: Op, o4: Op, o5: Op)
    ensures StationRun([o1, o2, o3, o4, o5])
         == StationStep(StationStep(StationStep(StationStep(StationStep(EMPTY, o1), o2), o3), o4), o5)
  {
    hide StationRun, StationStep;
    ThreeOps(o1, o2, o3);
    OneAfter([o1, o2, o3], o4);
    assert [o1, o2, o3] + [o4] == [o1, o2, o3, o4];
    OneAfter([o1, o2, o3, o4], o5);
    assert [o1, o2, o3, o4] + [o5] == [o1, o2, o3, o4, o5];
  }

  lemma ThreeOps(o1: Op, o2: Op, o3: Op)
    ensures StationRun([o1, o2, o3]) == StationStep(StationStep(StationStep(EMPTY, o1), o2), o3)
  {
    hide StationRun, StationStep;
    OneAfter([], o1);
    assert [] + [o1] == [o1];
    OneAfter([o1], o2);
    assert [o1] + [o2] == [o1, o2];
    OneAfter([o1, o2], o3);
    assert [o1, o2] + [o3] == [o1, o2, o3];
  }

  lemma ThreeHeld(a: seq<Byte>, b: seq<Byte>, c: seq<Byte>)
    requires IsFrame(a) && IsFrame(b) && IsFrame(c)
    ensures var st := StationStep(StationStep(StationStep(EMPTY, Reads(a)), Reads(b)), Reads(c));
            var t := StationStep(StationStep(st, Take), Take);
            t.taken == [a, c]
  {
    hide IsFrame;
    WholeRead(EMPTY, Poll(a, 0, 0));
    var s1 := StationStep(EMPTY, Reads(a));
    WholeRead(s1, Poll(b, 0, 0));
    var s2 := StationStep(s1, Reads(b));
    WholeRead(s2, Poll(c, 0, 0));
    hide PollStep, FrameFound;
    var s3 := StationStep(s2, Reads(c));
    assert s3.queue == [a, b, c] && s3.taken == [];
    assert StationStep(s3, Take).queue == [c, b] && StationStep(s3, Take).taken == [a];
  }

  // ----- A heap of equals -----

  /** The values in slots 1 to `n`. */
  ghost function Values(s: seq<Node<seq<Byte>>>, n: nat): (vs: seq<seq<Byte>>)
    requires n < |s|
    ensures |vs| == n && forall i :: 0 <= i < n ==> vs[i] == s[1..n + 1][i].value
  {
    seq(n, i requires 0 <= i < n => s[i + 1].value)
  }

  lemma ValuesInsert(s: seq<Node<seq<Byte>>>, n: nat, node: Node<seq<Byte>>)
    requires Level(s, n, node.prior) && n + 1 < |s|
    ensures Level(Inserted(s, n, node), n + 1, node.prior)
    ensures Values(Inserted(s, n, node), n + 1) == Values(s, n) + [node.value]
  {
    LevelInsert(s, n, node);
    hide Inserted, Level;
  }

  lemma ValuesRemove(s: seq<Node<seq<Byte>>>, n: nat, prior: int)
    requires Level(s, n, prior) && n >= 1
    ensures Level(Removed(s, n), n - 1, prior)
    ensures Values(s, n)[0] == s[1].value && Values(Removed(s, n), n - 1) == Refilled(Values(s, n))
  {
    LevelRemove(s, n, prior);
    hide Removed, Level;
  }

  /** An eight-slot queue in which every frame has priority `id`. */
  ghost predicate Uniform(q: PriorityQueue<seq<Byte>>, id: int)
    reads q, q.nodes
  {
    q.Valid() && q.capacity == 8 && Level(q.nodes[..], q.count, id)
  }

  /** Its frames, slot by slot. */
  ghost function Slots(q: PriorityQueue<seq<Byte>>, id: int): (r: seq<seq<Byte>>)
    reads q, q.nodes
    requires Uniform(q, id)
    ensures |r| == q.count <= 8
  {
    Values(q.nodes[..], q.count)
  }

  method Put(q: PriorityQueue<seq<Byte>>, id: int, frame: seq<Byte>) returns (ok: bool)
    requires Uniform(q, id)
    modifies q, q.nodes
    ensures Uniform(q, id) && ok == (|old(Slots(q, id))| < 8)
    ensures Slots(q, id) == if ok then old(Slots(q, id)) + [frame] else old(Slots(q, id))
  {
    hide Inserted, IsHeap, Held, Level, Values;
    if q.count < CAPACITY { ValuesInsert(q.nodes[..], q.count, Node(id, frame)); }
    ok := q.Insert(frame, id);
  }

  method Get(q: PriorityQueue<seq<Byte>>, id: int) returns (frame: Option<seq<Byte>>)
    requires Uniform(q, id)
    modifies q, q.nodes
    ensures Uniform(q, id)
    ensures var was := old(Slots(q, id));
            if was == [] then frame == None && Slots(q, id) == []
            else frame == Some(was[0]) && Slots(q, id) == Refilled(was)
  {
    hide Removed, IsHeap, Held, Level, Values, Refilled;
    if q.Empty() { return None; }
    ValuesRemove(q.nodes[..], q.count, id);
    var ok, node := q.DelMin();
    frame := Some(node.value);
  }

  // ----- The transceiver -----

  class Transceiver {
    const id: int
    const rxqueue: PriorityQueue<seq<Byte>>
    var buffer: seq<Byte>
    ghost var pieces: seq<Piece>
    ghost var accepted: seq<seq<Byte>>
    ghost var lost: seq<seq<Byte>>
    ghost var taken: seq<seq<Byte>>

    ghost predicate Valid()
      reads this, rxqueue, rxqueue.nodes
    {
      Uniform(rxqueue, id)
    }

    ghost function View(): Station
      reads this, rxqueue, rxqueue.nodes
      requires Valid()
    {
      Station(Rx(buffer, pieces), Slots(rxqueue, id), accepted, lost, taken)
    }

    constructor (id: int)
      ensures Valid() && fresh(rxqueue) && fresh(rxqueue.nodes) && View() == EMPTY
    {
      this.id := id;
      rxqueue := new PriorityQueue<seq<Byte>>(CAPACITY);
      buffer, pieces, accepted, lost, taken := [], [], [], [], [];
    }

    /** tcvr_buffer_submit, whose result the caller ignores. */
    method SubmitFrame(length: nat)
      requires Valid() && length <= |buffer|
      modifies this`accepted, this`lost, rxqueue, rxqueue.nodes
      ensures Valid() && View() == Submit(old(View()), buffer[..length])
    {
      hide Uniform, Slots;
      var frame := buffer[..length];
      var ok := Put(rxqueue, id, frame);
      if ok { accepted := accepted + [frame]; } else { lost := lost + [frame]; }
    }

    /** uart_rx with LiteTalk as the bound protocol. */
    method Poll(input: seq<Byte>, stale1: Byte, stale2: Byte)
      requires Valid()
      modifies this, rxqueue, rxqueue.nodes
      ensures Valid() && View() == StationStep(old(View()), Receive(LiteTalk.Poll(input, stale1, stale2)))
    {
      hide Uniform, Slots, ScanLength;
      if input == [] && buffer == [] { return; }
      buffer := buffer + input;
      match Match(buffer) {
        case Found(n) =>
          SubmitFrame(n);
          pieces := pieces + [Submitted(buffer[..n])];
          buffer := buffer[n..];
        case Unfinished =>
        case Mismatch =>
          var n := Scan(buffer + [stale1, stale2], |buffer|);
          pieces := pieces + [Dropped(buffer[..n])];
          buffer := buffer[n..];
      }
    }

    /** cmder_protocol_poll up to the frame it hands on. */
    method TakeFrame() returns (frame: Option<seq<Byte>>)
      requires Valid()
      modifies this`taken, rxqueue, rxqueue.nodes
      ensures Valid() && View() == StationStep(old(View()), Take)
      ensures frame == if old(View()).queue == [] then None else Some(old(View()).queue[0])
    {
      hide Uniform, Slots, Refilled;
      frame := Get(rxqueue, id);
      if frame.Some? { taken := taken + [frame.value]; }
    }
  }
}
