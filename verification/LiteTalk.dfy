/** LiteTalk framing: application/cmder/proto-litetalk.c (match, scan and the
    frame builders) and uart_rx of application/cmder/cmder.c. */
module LiteTalk {
  import opened Bytes
  import opened Words

  const MARK: seq<Byte> := [0x13, 0x35, 0x67, 0x89]
  const HEADERLEN: nat := 10

  function Be32(b: seq<Byte>): nat
    requires |b| == 4
  {
    ((b[0] as int * 256 + b[1]) * 256 + b[2]) * 256 + b[3]
  }

  function ToBe16(v: int): (b: seq<Byte>)
    ensures |b| == 2
  {
    [v / 256 % 256, v % 256]
  }

  function ToBe32(v: int): (b: seq<Byte>)
    ensures |b| == 4
  {
    [v / 0x100_0000 % 256, v / 0x1_0000 % 256, v / 256 % 256, v % 256]
  }

  /** The first byte of a field is the most significant one. */
  lemma Be16Weights(v: int)
    requires 0 <= v < 0x1_0000
    ensures var b := ToBe16(v); b[0] as int * 256 + b[1] as int == v
  {
  }

  lemma Be32Inverse(v: int)
    requires 0 <= v < TWO_32
    ensures Be32(ToBe32(v)) == v
    ensures var b := ToBe32(v);
            b[0] as int * 0x100_0000 + b[1] as int * 0x1_0000 + b[2] as int * 256 + b[3] as int == v
  {
    assert v / 0x1_0000 == v / 256 / 256 && v / 0x100_0000 == v / 256 / 256 / 256;
  }

  // ----- Matching and scanning -----

  datatype Matched = Found(rlen: nat) | Unfinished | Mismatch

  /** litetalk_match: the sum of the length field and the header length is a
      32-bit one. */
  function Match(b: seq<Byte>): Matched {
    if |b| < 4 then Unfinished
    else if b[..4] != MARK then Mismatch
    else if |b| < HEADERLEN then Unfinished
    else
      var total := (Be32(b[6..10]) + HEADERLEN) % TWO_32;
      if |b| < total then Unfinished else Found(total)
  }

  /** The memory from position `i` on reads as the mark. */
  predicate MarkAt(mem: seq<Byte>, i: int) {
    0 <= i <= |mem| - 4 && mem[i..i + 4] == MARK
  }

  /** litetalk_scan.  The last probes look at two bytes beyond the received ones. */
  method Scan(mem: seq<Byte>, len: nat) returns (rlen: nat)
    requires |mem| == len + 2
    ensures rlen == ScanLength(mem, len)
  {
    if len < 4 { return 0; }
    var pos := 0;
    while pos != len - 1
      invariant 0 <= pos <= len - 1
      invariant forall i :: 0 <= i < pos ==> !MarkAt(mem, i)
      invariant FirstMark(mem, len, 0) == FirstMark(mem, len, pos)
    {
      if MarkAt(mem, pos) { break; }
      pos := pos + 1;
    }
    rlen := if pos == len - 1 then len else pos;
  }

  function FirstMark(mem: seq<Byte>, len: nat, from: nat): (n: nat)
    requires from < len
    ensures from <= n <= len
    decreases len - from
  {
    if from == len - 1 then len else if MarkAt(mem, from) then from else FirstMark(mem, len, from + 1)
  }

  function ScanLength(mem: seq<Byte>, len: nat): (n: nat)
    ensures n <= len
  {
    if len < 4 then 0 else FirstMark(mem, len, 0)
  }

  /** The scan finds the first mark, and takes everything when there is none. */
  lemma {:induction false} FirstMarkIs(mem: seq<Byte>, len: nat, from: nat)
    requires from < len
    ensures var n := FirstMark(mem, len, from);
            && (forall i :: from <= i < n && i < len - 1 ==> !MarkAt(mem, i))
            && (n == len || (from <= n < len - 1 && MarkAt(mem, n)))
    decreases len - from
  {
    if from != len - 1 && !MarkAt(mem, from) { FirstMarkIs(mem, len, from + 1); }
  }

  // ----- uart_rx -----

  /** What became of received bytes that left the buffer. */
  datatype Piece = Submitted(bytes: seq<Byte>) | Dropped(bytes: seq<Byte>)

  datatype Rx = Rx(buffer: seq<Byte>, pieces: seq<Piece>)

  /** One call: the bytes the read returned, and the two bytes of memory that
      happen to follow them. */
  datatype Poll = Poll(input: seq<Byte>, stale1: Byte, stale2: Byte)

  function Memory(b: seq<Byte>, p: Poll): seq<Byte> {
    b + [p.stale1, p.stale2]
  }

  function PollStep(rx: Rx, p: Poll): Rx {
    var b := rx.buffer + p.input;
    match Match(b)
    case Found(n) => Rx(b[n..], rx.pieces + [Submitted(b[..n])])
    case Unfinished => Rx(b, rx.pieces)
    case Mismatch =>
      var n := ScanLength(Memory(b, p), |b|);
      Rx(b[n..], rx.pieces + [Dropped(b[..n])])
  }

  /** The frames submitted, in order. */
  function SubmittedOf(ps: seq<Piece>): seq<seq<Byte>> {
    if ps == [] then []
    else
      var n := |ps| - 1;
      SubmittedOf(ps[..n]) + (if ps[n].Submitted? then [ps[n].bytes] else [])
  }

  lemma SubmittedAppend(ps: seq<Piece>, p: Piece)
    ensures SubmittedOf(ps + [p]) == SubmittedOf(ps) + if p.Submitted? then [p.bytes] else []
  {
    assert (ps + [p])[..|ps|] == ps;
  }

  // ----- Conservation, whatever arrives -----

  function RunPolls(polls: seq<Poll>): Rx {
    if polls == [] then Rx([], []) else PollStep(RunPolls(polls[..|polls| - 1]), polls[|polls| - 1])
  }

  function Received(polls: seq<Poll>): seq<Byte> {
    if polls == [] then [] else Received(polls[..|polls| - 1]) + polls[|polls| - 1].input
  }

  function AllBytes(ps: seq<Piece>): seq<Byte> {
    if ps == [] then [] else AllBytes(ps[..|ps| - 1]) + ps[|ps| - 1].bytes
  }

  lemma BytesAppend(ps: seq<Piece>, p: Piece)
    ensures AllBytes(ps + [p]) == AllBytes(ps) + p.bytes
  {
    assert (ps + [p])[..|ps|] == ps;
  }

  /** Over any calls on any bytes: what left the buffer, in order, followed by the
      buffer is exactly what was received. */
  lemma {:induction false} Conservation(polls: seq<Poll>)
    ensures var rx := RunPolls(polls); AllBytes(rx.pieces) + rx.buffer == Received(polls)
  {
    if polls != [] {
      var n := |polls| - 1;
      Conservation(polls[..n]);
      PollConserves(RunPolls(polls[..n]), polls[n]);
      var rx := RunPolls(polls[..n]);
      assert AllBytes(rx.pieces) + (rx.buffer + polls[n].input) == (AllBytes(rx.pieces) + rx.buffer) + polls[n].input;
    }
  }

  lemma PollConserves(rx: Rx, p: Poll)
    ensures var after := PollStep(rx, p);
            AllBytes(after.pieces) + after.buffer == AllBytes(rx.pieces) + (rx.buffer + p.input)
  {
    var b := rx.buffer + p.input;
    var after := PollStep(rx, p);
    hide AllBytes, ScanLength;
    if Match(b) != Unfinished {
      BytesAppend(rx.pieces, after.pieces[|rx.pieces|]);
      Regroup(AllBytes(rx.pieces), b, |b| - |after.buffer|);
    }
  }

  lemma Regroup(x: seq<Byte>, b: seq<Byte>, n: nat)
    requires n <= |b|
    ensures (x + b[..n]) + b[n..] == x + b
  {
  }

  // ----- Streams of frames -----

  /** A frame: mark, category, flag, length of the content, content. */
  predicate IsFrame(f: seq<Byte>) {
    10 <= |f| < TWO_32 && f[..4] == [0x13, 0x35, 0x67, 0x89] && Be32(f[6..10]) == |f| - 10
  }

  predicate AllFrames(fs: seq<seq<Byte>>) {
    forall i :: 0 <= i < |fs| ==> IsFrame(fs[i])
  }

  /** A buffer that begins a frame matches exactly when it holds all of it. */
  lemma MatchPrefix(b: seq<Byte>, f: seq<Byte>, rest: seq<Byte>)
    requires IsFrame(f) && b <= f + rest
    ensures Match(b) == if |f| <= |b| then Found(|f|) else Unfinished
  {
    var all := f + rest;
    assert forall i :: 0 <= i < |b| ==> b[i] == all[i];
    if |b| >= 4 { assert b[..4] == f[..4]; }
    if |b| >= 10 { assert b[6..10] == f[6..10]; }
  }

  /** The first `k` frames were submitted and the buffer holds what came after. */
  ghost predicate Reading(rx: Rx, fs: seq<seq<Byte>>, k: nat, received: seq<Byte>) {
    && k <= |fs|
    && rx.pieces == seq(k, i requires 0 <= i < k => Submitted(fs[i]))
    && Concat(fs[..k]) + rx.buffer == received
  }

  /** One poll on such a stream submits the next frame exactly when the buffer
      now holds all of it, and touches nothing else. */
  lemma PollReads(rx: Rx, p: Poll, fs: seq<seq<Byte>>, k: nat, received: seq<Byte>)
    requires AllFrames(fs) && Reading(rx, fs, k, received) && received + p.input <= Concat(fs)
    ensures var done := k < |fs| && |Concat(fs[..k])| + |fs[k]| <= |received + p.input|;
            Reading(PollStep(rx, p), fs, if done then k + 1 else k, received + p.input)
  {
    var b := rx.buffer + p.input;
    var head := Concat(fs[..k]);
    assert received + p.input == head + b;
    assert fs == fs[..k] + fs[k..];
    ConcatAppend(fs[..k], fs[k..]);
    assert b <= Concat(fs[k..]) by { AfterHead(head, b, Concat(fs[k..])); }
    if k < |fs| {
      var f := fs[k];
      MatchPrefix(b, f, Concat(fs[k..][1..]));
      if |f| <= |b| {
        FrameTaken(fs, k, b);
      }
    }
  }

  lemma AfterHead(head: seq<Byte>, b: seq<Byte>, rest: seq<Byte>)
    requires head + b <= head + rest
    ensures b <= rest
  {
    assert (head + b)[|head|..] == b && (head + rest)[|head|..] == rest;
    assert (head + rest)[..|head + b|] == head + b;
    assert (head + rest)[|head|..|head + b|] == rest[..|b|];
  }

  lemma FrameTaken(fs: seq<seq<Byte>>, k: nat, b: seq<Byte>)
    requires k < |fs| && b <= Concat(fs[k..]) && |fs[k]| <= |b|
    ensures b[..|fs[k]|] == fs[k] && Concat(fs[..k + 1]) + b[|fs[k]|..] == Concat(fs[..k]) + b
  {
    var f := fs[k];
    assert Concat(fs[k..]) == f + Concat(fs[k..][1..]);
    assert b[..|f|] == f;
    assert fs[..k + 1] == fs[..k] + [f];
    ConcatOne(fs[..k], f);
    Regroup(Concat(fs[..k]), b, |f|);
  }

  /** How many frames the polls have submitted. */
  function Count(rx: Rx): nat {
    |rx.pieces|
  }

  /** Fragmentation independence, at every moment: however a stream of frames is
      split into reads, the pieces taken so far are its first frames, each whole,
      in order, and nothing is dropped. */
  lemma {:induction false} FramesInOrder(polls: seq<Poll>, fs: seq<seq<Byte>>)
    requires AllFrames(fs) && Received(polls) <= Concat(fs)
    ensures var rx := RunPolls(polls); Reading(rx, fs, Count(rx), Received(polls))
  {
    if polls != [] {
      var before := polls[..|polls| - 1];
      assert Received(before) <= Concat(fs) by { PrefixOf(Received(before), polls[|polls| - 1].input, Concat(fs)); }
      FramesInOrder(before, fs);
      PollReads(RunPolls(before), polls[|polls| - 1], fs, Count(RunPolls(before)), Received(before));
    }
  }

  lemma PrefixOf(x: seq<Byte>, y: seq<Byte>, z: seq<Byte>)
    requires x + y <= z
    ensures x <= z
  {
    assert (x + y)[..|x|] == z[..|x|];
  }

  /** Once all bytes are in, each poll submits one more frame. */
  lemma {:induction false} DrainCount(polls: seq<Poll>, more: seq<Poll>, fs: seq<seq<Byte>>)
    requires AllFrames(fs) && Received(polls) == Concat(fs)
    requires forall i :: 0 <= i < |more| ==> more[i].input == []
    ensures Received(polls + more) == Concat(fs)
    ensures Count(RunPolls(polls + more)) >= if |more| < |fs| then |more| else |fs|
  {
    hide PollStep, AllFrames, Concat, RunPolls, Received;
    if more == [] {
      assert polls + more == polls;
    } else {
      var m := |more| - 1;
      var before := polls + more[..m];
      assert polls + more == before + [more[m]];
      DrainCount(polls, more[..m], fs);
      OneMore(before, more[m]);
      DrainOne(before, more[m], fs);
      assert Received(before) + more[m].input == Concat(fs);
    }
  }

  lemma OneMore(polls: seq<Poll>, p: Poll)
    ensures RunPolls(polls + [p]) == PollStep(RunPolls(polls), p)
    ensures Received(polls + [p]) == Received(polls) + p.input
  {
    assert (polls + [p])[..|polls|] == polls;
  }

  lemma DrainOne(polls: seq<Poll>, p: Poll, fs: seq<seq<Byte>>)
    requires AllFrames(fs) && Received(polls) == Concat(fs) && p.input == []
    ensures var k := Count(RunPolls(polls));
            k <= |fs| && Count(PollStep(RunPolls(polls), p)) == if k < |fs| then k + 1 else k
  {
    FramesInOrder(polls, fs);
    hide PollStep, AllFrames, RunPolls, Received;
    var k := Count(RunPolls(polls));
    assert Received(polls) + p.input == Concat(fs);
    if k < |fs| { HeadFits(fs, k); }
    PollReads(RunPolls(polls), p, fs, k, Received(polls));
    hide Concat;
  }

  lemma HeadFits(fs: seq<seq<Byte>>, k: nat)
    requires k < |fs|
    ensures |Concat(fs[..k])| + |fs[k]| <= |Concat(fs)|
  {
    assert fs == fs[..k] + fs[k..];
    ConcatAppend(fs[..k], fs[k..]);
    assert Concat(fs[k..]) == fs[k] + Concat(fs[k..][1..]);
  }

  /** However the stream was split, polling on until as many polls have passed as
      there are frames submits exactly the frames and leaves nothing behind. */
  lemma FragmentationIndependence(polls: seq<Poll>, more: seq<Poll>, fs: seq<seq<Byte>>)
    requires AllFrames(fs) && Received(polls) == Concat(fs)
    requires |more| >= |fs| && forall i :: 0 <= i < |more| ==> more[i].input == []
    ensures var rx := RunPolls(polls + more); SubmittedOf(rx.pieces) == fs && rx.buffer == [] && |rx.pieces| == |fs|
  {
    DrainCount(polls, more, fs);
    FramesInOrder(polls + more, fs);
    var rx := RunPolls(polls + more);
    assert Count(rx) == |fs| && fs[..|fs|] == fs;
    assert |Concat(fs) + rx.buffer| == |Concat(fs)|;
    AllSubmitted(rx.pieces, fs);
  }

  lemma {:induction false} AllSubmitted(ps: seq<Piece>, fs: seq<seq<Byte>>)
    requires |ps| == |fs| && forall i :: 0 <= i < |ps| ==> ps[i] == Submitted(fs[i])
    ensures SubmittedOf(ps) == fs
  {
    if ps != [] {
      var n := |ps| - 1;
      AllSubmitted(ps[..n], fs[..n]);
      assert fs == fs[..n] + [fs[n]];
    }
  }

  // ----- Recovery from bytes that are no frame -----

  /** No mark begins inside the first `n` bytes. */
  predicate Unmarked(b: seq<Byte>, n: nat) {
    forall i :: 0 <= i < n ==> !MarkAt(b, i)
  }

  /** Garbage in front of a whole frame is dropped in one poll, and the next poll
      submits the frame. */
  lemma Resynchronise(g: seq<Byte>, f: seq<Byte>, rest: seq<Byte>, pieces: seq<Piece>, p: Poll, q: Poll)
    requires g != [] && IsFrame(f) && Unmarked(g + f, |g|) && p.input == g + f + rest && q.input == []
    ensures PollStep(PollStep(Rx([], pieces), p), q) == Rx(rest, pieces + [Dropped(g), Submitted(f)])
  {
    var b := g + f + rest;
    ScanSkips(g, f, rest, p);
    assert b[|g|..] == f + rest && b[..|g|] == g;
    MatchPrefix(f + rest, f, rest);
    hide MarkAt, ScanLength, IsFrame, Unmarked, Memory, PollStep, Match;
    Skipped(b, |g|, pieces, p);
    Taken(f, rest, pieces + [Dropped(g)], q);
    assert pieces + [Dropped(g)] + [Submitted(f)] == pieces + [Dropped(g), Submitted(f)];
  }

  lemma Skipped(b: seq<Byte>, n: nat, pieces: seq<Piece>, p: Poll)
    requires Match(b) == Mismatch && p.input == b && ScanLength(Memory(b, p), |b|) == n
    ensures PollStep(Rx([], pieces), p) == Rx(b[n..], pieces + [Dropped(b[..n])])
  {
    assert [] + p.input == b;
  }

  lemma Taken(f: seq<Byte>, rest: seq<Byte>, pieces: seq<Piece>, q: Poll)
    requires Match(f + rest) == Found(|f|) && q.input == []
    ensures PollStep(Rx(f + rest, pieces), q) == Rx(rest, pieces + [Submitted(f)])
  {
    assert (f + rest) + q.input == f + rest;
  }

  lemma ScanSkips(g: seq<Byte>, f: seq<Byte>, rest: seq<Byte>, p: Poll)
    requires g != [] && IsFrame(f) && Unmarked(g + f, |g|)
    ensures ScanLength(Memory(g + f + rest, p), |g + f + rest|) == |g| && Match(g + f + rest) == Mismatch
  {
    var b := g + f + rest;
    assert b[..4] == (g + f)[0..4] && !MarkAt(g + f, 0);
    var mem := Memory(b, p);
    forall i | 0 <= i < |g|
      ensures !MarkAt(mem, i)
    {
      assert !MarkAt(g + f, i);
      assert mem[i..i + 4] == (g + f)[i..i + 4];
    }
    assert mem[|g|..|g| + 4] == f[..4];
    assert MarkAt(mem, |g|);
    FirstMarkIs(mem, |b|, 0);
  }

  /** The first `m` bytes of a frame at the end of the buffer show its mark, with
      the help of the bytes of memory that happen to follow. */
  predicate MarkSeen(m: nat, p: Poll) {
    m >= 4 || (m == 3 && p.stale1 == 0x89) || (m == 2 && p.stale1 == 0x67 && p.stale2 == 0x89)
  }

  /** Garbage followed by the first `m` bytes of a frame: with fewer than four bytes
      in all the poll waits; otherwise it drops the garbage and keeps the frame
      exactly when its mark is seen, and drops both when the mark is cut. */
  lemma CutFrame(rx: Rx, p: Poll, g: seq<Byte>, f: seq<Byte>, m: nat)
    requires g != [] && IsFrame(f) && 1 <= m <= |f| && rx.buffer + p.input == g + f[..m]
    requires Unmarked(Memory(g + f[..m], p), |g|)
    ensures PollStep(rx, p) ==
            if |g| + m < 4 then Rx(g + f[..m], rx.pieces)
            else if MarkSeen(m, p) then Rx(f[..m], rx.pieces + [Dropped(g)])
            else Rx([], rx.pieces + [Dropped(g + f[..m])])
  {
    var b := g + f[..m];
    if |b| >= 4 {
      CutScan(p, g, f, m);
      assert b[..|g|] == g && b[|g|..] == f[..m] && b[|b|..] == [] && b[..|b|] == b;
    }
    hide IsFrame, MarkAt, ScanLength, Unmarked;
  }

  lemma CutScan(p: Poll, g: seq<Byte>, f: seq<Byte>, m: nat)
    requires g != [] && IsFrame(f) && 1 <= m <= |f| && |g| + m >= 4
    requires Unmarked(Memory(g + f[..m], p), |g|)
    ensures var b := g + f[..m];
            Match(b) == Mismatch && ScanLength(Memory(b, p), |b|) == if MarkSeen(m, p) then |g| else |b|
  {
    var b := g + f[..m];
    var mem := Memory(b, p);
    assert !MarkAt(mem, 0) && mem[0..4] == b[..4];
    FirstMarkIs(mem, |b|, 0);
    hide FirstMark, Match;
    CutMarkAt(p, g, f, m);
  }

  /** Where the memory shows a mark behind the garbage. */
  lemma CutMarkAt(p: Poll, g: seq<Byte>, f: seq<Byte>, m: nat)
    requires IsFrame(f) && 1 <= m <= |f|
    ensures var mem := Memory(g + f[..m], p);
            && (m >= 2 ==> (MarkAt(mem, |g|) <==> MarkSeen(m, p)))
            && (m == 3 ==> !MarkAt(mem, |g| + 1))
  {
    var mem := Memory(g + f[..m], p);
    assert f[..4] == MARK;
    assert f[0] == 0x13 && f[1] == 0x35 && f[2] == 0x67 && f[3] == 0x89;
    assert forall i :: 0 <= i < m ==> mem[|g| + i] == f[i];
    assert mem[|g| + m] == p.stale1 && mem[|g| + m + 1] == p.stale2;
    if m >= 2 {
      var t := mem[|g|..|g| + 4];
      assert t == [mem[|g|], mem[|g| + 1], mem[|g| + 2], mem[|g| + 3]];
    }
    if m == 3 { assert mem[|g| + 1..|g| + 5][0] == 0x35; }
  }

  /** For instance, the first three bytes of a frame, dropped with one byte before
      them. */
  lemma CutMarkLost(p: Poll)
    requires p == Poll([0, 0x13, 0x35, 0x67], 0, 0)
    ensures PollStep(Rx([], []), p) == Rx([], [Dropped([0, 0x13, 0x35, 0x67])])
  {
    var b: seq<Byte> := [0, 0x13, 0x35, 0x67];
    var f := Frame(0, []);
    assert f[..3] == [0x13, 0x35, 0x67] && [0] + f[..3] == b && [] + p.input == b;
    assert !MarkAt(Memory(b, p), 0) by { assert Memory(b, p)[0..4][0] == 0; }
    hide IsFrame, PollStep, MarkAt;
    CutFrame(Rx([], []), p, [0], f, 3);
  }

  /** A poll on a buffer that is not an unfinished frame removes at least one byte
      exactly unless a mark is followed by the length field 2^32 - 10. */
  lemma PollRemoves(rx: Rx, p: Poll)
    requires var b := rx.buffer + p.input; Match(b) != Unfinished
    ensures var b := rx.buffer + p.input;
            |PollStep(rx, p).buffer| < |b| <==> !(b[..4] == MARK && Be32(b[6..10]) == TWO_32 - HEADERLEN)
  {
    var b := rx.buffer + p.input;
    if Match(b) == Mismatch {
      var mem := Memory(b, p);
      assert mem[0..4] == b[..4];
      FirstMarkIs(mem, |b|, 0);
    } else {
      assert Be32(b[6..10]) < TWO_32;
    }
  }

  const STUCK: seq<Byte> := MARK + [0, 0, 0xff, 0xff, 0xff, 0xf6]

  /** For instance, this header is submitted as an empty frame by every poll and
      never leaves the buffer. */
  lemma StuckExample(p: Poll, pieces: seq<Piece>)
    requires p.input == []
    ensures PollStep(Rx(STUCK, pieces), p) == Rx(STUCK, pieces + [Submitted([])])
  {
    assert STUCK + p.input == STUCK && STUCK[..4] == MARK;
    assert STUCK[6..10] == [0xff, 0xff, 0xff, 0xf6];
    assert Be32(STUCK[6..10]) == TWO_32 - HEADERLEN;
  }

  // ----- The builders -----

  function Header(category: Byte, length: nat): (h: seq<Byte>)
    ensures |h| == HEADERLEN
  {
    MARK + [category, 0] + ToBe32(length)
  }

  function Frame(category: Byte, content: seq<Byte>): (f: seq<Byte>)
    requires |content| < TWO_32 - HEADERLEN
    ensures IsFrame(f) && f[10..] == content && f[4] == category && f[5] == 0
  {
    Be32Inverse(|content|);
    var f := Header(category, |content|) + content;
    assert f[6..10] == ToBe32(|content|);
    f
  }

  /** Every frame is matched with its exact length whatever bytes follow. */
  lemma FrameMatches(category: Byte, content: seq<Byte>, rest: seq<Byte>)
    requires |content| < TWO_32 - HEADERLEN
    ensures Match(Frame(category, content) + rest) == Found(HEADERLEN + |content|)
  {
    MatchPrefix(Frame(category, content) + rest, Frame(category, content), rest);
  }

  /** The buffer with `data` written at `pos`. */
  function Overwritten(b: seq<Byte>, pos: nat, data: seq<Byte>): (r: seq<Byte>)
    requires pos + |data| <= |b|
    ensures |r| == |b|
  {
    b[..pos] + data + b[pos + |data|..]
  }

  lemma OverwrittenTwice(b: seq<Byte>, pos: nat, x: seq<Byte>, y: seq<Byte>)
    requires pos + |x| + |y| <= |b|
    ensures Overwritten(Overwritten(b, pos, x), pos + |x|, y) == Overwritten(b, pos, x + y)
  {
  }

  /** A header in front of the content makes the frame, and keeps what follows. */
  lemma Framed(b: seq<Byte>, category: Byte, content: seq<Byte>)
    requires HEADERLEN + |content| <= |b| && |content| < TWO_32 - HEADERLEN
    ensures var r := Overwritten(Overwritten(b, HEADERLEN, content), 0, Header(category, |content|));
            && r[..HEADERLEN + |content|] == Frame(category, content)
            && r[HEADERLEN + |content|..] == b[HEADERLEN + |content|..]
  {
    hide Header, IsFrame;
  }

  /** Writes bytes at a position, as the pkg_push macros and memcpy do. */
  method Push(buf: array<Byte>, pos: nat, data: seq<Byte>) returns (next: nat)
    requires pos + |data| <= buf.Length
    modifies buf
    ensures next == pos + |data|
    ensures buf[..] == Overwritten(old(buf[..]), pos, data)
  {
    next := pos;
    while next < pos + |data|
      invariant pos <= next <= pos + |data|
      invariant buf[..] == old(buf[..pos]) + data[..next - pos] + old(buf[next..])
    {
      buf[next] := data[next - pos];
      next := next + 1;
    }
  }

  method PackHeader(buf: array<Byte>, category: Byte, length: nat)
    requires buf.Length >= HEADERLEN && length < TWO_32
    modifies buf
    ensures buf[..] == Overwritten(old(buf[..]), 0, Header(category, length))
  {
    hide Overwritten, ToBe32;
    ghost var o := buf[..];
    var pos := Push(buf, 0, MARK);
    pos := Push(buf, pos, [category]);
    OverwrittenTwice(o, 0, MARK, [category]);
    pos := Push(buf, pos, [0]);
    OverwrittenTwice(o, 0, MARK + [category], [0]);
    pos := Push(buf, pos, ToBe32(length));
    OverwrittenTwice(o, 0, MARK + [category] + [0], ToBe32(length));
    assert MARK + [category] + [0] == MARK + [category, 0];
  }

  const CATEGORY_COMMAND: Byte := 0
  const CATEGORY_STREAM: Byte := 1
  const CATEGORY_LOG: Byte := 2
  const STREAM_ST_ACK: Byte := 2

  method BuildCmderr(buf: array<Byte>, cmdtype: Byte, flag: Byte, code: Byte) returns (n: nat)
    requires buf.Length >= 17
    modifies buf
    ensures n == 17 && buf[..n] == Frame(0, [cmdtype, code, flag, 0, 0, 0, 0])
    ensures buf[n..] == old(buf[n..])
  {
    hide Overwritten, Header;
    ghost var o := buf[..];
    n := Push(buf, HEADERLEN, [cmdtype]);
    n := Push(buf, n, [code]);
    OverwrittenTwice(o, HEADERLEN, [cmdtype], [code]);
    n := Push(buf, n, [flag]);
    OverwrittenTwice(o, HEADERLEN, [cmdtype] + [code], [flag]);
    n := Push(buf, n, [0, 0, 0, 0]);
    OverwrittenTwice(o, HEADERLEN, [cmdtype] + [code] + [flag], [0, 0, 0, 0]);
    ghost var content := [cmdtype, code, flag, 0, 0, 0, 0];
    assert [cmdtype] + [code] + [flag] + [0, 0, 0, 0] == content;
    PackHeader(buf, CATEGORY_COMMAND, 7);
    Framed(o, CATEGORY_COMMAND, content);
  }

  lemma StreamContent(id: Byte, index: nat, code: Byte)
    requires index < 0x1_0000
    ensures [2, id] + ToBe16(index) + [code] == [2, id, index / 256, index % 256, code]
  {
  }

  method BuildStreamAck(buf: array<Byte>, id: Byte, index: nat, code: Byte) returns (length: nat)
    requires buf.Length >= 15 && index < 0x1_0000
    modifies buf
    ensures length == 15 && buf[..length] == Frame(1, [2, id, index / 256, index % 256, code])
    ensures buf[length..] == old(buf[length..])
  {
    hide Overwritten, Header, ToBe16;
    ghost var o := buf[..];
    length := Push(buf, HEADERLEN, [STREAM_ST_ACK]);
    length := Push(buf, length, [id]);
    OverwrittenTwice(o, HEADERLEN, [STREAM_ST_ACK], [id]);
    length := Push(buf, length, ToBe16(index));
    OverwrittenTwice(o, HEADERLEN, [STREAM_ST_ACK] + [id], ToBe16(index));
    length := Push(buf, length, [code]);
    OverwrittenTwice(o, HEADERLEN, [STREAM_ST_ACK] + [id] + ToBe16(index), [code]);
    ghost var content := [STREAM_ST_ACK, id] + ToBe16(index) + [code];
    assert [STREAM_ST_ACK] + [id] == [STREAM_ST_ACK, id];
    StreamContent(id, index, code);
    PackHeader(buf, CATEGORY_STREAM, length - HEADERLEN);
    Framed(o, CATEGORY_STREAM, content);
  }

  method BuildLog(buf: array<Byte>, level: Byte, src: nat, context: seq<Byte>) returns (length: nat)
    requires |context| < 0x8000_0000 && src < TWO_32 && buf.Length >= 19 + |context|
    modifies buf
    ensures length == 19 + |context|
    ensures buf[..length] == Frame(2, [0, 0, 0, 0, level] + ToBe32(src) + context)
    ensures buf[length..] == old(buf[length..])
  {
    assert ToBe32(0) == [0, 0, 0, 0];
    hide Overwritten, Header, ToBe32, IsFrame;
    ghost var o := buf[..];
    length := Push(buf, HEADERLEN, ToBe32(0));
    length := Push(buf, length, [level]);
    OverwrittenTwice(o, HEADERLEN, ToBe32(0), [level]);
    length := Push(buf, length, ToBe32(src));
    OverwrittenTwice(o, HEADERLEN, ToBe32(0) + [level], ToBe32(src));
    length := Push(buf, length, context);
    OverwrittenTwice(o, HEADERLEN, ToBe32(0) + [level] + ToBe32(src), context);
    PackHeader(buf, CATEGORY_LOG, length - HEADERLEN);
    assert ToBe32(0) + [level] == [0, 0, 0, 0, level];
    Framed(o, CATEGORY_LOG, ToBe32(0) + [level] + ToBe32(src) + context);
  }
}
