/** Resynchronisation of uart_rx over every split: garbage in front of a stream of
    LiteTalk frames. */
module LiteTalkSync {
  import opened Bytes
  import opened LiteTalk

  // ----- Dropping the garbage -----

  predicate AllDropped(ps: seq<Piece>) {
    forall i :: 0 <= i < |ps| ==> ps[i].Dropped?
  }

  /** A stream of garbage `g` and frames `fs`: no mark begins inside the garbage. */
  predicate Stream(g: seq<Byte>, fs: seq<seq<Byte>>) {
    fs != [] && AllFrames(fs) && Unmarked(g + fs[0], |g|)
  }

  /** Only garbage has arrived, and only garbage was dropped. */
  predicate Searching(rx: Rx, g: seq<Byte>, received: seq<Byte>) {
    |received| <= |g| && AllDropped(rx.pieces) && AllBytes(rx.pieces) + rx.buffer == received
  }

  /** The pieces are the garbage, dropped, and then the first frames; `r` has been
      received behind the garbage. */
  ghost predicate Following(rx: Rx, g: seq<Byte>, fs: seq<seq<Byte>>, base: seq<Piece>, ps: seq<Piece>, r: seq<Byte>) {
    && rx.pieces == base + ps && AllDropped(base) && AllBytes(base) == g
    && Reading(Rx(rx.buffer, ps), fs, |ps|, r)
  }

  /** No read ends inside the first mark. */
  ghost predicate Uncut(polls: seq<Poll>, n: nat) {
    forall k :: 0 <= k <= |polls| ==> !(n < |Received(polls[..k])| < n + 4)
  }

  /** The stream shows its first mark right behind the garbage and not before. */
  lemma StreamMark(g: seq<Byte>, fs: seq<seq<Byte>>, d: nat, r: seq<Byte>)
    requires Stream(g, fs) && d < |g| && r <= Concat(fs) && (r == [] || |r| >= 4)
    ensures var b := g[d..] + r;
            && (|b| >= 4 ==> b[..4] != MARK)
            && (|r| >= 4 ==> Unmarked(b, |g| - d) && MarkAt(b, |g| - d))
  {
    var f, b := fs[0], g[d..] + r;
    var all := g + f;
    assert IsFrame(f) && Concat(fs) == f + Concat(fs[1..]);
    hide Concat;
    var m := if |r| < |f| then |r| else |f|;
    assert forall i :: 0 <= i < m ==> r[i] == Concat(fs)[i] == f[i];
    forall i | 0 <= i < |g| - d && i + 4 <= |b|
      ensures !MarkAt(b, i)
    {
      assert !MarkAt(all, d + i);
      assert b[i..i + 4] == all[d + i..d + i + 4];
    }
    if |b| >= 4 { assert !MarkAt(b, 0) && b[0..4] == b[..4]; }
    if |r| >= 4 {
      assert b[|g| - d..|g| - d + 4] == r[..4] == f[..4];
    }
  }

  /** With nothing but garbage read, a poll drops some of it or waits. */
  lemma SearchOn(rx: Rx, p: Poll, g: seq<Byte>, fs: seq<seq<Byte>>, received: seq<Byte>)
    requires Stream(g, fs) && Searching(rx, g, received) && received + p.input <= g
    ensures Searching(PollStep(rx, p), g, received + p.input)
  {
    var d, b := |AllBytes(rx.pieces)|, rx.buffer + p.input;
    PollConserves(rx, p);
    Joined(AllBytes(rx.pieces), rx.buffer, p.input);
    hide AllBytes;
    if |b| >= 4 {
      assert AllBytes(rx.pieces) + b <= g;
      InsideGarbage(g, fs, AllBytes(rx.pieces), b);
    }
    hide Stream;
  }

  lemma Joined(x: seq<Byte>, y: seq<Byte>, z: seq<Byte>)
    ensures x + (y + z) == (x + y) + z
  {
  }

  lemma InsideGarbage(g: seq<Byte>, fs: seq<seq<Byte>>, x: seq<Byte>, b: seq<Byte>)
    requires Stream(g, fs) && x + b <= g && |b| >= 4
    ensures b[..4] != MARK
  {
    StreamMark(g, fs, |x|, []);
    assert g[|x|..] + [] == g[|x|..];
    assert (x + b)[|x|..] == b && g[..|x + b|] == x + b;
    assert g[|x|..][..4] == b[..4];
  }

  /** Once the mark is in, one poll drops exactly the garbage that is left. */
  lemma SearchEnds(rx: Rx, p: Poll, g: seq<Byte>, fs: seq<seq<Byte>>, received: seq<Byte>)
    requires Stream(g, fs) && Searching(rx, g, received) && |AllBytes(rx.pieces)| < |g|
    requires received + p.input <= g + Concat(fs) && |received + p.input| >= |g| + 4
    ensures var left := g[|AllBytes(rx.pieces)|..];
            && Following(PollStep(rx, p), g, fs, rx.pieces + [Dropped(left)], [], (received + p.input)[|g|..])
            && g <= received + p.input
  {
    var x, b, all := AllBytes(rx.pieces), rx.buffer + p.input, received + p.input;
    Joined(x, rx.buffer, p.input);
    var r := all[|g|..];
    SplitAt(g, Concat(fs), x, b);
    var left := g[|x|..];
    assert b == left + r && r <= Concat(fs);
    StreamMark(g, fs, |x|, r);
    SkipLeft(rx, p, left, r);
    var ps := rx.pieces + [Dropped(left)];
    DroppedMore(rx.pieces, left);
    assert x + left == g && ps + [] == ps;
    StartReading(r, fs);
    hide Stream, Reading, AllBytes;
  }

  lemma SplitAt(g: seq<Byte>, more: seq<Byte>, x: seq<Byte>, b: seq<Byte>)
    requires x + b <= g + more && |x| <= |g| <= |x + b|
    ensures var r := (x + b)[|g|..]; x == g[..|x|] && b == g[|x|..] + r && r <= more && g <= x + b
  {
    var all := g + more;
    assert all[..|x + b|] == x + b;
    assert x == all[..|x|] && all[..|g|] == g;
    assert b == all[|x|..|x + b|];
    assert (x + b)[|g|..] == all[|g|..|x + b|] && all[|g|..] == more;
  }

  lemma StartReading(r: seq<Byte>, fs: seq<seq<Byte>>)
    ensures Reading(Rx(r, []), fs, 0, r)
  {
    assert fs[..0] == [] && [] + r == r;
  }

  lemma DroppedMore(ps: seq<Piece>, left: seq<Byte>)
    requires AllDropped(ps)
    ensures AllDropped(ps + [Dropped(left)]) && AllBytes(ps + [Dropped(left)]) == AllBytes(ps) + left
  {
    BytesAppend(ps, Dropped(left));
  }

  lemma SkipLeft(rx: Rx, p: Poll, left: seq<Byte>, r: seq<Byte>)
    requires rx.buffer + p.input == left + r && left != [] && |r| >= 4
    requires (left + r)[..4] != MARK && Unmarked(left + r, |left|) && MarkAt(left + r, |left|)
    ensures PollStep(rx, p) == Rx(r, rx.pieces + [Dropped(left)])
  {
    var b := left + r;
    var mem := Memory(b, p);
    forall i | 0 <= i < |left|
      ensures !MarkAt(mem, i)
    {
      assert !MarkAt(b, i) && mem[i..i + 4] == b[i..i + 4];
    }
    assert mem[|left|..|left| + 4] == b[|left|..|left| + 4];
    assert MarkAt(mem, |left|);
    FirstMarkIs(mem, |b|, 0);
    assert ScanLength(mem, |b|) == |left|;
    hide MarkAt, FirstMark, ScanLength, Unmarked;
    assert b[..|left|] == left && b[|left|..] == r;
  }

  // ----- Following the frames -----

  lemma PieceShift(b: seq<Byte>, base: seq<Piece>, ps: seq<Piece>, p: Poll)
    ensures var r := PollStep(Rx(b, ps), p); PollStep(Rx(b, base + ps), p) == Rx(r.buffer, base + r.pieces)
  {
    hide Match, ScanLength, Memory;
    var r := PollStep(Rx(b, ps), p);
    if |r.pieces| > |ps| { assert base + (ps + [r.pieces[|ps|]]) == (base + ps) + [r.pieces[|ps|]]; }
  }

  /** On the frames a poll submits the next one exactly when it is complete. */
  lemma FollowOn(rx: Rx, p: Poll, g: seq<Byte>, fs: seq<seq<Byte>>, base: seq<Piece>, ps: seq<Piece>, r: seq<Byte>)
    requires AllFrames(fs) && Following(rx, g, fs, base, ps, r) && r + p.input <= Concat(fs)
    ensures var ps' := PollStep(Rx(rx.buffer, ps), p).pieces;
            && Following(PollStep(rx, p), g, fs, base, ps', r + p.input) && |ps| <= |fs|
            && |ps'| == if |ps| < |fs| && |Concat(fs[..|ps|])| + |fs[|ps|]| <= |r + p.input| then |ps| + 1 else |ps|
  {
    hide PollStep, AllFrames, Concat, AllBytes, Reading, AllDropped;
    var k := |ps|;
    ReadingCount(Rx(rx.buffer, ps), fs, k, r);
    PollReads(Rx(rx.buffer, ps), p, fs, k, r);
    PieceShift(rx.buffer, base, ps, p);
    assert rx == Rx(rx.buffer, base + ps);
    var after := PollStep(Rx(rx.buffer, ps), p);
    var done := k < |fs| && |Concat(fs[..k])| + |fs[k]| <= |r + p.input|;
    ReadingCount(after, fs, if done then k + 1 else k, r + p.input);
    assert after == Rx(after.buffer, after.pieces);
  }

  lemma ReadingCount(rx: Rx, fs: seq<seq<Byte>>, k: nat, received: seq<Byte>)
    requires Reading(rx, fs, k, received)
    ensures |rx.pieces| == k <= |fs|
  {
  }

  lemma TailPrefix(g: seq<Byte>, r: seq<Byte>, input: seq<Byte>, more: seq<Byte>)
    requires (g + r) + input <= g + more
    ensures r + input <= more && g <= (g + r) + input
  {
    assert (g + r) + input == g + (r + input);
    AfterHead(g, r + input, more);
  }

  // ----- Every split -----

  /** The garbage is behind, and the frames are followed. */
  ghost predicate Behind(rx: Rx, g: seq<Byte>, fs: seq<seq<Byte>>, received: seq<Byte>) {
    g <= received && exists base, ps :: Following(rx, g, fs, base, ps, received[|g|..])
  }

  ghost predicate Synced(rx: Rx, g: seq<Byte>, fs: seq<seq<Byte>>, received: seq<Byte>) {
    if |received| <= |g| then Searching(rx, g, received) else Behind(rx, g, fs, received)
  }

  lemma SyncStep(rx: Rx, p: Poll, g: seq<Byte>, fs: seq<seq<Byte>>, received: seq<Byte>)
    requires Stream(g, fs) && Synced(rx, g, fs, received) && received + p.input <= g + Concat(fs)
    requires |received + p.input| <= |g| || |received + p.input| >= |g| + 4
    ensures Synced(PollStep(rx, p), g, fs, received + p.input)
  {
    var all := received + p.input;
    hide PollStep, Stream, Searching, Behind;
    if |all| <= |g| {
      Within(all, g, Concat(fs));
      SearchOn(rx, p, g, fs, received);
    } else if |received| > |g| {
      StreamFrames(g, fs);
      BehindOn(rx, p, g, fs, received);
    } else {
      SearchLast(rx, p, g, fs, received);
    }
  }

  lemma BehindOn(rx: Rx, p: Poll, g: seq<Byte>, fs: seq<seq<Byte>>, received: seq<Byte>)
    requires AllFrames(fs) && Behind(rx, g, fs, received) && received + p.input <= g + Concat(fs)
    ensures Behind(PollStep(rx, p), g, fs, received + p.input)
  {
    hide PollStep, AllFrames, Concat, Following;
    var r := received[|g|..];
    var base, ps :| Following(rx, g, fs, base, ps, r);
    assert received == g + r;
    TailPrefix(g, r, p.input, Concat(fs));
    FollowOn(rx, p, g, fs, base, ps, r);
    assert (received + p.input)[|g|..] == r + p.input;
  }

  lemma Within(x: seq<Byte>, g: seq<Byte>, more: seq<Byte>)
    requires x <= g + more && |x| <= |g|
    ensures x <= g
  {
    assert (g + more)[..|x|] == g[..|x|];
  }

  lemma StreamFrames(g: seq<Byte>, fs: seq<seq<Byte>>)
    requires Stream(g, fs)
    ensures AllFrames(fs)
  {
  }

  lemma SearchLast(rx: Rx, p: Poll, g: seq<Byte>, fs: seq<seq<Byte>>, received: seq<Byte>)
    requires Stream(g, fs) && Searching(rx, g, received)
    requires received + p.input <= g + Concat(fs) && |received + p.input| >= |g| + 4
    ensures Behind(PollStep(rx, p), g, fs, received + p.input)
  {
    hide Following, Stream;
    if |AllBytes(rx.pieces)| < |g| {
      SearchEnds(rx, p, g, fs, received);
    } else {
      SplitAt(g, Concat(fs), received, p.input);
      StreamFrames(g, fs);
      AllSearched(rx, g, fs, received);
      BehindOn(rx, p, g, fs, received);
    }
  }

  lemma AllSearched(rx: Rx, g: seq<Byte>, fs: seq<seq<Byte>>, received: seq<Byte>)
    requires Searching(rx, g, received) && |AllBytes(rx.pieces)| >= |g| && received <= g
    ensures Behind(rx, g, fs, received)
  {
    assert rx.buffer == [] && AllBytes(rx.pieces) == received == g;
    StartReading([], fs);
    assert received[|g|..] == [] && rx.pieces + [] == rx.pieces;
    assert Following(rx, g, fs, rx.pieces, [], received[|g|..]);
  }

  /** However garbage and frames are split into reads, as long as no read ends inside
      the first mark: at every moment only garbage has been dropped, and then the
      pieces are exactly the garbage followed by the first frames, whole and in
      order. */
  lemma {:induction false} SyncRun(polls: seq<Poll>, g: seq<Byte>, fs: seq<seq<Byte>>)
    requires Stream(g, fs) && Received(polls) <= g + Concat(fs) && Uncut(polls, |g|)
    ensures Synced(RunPolls(polls), g, fs, Received(polls))
  {
    if polls != [] {
      var n := |polls| - 1;
      var before, p := polls[..n], polls[n];
      assert polls == before + [p];
      OneMore(before, p);
      UncutBefore(polls, |g|);
      PrefixOf(Received(before), p.input, g + Concat(fs));
      SyncRun(before, g, fs);
      hide RunPolls, Received, Stream, Synced;
      SyncStep(RunPolls(before), p, g, fs, Received(before));
    }
  }

  lemma UncutBefore(polls: seq<Poll>, n: nat)
    requires polls != [] && Uncut(polls, n)
    ensures Uncut(polls[..|polls| - 1], n) && !(n < |Received(polls)| < n + 4)
  {
    hide Received;
    var before := polls[..|polls| - 1];
    assert forall k :: 0 <= k <= |before| ==> before[..k] == polls[..k];
    assert polls[..|polls|] == polls;
  }

  /** Once all bytes are in, each poll submits one more frame. */
  lemma {:induction false} SyncDrain(polls: seq<Poll>, more: seq<Poll>, g: seq<Byte>, fs: seq<seq<Byte>>)
    returns (base: seq<Piece>, ps: seq<Piece>)
    requires Stream(g, fs) && Received(polls) == g + Concat(fs) && Uncut(polls, |g|)
    requires forall i :: 0 <= i < |more| ==> more[i].input == []
    ensures Following(RunPolls(polls + more), g, fs, base, ps, Concat(fs))
    ensures |ps| >= if |more| < |fs| then |more| else |fs|
  {
    hide RunPolls, Received, PollStep, Following, Uncut;
    if more == [] {
      assert polls + more == polls;
      SyncRun(polls, g, fs);
      FirstFrame(g, fs);
      assert (g + Concat(fs))[|g|..] == Concat(fs);
      base, ps :| Following(RunPolls(polls), g, fs, base, ps, Concat(fs));
    } else {
      var m := |more| - 1;
      var before := polls + more[..m];
      assert polls + more == before + [more[m]];
      base, ps := SyncDrain(polls, more[..m], g, fs);
      OneMore(before, more[m]);
      assert Concat(fs) + more[m].input == Concat(fs);
      var k := |ps|;
      StreamFrames(g, fs);
      hide Stream;
      FollowOn(RunPolls(before), more[m], g, fs, base, ps, Concat(fs));
      if k < |fs| { HeadFits(fs, k); }
      ps := PollStep(Rx(RunPolls(before).buffer, ps), more[m]).pieces;
    }
  }

  lemma FirstFrame(g: seq<Byte>, fs: seq<seq<Byte>>)
    requires Stream(g, fs)
    ensures |g + Concat(fs)| >= |g| + 4
  {
    assert IsFrame(fs[0]) && Concat(fs) == fs[0] + Concat(fs[1..]);
  }

  /** Garbage and frames, however split as long as no read ends inside the first mark:
      polling on until as many polls have passed as there are frames submits exactly
      the frames, drops exactly the garbage and leaves nothing behind. */
  lemma ResyncEverySplit(polls: seq<Poll>, more: seq<Poll>, g: seq<Byte>, fs: seq<seq<Byte>>)
    requires Stream(g, fs) && Received(polls) == g + Concat(fs) && Uncut(polls, |g|)
    requires |more| >= |fs| && forall i :: 0 <= i < |more| ==> more[i].input == []
    ensures var rx := RunPolls(polls + more);
            && SubmittedOf(rx.pieces) == fs && rx.buffer == []
            && exists base, ps :: |ps| == |fs| && Following(rx, g, fs, base, ps, Concat(fs))
  {
    var base, ps := SyncDrain(polls, more, g, fs);
    hide RunPolls, Received;
    AllFollowed(RunPolls(polls + more), g, fs, base, ps);
    hide Following;
  }

  lemma AllFollowed(rx: Rx, g: seq<Byte>, fs: seq<seq<Byte>>, base: seq<Piece>, ps: seq<Piece>)
    requires Following(rx, g, fs, base, ps, Concat(fs)) && |ps| >= |fs|
    ensures SubmittedOf(rx.pieces) == fs && rx.buffer == [] && |ps| == |fs|
  {
    hide Concat, AllBytes, AllDropped, Reading, SubmittedOf;
    ReadingCount(Rx(rx.buffer, ps), fs, |ps|, Concat(fs));
    ReadAll(rx.buffer, ps, fs);
    NoneSubmitted(base, ps);
  }

  lemma ReadAll(b: seq<Byte>, ps: seq<Piece>, fs: seq<seq<Byte>>)
    requires Reading(Rx(b, ps), fs, |fs|, Concat(fs))
    ensures SubmittedOf(ps) == fs && b == []
  {
    hide Concat, SubmittedOf;
    assert fs[..|fs|] == fs;
    assert |Concat(fs) + b| == |Concat(fs)|;
    AllSubmitted(ps, fs);
  }

  lemma {:induction false} NoneSubmitted(base: seq<Piece>, ps: seq<Piece>)
    requires AllDropped(base)
    ensures SubmittedOf(base + ps) == SubmittedOf(ps)
    decreases |base| + |ps|
  {
    if ps == [] {
      assert base + ps == base;
      if base != [] {
        var n := |base| - 1;
        NoneSubmitted(base[..n], []);
        assert base[..n] + [] == base[..n] && base == base[..n] + [base[n]];
        SubmittedAppend(base[..n], base[n]);
      }
    } else {
      var n := |ps| - 1;
      NoneSubmitted(base, ps[..n]);
      assert base + ps == (base + ps[..n]) + [ps[n]] && ps == ps[..n] + [ps[n]];
      SubmittedAppend(base + ps[..n], ps[n]);
      SubmittedAppend(ps[..n], ps[n]);
    }
  }
}
