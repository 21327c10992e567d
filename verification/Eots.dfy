/** The command stream of application/benchmark/bk_eots_hd.c: bk_eots_hd_syscon
    dispatches internal and external commands from the front of a buffer, skips to
    the next header otherwise, and shifts the buffer in place. */
module Eots {
  import opened Bytes

  const SIG1: Byte := 0xa5
  const SIG2: Byte := 0x50
  const ECMD1: Byte := 0x81
  const ECMD2: Byte := 0x01
  const POSTFIX: Byte := 0xff
  const ICMD_LENGTH: nat := 6

  /** Code and length of each external command. */
  const TABLE: seq<(Byte, nat)> := [
    (0x37, 6), (0x46, 6), (0x63, 6), (0x66, 6), (0x39, 6), (0x4a, 7), (0x4c, 6), (0x0d, 6), (0x17, 6),
    (0x53, 6), (0x5b, 6), (0x5c, 6), (0x67, 6), (0x68, 8), (0x02, 6), (0x03, 6), (0x04, 6), (0x05, 6),
    (0x06, 6), (0x09, 6), (0x07, 6), (0x11, 6), (0x12, 6), (0x70, 6), (0x01, 6), (0x08, 6)]

  predicate Known(code: Byte, length: nat) {
    exists i :: 0 <= i < |TABLE| && TABLE[i] == (code, length)
  }

  lemma KnownLength(code: Byte, length: nat)
    requires Known(code, length)
    ensures 6 <= length <= 8
  {
  }

  // ----- One round, on values -----

  function Postfix(mem: seq<Byte>, max: nat, from: nat): (q: nat)
    requires from <= max <= |mem|
    ensures from <= q <= max
    decreases max - from
  {
    if from == max || mem[from] == POSTFIX then from else Postfix(mem, max, from + 1)
  }

  /** ecmd_process: the length of the command at the front, or 0. */
  function EcmdLength(mem: seq<Byte>, max: nat): (n: nat)
    requires max <= |mem| && 3 <= |mem|
    ensures n <= max
  {
    var q := Postfix(mem, max, 0);
    if q < max && Known(mem[2], q + 1) then q + 1 else 0
  }

  predicate Header(mem: seq<Byte>, i: nat) {
    i + 1 < |mem| && ((mem[i] == SIG1 && mem[i + 1] == SIG2) || (mem[i] == ECMD1 && mem[i + 1] == ECMD2))
  }

  function NextHeader(mem: seq<Byte>, max: nat, from: nat): (q: nat)
    requires from < max <= |mem|
    ensures from <= q <= max
    decreases max - from
  {
    if from == max - 1 then max else if Header(mem, from) then from else NextHeader(mem, max, from + 1)
  }

  /** scan_next. */
  function ScanLength(mem: seq<Byte>, max: nat): (n: nat)
    requires max <= |mem|
    ensures n <= max && (max > 0 ==> n > 0)
  {
    if max <= 2 then max else NextHeader(mem, max, 1)
  }

  /** The first header at offset 1 or later, or the whole length. */
  lemma {:induction false} NextHeaderIs(mem: seq<Byte>, max: nat, from: nat)
    requires from < max <= |mem|
    ensures var q := NextHeader(mem, max, from);
            && (forall i :: from <= i < q && i < max - 1 ==> !Header(mem, i))
            && (q == max || (q < max - 1 && Header(mem, q)))
    decreases max - from
  {
    if from != max - 1 && !Header(mem, from) { NextHeaderIs(mem, max, from + 1); }
  }

  /** icmd_process answers for two bytes, however few remain. */
  predicate IcmdAt(mem: seq<Byte>)
    requires 2 <= |mem|
  {
    mem[0] == SIG1 && mem[1] == SIG2
  }

  /** How many bytes the round removes. */
  function Consumed(mem: seq<Byte>, remain: nat): (n: nat)
    requires remain <= |mem| && 6 <= |mem|
    ensures remain > 0 ==> n > 0
    ensures n > remain <==> IcmdAt(mem) && remain < ICMD_LENGTH
  {
    if IcmdAt(mem) then ICMD_LENGTH
    else
      var n := EcmdLength(mem, remain);
      if n != 0 then n else ScanLength(mem, remain)
  }

  /** What the round made of the bytes it removed. */
  datatype Piece = Icmd(bytes: seq<Byte>) | Ecmd(bytes: seq<Byte>) | Skipped(bytes: seq<Byte>)

  function PieceAt(mem: seq<Byte>, remain: nat): (p: Piece)
    requires remain <= |mem| && 6 <= |mem| && Consumed(mem, remain) <= remain
    ensures p.bytes == mem[..Consumed(mem, remain)]
  {
    var bytes := mem[..Consumed(mem, remain)];
    if IcmdAt(mem) then Icmd(bytes) else if EcmdLength(mem, remain) != 0 then Ecmd(bytes) else Skipped(bytes)
  }

  /** mem_rollback: the remaining bytes move to the front, the others stay. */
  function Rolled(mem: seq<Byte>, max: nat, n: nat): (r: seq<Byte>)
    requires n <= max <= |mem|
    ensures |r| == |mem| && r[..max - n] == mem[n..max]
  {
    mem[n..max] + mem[max - n..]
  }

  // ----- The loop -----

  /** Done, or stopped at a move of a negative number of bytes. */
  datatype Outcome = Done(pieces: seq<Piece>) | Overrun(pieces: seq<Piece>)

  function Prepend(ps: seq<Piece>, o: Outcome): Outcome {
    match o
    case Done(qs) => Done(ps + qs)
    case Overrun(qs) => Overrun(ps + qs)
  }

  function RunFrom(mem: seq<Byte>, remain: nat): Outcome
    requires remain <= |mem| && 6 <= |mem|
    decreases remain
  {
    if remain == 0 then Done([])
    else
      var n := Consumed(mem, remain);
      if n > remain then Overrun([])
      else Prepend([PieceAt(mem, remain)], RunFrom(Rolled(mem, remain, n), remain - n))
  }

  function Syscon(mem: seq<Byte>, length: nat): Outcome
    requires length <= |mem|
  {
    if length < 6 then Done([]) else RunFrom(mem, length)
  }

  /** One round of the loop. */
  lemma RunRound(mem: seq<Byte>, remain: nat)
    requires 0 < remain <= |mem| && 6 <= |mem|
    ensures var n := Consumed(mem, remain);
            RunFrom(mem, remain) == if n > remain then Overrun([])
                                    else Prepend([PieceAt(mem, remain)], RunFrom(Rolled(mem, remain, n), remain - n))
  {
  }

  function PieceBytes(ps: seq<Piece>): seq<Byte> {
    if ps == [] then [] else ps[0].bytes + PieceBytes(ps[1..])
  }

  /** On any buffer the pieces, in order, are exactly the bytes of the buffer; a
      run that stops early had fewer than six bytes left, the first of them 0xa5. */
  lemma {:induction false} Conservation(mem: seq<Byte>, remain: nat)
    requires remain <= |mem| && 6 <= |mem|
    ensures match RunFrom(mem, remain)
            case Done(ps) => PieceBytes(ps) == mem[..remain]
            case Overrun(ps) =>
              var taken := PieceBytes(ps);
              remain - 6 < |taken| < remain && taken == mem[..|taken|] && mem[|taken|] == SIG1
    decreases remain
  {
    hide Consumed, PieceAt, Rolled, PieceBytes;
    BytesAppend(Skipped([]), []);
    if remain > 0 {
      RunRound(mem, remain);
      var n := Consumed(mem, remain);
      if n <= remain {
        var next := Rolled(mem, remain, n);
        Conservation(next, remain - n);
        var rest := RunFrom(next, remain - n).pieces;
        hide RunFrom;
        BytesAppend(PieceAt(mem, remain), rest);
        Joined(mem, next, remain, n, |PieceBytes(rest)|);
      }
    }
  }

  lemma BytesAppend(p: Piece, ps: seq<Piece>)
    ensures PieceBytes([p] + ps) == p.bytes + PieceBytes(ps) && PieceBytes([]) == []
  {
    assert ([p] + ps)[1..] == ps;
  }

  lemma Joined(mem: seq<Byte>, next: seq<Byte>, remain: nat, n: nat, k: nat)
    requires n <= remain <= |mem| && next == Rolled(mem, remain, n) && k <= remain - n
    ensures mem[..n] + next[..k] == mem[..n + k]
    ensures k < remain - n ==> next[k] == mem[n + k]
  {
    assert next[..remain - n] == mem[n..remain];
    hide Rolled;
    assert next[..k] == next[..remain - n][..k] && mem[n..remain][..k] == mem[n..n + k];
    assert mem[..n] + mem[n..n + k] == mem[..n + k];
    if k < remain - n { assert next[k] == next[..remain - n][k] == mem[n..remain][k]; }
  }

  /** No 0xa5 among the last five bytes is enough for a run to finish. */
  lemma FinishesWithout(mem: seq<Byte>, length: nat)
    requires length <= |mem| && forall i :: 0 <= i < length && length - 6 < i ==> mem[i] != SIG1
    ensures Syscon(mem, length).Done?
    ensures length >= 6 ==> PieceBytes(Syscon(mem, length).pieces) == mem[..length]
  {
    if length >= 6 { Conservation(mem, length); }
  }

  // ----- Streams of commands -----

  predicate IsIcmd(f: seq<Byte>) {
    |f| == 6 && f[0] == 0xa5 && f[1] == 0x50
  }

  /** The codes of the external commands of six bytes; two others are longer. */
  const SIX_BYTES: set<Byte> := {
    0x01, 0x02, 0x03, 0x04, 0x05, 0x06, 0x07, 0x08, 0x09, 0x0d, 0x11, 0x12, 0x17, 0x37, 0x39, 0x46, 0x4c,
    0x53, 0x5b, 0x5c, 0x63, 0x66, 0x67, 0x70}

  predicate Listed(code: Byte, length: nat) {
    (length == 6 && code in SIX_BYTES) || (length == 7 && code == 0x4a) || (length == 8 && code == 0x68)
  }

  /** The table lists exactly these commands. */
  lemma KnownIff(code: Byte, length: nat)
    ensures Known(code, length) <==> Listed(code, length)
  {
    if Listed(code, length) { ListedAt(code, length); }
  }

  lemma ListedAt(code: Byte, length: nat)
    requires Listed(code, length)
    ensures Known(code, length)
  {
    assert TABLE[0] == (0x37, 6) && TABLE[1] == (0x46, 6) && TABLE[2] == (0x63, 6) && TABLE[3] == (0x66, 6);
    assert TABLE[4] == (0x39, 6) && TABLE[5] == (0x4a, 7) && TABLE[6] == (0x4c, 6) && TABLE[7] == (0x0d, 6);
    assert TABLE[8] == (0x17, 6) && TABLE[9] == (0x53, 6) && TABLE[10] == (0x5b, 6) && TABLE[11] == (0x5c, 6);
    assert TABLE[12] == (0x67, 6) && TABLE[13] == (0x68, 8) && TABLE[14] == (0x02, 6) && TABLE[15] == (0x03, 6);
    assert TABLE[16] == (0x04, 6) && TABLE[17] == (0x05, 6) && TABLE[18] == (0x06, 6) && TABLE[19] == (0x09, 6);
    assert TABLE[20] == (0x07, 6) && TABLE[21] == (0x11, 6) && TABLE[22] == (0x12, 6) && TABLE[23] == (0x70, 6);
    assert TABLE[24] == (0x01, 6) && TABLE[25] == (0x08, 6);
  }

  /** An external command of the table: its only 0xff is its last byte. */
  predicate IsEcmd(f: seq<Byte>) {
    && |f| >= 6 && Listed(f[2], |f|) && f[|f| - 1] == 0xff && !(f[0] == 0xa5 && f[1] == 0x50)
    && forall i :: 0 <= i < |f| - 1 ==> f[i] != 0xff
  }

  predicate IsCommand(f: seq<Byte>) {
    IsIcmd(f) || IsEcmd(f)
  }

  predicate AllCommands(fs: seq<seq<Byte>>) {
    forall i :: 0 <= i < |fs| ==> IsCommand(fs[i])
  }

  function Dispatched(fs: seq<seq<Byte>>): (ps: seq<Piece>)
    ensures |ps| == |fs|
  {
    seq(|fs|, i requires 0 <= i < |fs| => if IsIcmd(fs[i]) then Icmd(fs[i]) else Ecmd(fs[i]))
  }

  lemma {:induction false} PostfixAt(mem: seq<Byte>, max: nat, from: nat, q: nat)
    requires from <= q < max <= |mem| && mem[q] == POSTFIX && forall i :: from <= i < q ==> mem[i] != POSTFIX
    ensures Postfix(mem, max, from) == q
    decreases q - from
  {
    if from < q { PostfixAt(mem, max, from + 1, q); }
  }

  /** A command at the front is dispatched, whatever follows it. */
  lemma CommandStep(mem: seq<Byte>, remain: nat, f: seq<Byte>)
    requires |f| <= remain <= |mem| && IsCommand(f) && mem[..|f|] == f
    ensures Consumed(mem, remain) == |f|
    ensures PieceAt(mem, remain) == if IsIcmd(f) then Icmd(f) else Ecmd(f)
  {
    assert forall i :: 0 <= i < |f| ==> mem[i] == f[i];
    if !IsIcmd(f) {
      PostfixAt(mem, remain, 0, |f| - 1);
      KnownIff(f[2], |f|);
      hide Known, Listed;
    }
  }

  /** The buffer once these commands have been removed from its front. */
  function After(mem: seq<Byte>, remain: nat, fs: seq<seq<Byte>>): (r: seq<Byte>)
    requires remain <= |mem|
    ensures |r| == |mem|
    decreases |fs|
  {
    if fs == [] || |fs[0]| > remain then mem
    else After(Rolled(mem, remain, |fs[0]|), remain - |fs[0]|, fs[1..])
  }

  /** Commands at the front are dispatched one by one, in order. */
  lemma {:induction false} CommandsRun(mem: seq<Byte>, remain: nat, fs: seq<seq<Byte>>, tail: seq<Byte>)
    requires remain <= |mem| && 6 <= |mem| && AllCommands(fs) && mem[..remain] == Concat(fs) + tail
    ensures var after := After(mem, remain, fs);
            |tail| <= |mem| && after[..|tail|] == tail && RunFrom(mem, remain) == Prepend(Dispatched(fs), RunFrom(after, |tail|))
    decreases |fs|
  {
    hide RunFrom, Dispatched, Rolled, Concat, IsCommand, Prepend;
    if fs == [] {
      NoCommands(mem, remain, tail);
    } else {
      FirstCommand(mem, remain, fs, tail);
      CommandsRun(Rolled(mem, remain, |fs[0]|), remain - |fs[0]|, fs[1..], tail);
      DispatchedFirst(fs);
      Prepended([Dispatched(fs)[0]], Dispatched(fs[1..]), RunFrom(After(mem, remain, fs), |tail|));
    }
  }

  lemma NoCommands(mem: seq<Byte>, remain: nat, tail: seq<Byte>)
    requires remain <= |mem| && 6 <= |mem| && mem[..remain] == Concat([]) + tail
    ensures remain == |tail| && mem[..|tail|] == tail && RunFrom(mem, remain) == Prepend(Dispatched([]), RunFrom(mem, |tail|))
  {
    assert Concat([]) + tail == tail;
    assert |mem[..remain]| == remain && Dispatched([]) == [];
    hide RunFrom;
    NothingFirst(RunFrom(mem, remain));
  }

  lemma NothingFirst(o: Outcome)
    ensures Prepend([], o) == o
  {
    assert [] + o.pieces == o.pieces;
  }

  lemma FirstCommand(mem: seq<Byte>, remain: nat, fs: seq<seq<Byte>>, tail: seq<Byte>)
    requires remain <= |mem| && 6 <= |mem| && AllCommands(fs) && fs != [] && mem[..remain] == Concat(fs) + tail
    ensures var n := |fs[0]|;
            && n <= remain && Rolled(mem, remain, n)[..remain - n] == Concat(fs[1..]) + tail
            && RunFrom(mem, remain) == Prepend([Dispatched(fs)[0]], RunFrom(Rolled(mem, remain, n), remain - n))
  {
    hide Listed, Consumed, PieceAt, Rolled, RunFrom, Prepend;
    var f := fs[0];
    var rest := Concat(fs[1..]) + tail;
    assert IsCommand(f) && |f| > 0;
    assert Concat(fs) + tail == f + rest;
    hide IsIcmd, IsEcmd, Consumed, PieceAt, Concat, Rolled, RunFrom, Prepend;
    SplitFront(mem, remain, f, rest);
    CommandStep(mem, remain, f);
    RunRound(mem, remain);
  }

  lemma SplitFront(mem: seq<Byte>, remain: nat, f: seq<Byte>, rest: seq<Byte>)
    requires remain <= |mem| && mem[..remain] == f + rest
    ensures remain == |f| + |rest| && mem[..|f|] == f && mem[|f|..remain] == rest
  {
    assert |mem[..remain]| == remain;
    assert mem[..|f|] == mem[..remain][..|f|] && mem[|f|..remain] == mem[..remain][|f|..];
  }

  lemma DispatchedFirst(fs: seq<seq<Byte>>)
    requires fs != []
    ensures Dispatched(fs) == [Dispatched(fs)[0]] + Dispatched(fs[1..])
  {
  }

  lemma Prepended(ps: seq<Piece>, qs: seq<Piece>, o: Outcome)
    ensures Prepend(ps, Prepend(qs, o)) == Prepend(ps + qs, o)
  {
    assert ps + (qs + o.pieces) == (ps + qs) + o.pieces;
  }

  /** A stream of commands is dispatched exactly, in order, and nothing is left. */
  lemma CommandsDispatched(mem: seq<Byte>, length: nat, fs: seq<seq<Byte>>)
    requires length <= |mem| && AllCommands(fs) && mem[..length] == Concat(fs)
    ensures Syscon(mem, length) == Done(Dispatched(fs))
  {
    if fs == [] {
      assert |mem[..length]| == 0;
      assert Dispatched(fs) == [];
    } else {
      assert IsCommand(fs[0]);
      assert Concat(fs) + [] == Concat(fs);
      CommandsRun(mem, length, fs, []);
      assert Dispatched(fs) + [] == Dispatched(fs);
    }
  }

  // ----- Only commands are dispatched, and no command is skipped -----

  predicate HeaderAt(s: seq<Byte>, i: nat) {
    i + 1 < |s| && ((s[i] == 0xa5 && s[i + 1] == 0x50) || (s[i] == 0x81 && s[i + 1] == 0x01))
  }

  /** A piece in front of `rest`, the bytes not yet handled: dispatched pieces are
      commands, and a skipped one begins where no command stands and ends at the
      next header, or at the end. */
  ghost predicate PieceSound(p: Piece, rest: seq<Byte>) {
    match p
    case Icmd(b) => IsIcmd(b)
    case Ecmd(b) => IsEcmd(b)
    case Skipped(b) =>
      && (forall n :: 0 <= n <= |rest| ==> !IsCommand(rest[..n]))
      && (forall i :: 1 <= i < |b| ==> !HeaderAt(rest, i))
      && (|b| == |rest| || HeaderAt(rest, |b|))
  }

  ghost predicate Sound(ps: seq<Piece>, rest: seq<Byte>) {
    ps == [] || (ps[0].bytes <= rest && PieceSound(ps[0], rest) && Sound(ps[1..], rest[|ps[0].bytes|..]))
  }

  lemma {:induction false} PostfixIs(mem: seq<Byte>, max: nat, from: nat)
    requires from <= max <= |mem|
    ensures var q := Postfix(mem, max, from);
            (forall i :: from <= i < q ==> mem[i] != 0xff) && (q < max ==> mem[q] == 0xff)
    decreases max - from
  {
    if from < max && mem[from] != POSTFIX { PostfixIs(mem, max, from + 1); }
  }

  lemma EcmdSound(mem: seq<Byte>, remain: nat)
    requires remain <= |mem| && 6 <= |mem| && EcmdLength(mem, remain) != 0 && !IcmdAt(mem)
    ensures IsEcmd(mem[..EcmdLength(mem, remain)])
  {
    var n := EcmdLength(mem, remain);
    PostfixIs(mem, remain, 0);
    KnownIff(mem[2], n);
    KnownLength(mem[2], n);
    hide Known, Listed;
    var f := mem[..n];
    assert forall i :: 0 <= i < n ==> f[i] == mem[i];
  }

  lemma SkipSound(mem: seq<Byte>, remain: nat)
    requires 0 < remain <= |mem| && 6 <= |mem| && Consumed(mem, remain) <= remain
    requires !IcmdAt(mem) && EcmdLength(mem, remain) == 0
    ensures PieceSound(PieceAt(mem, remain), mem[..remain])
  {
    var rest, n := mem[..remain], Consumed(mem, remain);
    forall k | 0 <= k <= |rest|
      ensures !IsCommand(rest[..k])
    {
      if IsCommand(rest[..k]) {
        assert mem[..k] == rest[..k];
        CommandStep(mem, remain, rest[..k]);
        assert false;
      }
    }
    hide EcmdLength, IsCommand;
    if remain > 2 { NextHeaderIs(mem, remain, 1); }
    hide NextHeader;
    assert forall i :: 0 <= i < remain - 1 ==> (Header(mem, i) <==> HeaderAt(rest, i));
  }

  lemma RoundSound(mem: seq<Byte>, remain: nat)
    requires 0 < remain <= |mem| && 6 <= |mem| && Consumed(mem, remain) <= remain
    ensures PieceSound(PieceAt(mem, remain), mem[..remain])
  {
    if IcmdAt(mem) {
      hide IsCommand;
    } else if EcmdLength(mem, remain) != 0 {
      EcmdSound(mem, remain);
      hide EcmdLength, IsEcmd, IsCommand;
    } else {
      SkipSound(mem, remain);
      hide PieceSound, EcmdLength;
    }
  }

  lemma SoundCons(p: Piece, ps: seq<Piece>, rest: seq<Byte>)
    requires p.bytes <= rest && PieceSound(p, rest) && Sound(ps, rest[|p.bytes|..])
    ensures Sound([p] + ps, rest)
  {
    hide PieceSound;
    assert ([p] + ps)[1..] == ps;
  }

  lemma FrontOf(mem: seq<Byte>, remain: nat, n: nat)
    requires n <= remain <= |mem|
    ensures mem[..n] <= mem[..remain] && mem[..remain][n..] == Rolled(mem, remain, n)[..remain - n]
  {
    hide Rolled;
    assert mem[..remain][n..] == mem[n..remain];
  }

  /** On any buffer, each dispatched piece is a command of its kind, and a skipped
      piece begins where no command stands and reaches to the next header. */
  lemma {:induction false} SoundRun(mem: seq<Byte>, remain: nat)
    requires remain <= |mem| && 6 <= |mem|
    ensures Sound(RunFrom(mem, remain).pieces, mem[..remain])
    decreases remain
  {
    if remain > 0 {
      hide Consumed, PieceAt, PieceSound, RunFrom, Rolled;
      RunRound(mem, remain);
      var n := Consumed(mem, remain);
      if n <= remain {
        RoundSound(mem, remain);
        var next := Rolled(mem, remain, n);
        SoundRun(next, remain - n);
        var p, ps := PieceAt(mem, remain), RunFrom(next, remain - n).pieces;
        FrontOf(mem, remain, n);
        hide Sound;
        SoundCons(p, ps, mem[..remain]);
      }
    } else {
      RunNone(mem);
    }
  }

  // ----- Streams cut short -----

  /** The two bytes of an internal command header. */
  predicate HasIcmdHeader(s: seq<Byte>) {
    exists i :: 0 <= i < |s| - 1 && s[i] == SIG1 && s[i + 1] == SIG2
  }

  /** With fewer than six bytes left the run overruns exactly when they hold the
      header of an internal command, or begin one whose second byte is stale. */
  lemma {:induction false} ShortTail(mem: seq<Byte>, remain: nat)
    requires remain < 6 <= |mem|
    ensures RunFrom(mem, remain).Overrun? <==>
              HasIcmdHeader(mem[..remain]) || (remain == 1 && mem[0] == SIG1 && mem[1] == SIG2)
    decreases remain
  {
    hide RunFrom, Rolled, EcmdLength, PieceAt, NextHeader;
    var tail := mem[..remain];
    if remain == 0 {
      RunNone(mem);
    } else {
      RunRound(mem, remain);
      if IcmdAt(mem) {
        if remain >= 2 { assert tail[0] == SIG1 && tail[1] == SIG2; }
      } else {
        ShortScan(mem, remain);
        var n := Consumed(mem, remain);
        if n < remain {
          ShortTail(Rolled(mem, remain, n), remain - n);
          SkippedHeader(mem, Rolled(mem, remain, n), remain, n);
        } else {
          RunNone(Rolled(mem, remain, n));
        }
      }
    }
  }

  lemma RunNone(mem: seq<Byte>)
    requires 6 <= |mem|
    ensures RunFrom(mem, 0) == Done([])
  {
  }

  /** A short tail without a header at its front is scanned. */
  lemma ShortScan(mem: seq<Byte>, remain: nat)
    requires 0 < remain < 6 <= |mem| && !IcmdAt(mem)
    ensures var n := Consumed(mem, remain);
            && 0 < n <= remain && (forall i :: 1 <= i < n && i < remain - 1 ==> !Header(mem, i)) && (n == remain || n < remain - 1)
            && (n == remain ==> !HasIcmdHeader(mem[..remain]))
  {
    NoShortEcmd(mem, remain);
    hide EcmdLength;
    if remain > 2 { NextHeaderIs(mem, remain, 1); }
    hide NextHeader;
    var n, s := Consumed(mem, remain), mem[..remain];
    if n == remain && HasIcmdHeader(s) {
      var i :| 0 <= i < |s| - 1 && s[i] == SIG1 && s[i + 1] == SIG2;
      assert Header(mem, i);
    }
  }

  lemma NoShortEcmd(mem: seq<Byte>, remain: nat)
    requires remain < 6 <= |mem|
    ensures EcmdLength(mem, remain) == 0
  {
    var q := Postfix(mem, remain, 0);
    if Known(mem[2], q + 1) { KnownLength(mem[2], q + 1); }
  }

  lemma SkippedHeader(mem: seq<Byte>, next: seq<Byte>, remain: nat, n: nat)
    requires 0 < n < remain - 1 && remain <= |mem| && next == Rolled(mem, remain, n) && 6 <= |mem|
    requires !IcmdAt(mem) && forall i :: 1 <= i < n ==> !Header(mem, i)
    ensures HasIcmdHeader(mem[..remain]) <==> HasIcmdHeader(next[..remain - n])
  {
    var s, t := mem[..remain], next[..remain - n];
    assert t == s[n..];
    if HasIcmdHeader(s) {
      var i :| 0 <= i < |s| - 1 && s[i] == SIG1 && s[i + 1] == SIG2;
      assert Header(mem, i) && i != 0;
      assert t[i - n] == SIG1 && t[i - n + 1] == SIG2;
    }
    if HasIcmdHeader(t) {
      var i :| 0 <= i < |t| - 1 && t[i] == SIG1 && t[i + 1] == SIG2;
      assert s[i + n] == SIG1 && s[i + n + 1] == SIG2;
    }
  }

  /** The first round boundary with fewer than six bytes left. */
  function LastRounds(mem: seq<Byte>, remain: nat): (r: (seq<Byte>, nat))
    requires remain <= |mem| && 6 <= |mem|
    ensures |r.0| == |mem| && r.1 < 6 && r.1 <= remain
    decreases remain
  {
    if remain < 6 then (mem, remain)
    else LastRounds(Rolled(mem, remain, Consumed(mem, remain)), remain - Consumed(mem, remain))
  }

  /** The bytes left at a boundary hold an internal header, or are a single 0xa5
      with a stale 0x50 behind it. */
  predicate Trapped(mem: seq<Byte>, remain: nat)
    requires remain < 6 <= |mem|
  {
    HasIcmdHeader(mem[..remain]) || (remain == 1 && mem[0] == SIG1 && mem[1] == SIG2)
  }

  /** On any buffer at all, the run overruns exactly when the bytes left at the
      first round boundary below six, which are the last bytes of the buffer, hold
      an internal header or begin one with a stale byte. */
  lemma {:induction false} OverrunIff(mem: seq<Byte>, remain: nat)
    requires remain <= |mem| && 6 <= |mem|
    ensures var (left, r) := LastRounds(mem, remain);
            && left[..r] == mem[remain - r..remain]
            && (RunFrom(mem, remain).Overrun? <==> Trapped(left, r))
    decreases remain
  {
    hide RunFrom, Consumed, PieceAt, Rolled, HasIcmdHeader;
    if remain < 6 {
      ShortTail(mem, remain);
    } else {
      var n := Consumed(mem, remain);
      var next := Rolled(mem, remain, n);
      RunRound(mem, remain);
      OverrunIff(next, remain - n);
      var (left, r) := LastRounds(mem, remain);
      RolledEnd(mem, remain, n, r);
    }
  }

  lemma RolledEnd(mem: seq<Byte>, remain: nat, n: nat, r: nat)
    requires n <= remain <= |mem| && r <= remain - n
    ensures Rolled(mem, remain, n)[remain - n - r..remain - n] == mem[remain - r..remain]
  {
    var next := Rolled(mem, remain, n);
    assert next[remain - n - r..remain - n] == next[..remain - n][remain - n - r..];
    assert mem[n..remain][remain - n - r..] == mem[remain - r..remain];
  }

  /** The byte behind a single last one is the second byte of the last command. */
  lemma {:induction false} StaleByte(mem: seq<Byte>, remain: nat, fs: seq<seq<Byte>>, tail: seq<Byte>)
    requires remain <= |mem| && 6 <= |mem| && AllCommands(fs) && fs != []
    requires mem[..remain] == Concat(fs) + tail && |tail| == 1
    ensures IsCommand(fs[|fs| - 1]) && After(mem, remain, fs)[1] == fs[|fs| - 1][1]
    decreases |fs|
  {
    hide RunFrom, Rolled, Concat, Dispatched, Prepend, Known;
    FirstCommand(mem, remain, fs, tail);
    assert IsCommand(fs[0]);
    if |fs| > 1 {
      StaleByte(Rolled(mem, remain, |fs[0]|), remain - |fs[0]|, fs[1..], tail);
    } else {
      assert fs == [fs[0]] && fs[1..] == [];
      LastStale(mem, remain, fs[0], tail);
    }
  }

  lemma LastStale(mem: seq<Byte>, remain: nat, f: seq<Byte>, tail: seq<Byte>)
    requires remain <= |mem| && |f| >= 6 && |tail| == 1 && mem[..remain] == Concat([f]) + tail
    ensures |f| <= remain && Rolled(mem, remain, |f|)[1] == f[1]
  {
    assert Concat([f]) == f + Concat([f][1..]) == f;
    SplitFront(mem, remain, f, tail);
    assert mem[1] == mem[..|f|][1];
  }

  /** A stream of commands followed by fewer than six bytes overruns exactly when
      those bytes hold the header of an internal command, or are a single 0xa5
      after a command whose second byte is 0x50; otherwise all commands are
      dispatched and the rest is skipped. */
  lemma CutStream(mem: seq<Byte>, length: nat, fs: seq<seq<Byte>>, tail: seq<Byte>)
    requires length <= |mem| && AllCommands(fs) && fs != [] && |tail| < 6 && mem[..length] == Concat(fs) + tail
    ensures IsCommand(fs[|fs| - 1]) && Dispatched(fs) <= Syscon(mem, length).pieces
    ensures Syscon(mem, length).Overrun? <==>
              HasIcmdHeader(tail) || (tail == [SIG1] && fs[|fs| - 1][1] == SIG2)
  {
    hide RunFrom, After, HasIcmdHeader, IsEcmd, Known, Dispatched;
    AtLeastSix(fs, mem, length, tail);
    CommandsRun(mem, length, fs, tail);
    var after := After(mem, length, fs);
    ShortTail(after, |tail|);
    if |tail| == 1 {
      StaleByte(mem, length, fs, tail);
      assert after[0] == after[..1][0] == tail[0];
    }
  }

  const CUT: seq<Byte> := [SIG1, SIG2, 0, 0, 0, 0, SIG1, SIG2]

  /** For instance, an internal command followed by the header of another. */
  lemma OverrunExample()
    ensures Syscon(CUT, 8) == Overrun([Icmd([SIG1, SIG2, 0, 0, 0, 0])])
  {
    var f: seq<Byte> := [SIG1, SIG2, 0, 0, 0, 0];
    assert CUT[..6] == f && IsIcmd(f);
    CommandStep(CUT, 8, f);
    hide Known;
    RunRound(CUT, 8);
    var next := Rolled(CUT, 8, 6);
    assert next[0] == next[..2][0] == SIG1 && next[1] == next[..2][1] == SIG2;
    RunRound(next, 2);
    assert [Icmd(f)] + [] == [Icmd(f)];
  }

  lemma AtLeastSix(fs: seq<seq<Byte>>, mem: seq<Byte>, length: nat, tail: seq<Byte>)
    requires AllCommands(fs) && fs != [] && length <= |mem| && mem[..length] == Concat(fs) + tail
    ensures length >= 6 && IsCommand(fs[|fs| - 1]) && |fs[|fs| - 1]| >= 6
  {
    assert IsCommand(fs[0]) && Concat(fs) == fs[0] + Concat(fs[1..]) && IsCommand(fs[|fs| - 1]);
    assert |mem[..length]| == length;
  }

  // ----- In place -----

  method FindPostfix(buf: array<Byte>, max: nat) returns (pos: nat)
    requires max <= buf.Length
    ensures pos == Postfix(buf[..], max, 0)
  {
    pos := 0;
    while pos != max && buf[pos] != POSTFIX
      invariant pos <= max && Postfix(buf[..], max, 0) == Postfix(buf[..], max, pos)
    {
      pos := pos + 1;
    }
  }

  /** ecmd_get_command. */
  method GetCommand(code: Byte, length: nat) returns (found: bool)
    ensures found == Known(code, length)
  {
    var i := 0;
    while i < |TABLE|
      invariant i <= |TABLE| && forall k :: 0 <= k < i ==> TABLE[k] != (code, length)
    {
      if TABLE[i] == (code, length) { return true; }
      i := i + 1;
    }
    found := false;
  }

  method EcmdProcess(buf: array<Byte>, max: nat) returns (n: nat)
    requires max <= buf.Length && 3 <= buf.Length
    ensures n == EcmdLength(buf[..], max)
  {
    var pos := FindPostfix(buf, max);
    if pos == max { return 0; }
    var found := GetCommand(buf[2], pos + 1);
    n := if found then pos + 1 else 0;
  }

  method ScanNext(buf: array<Byte>, max: nat) returns (n: nat)
    requires max <= buf.Length
    ensures n == ScanLength(buf[..], max)
  {
    if max <= 2 { return max; }
    var pos := 1;
    while pos != max - 1
      invariant 1 <= pos <= max - 1 && NextHeader(buf[..], max, 1) == NextHeader(buf[..], max, pos)
    {
      if (buf[pos] == SIG1 && buf[pos + 1] == SIG2) || (buf[pos] == ECMD1 && buf[pos + 1] == ECMD2) { break; }
      pos := pos + 1;
    }
    n := if pos == max - 1 then max else pos;
  }

  /** mem_rollback. */
  method Rollback(buf: array<Byte>, max: nat, n: nat)
    requires n <= max <= buf.Length
    modifies buf
    ensures buf[..] == Rolled(old(buf[..]), max, n)
  {
    var i := 0;
    while i < max - n
      invariant i <= max - n
      invariant forall k :: 0 <= k < i ==> buf[k] == old(buf[n + k])
      invariant forall k :: i <= k < buf.Length ==> buf[k] == old(buf[k])
    {
      buf[i] := buf[n + i];
      i := i + 1;
    }
  }

  /** syscon_one; a result beyond `remain` is the move of a negative number of bytes. */
  method SysconOne(buf: array<Byte>, remain: nat) returns (n: nat, piece: Piece)
    requires 0 < remain <= buf.Length && 6 <= buf.Length
    modifies buf
    ensures n == Consumed(old(buf[..]), remain)
    ensures n > remain ==> buf[..] == old(buf[..])
    ensures n <= remain ==> buf[..] == Rolled(old(buf[..]), remain, n) && piece == PieceAt(old(buf[..]), remain)
  {
    piece := Skipped([]);
    var icmd, ecmd := buf[0] == SIG1 && buf[1] == SIG2, false;
    if icmd {
      n := ICMD_LENGTH;
    } else {
      n := EcmdProcess(buf, remain);
      ecmd := n != 0;
      if !ecmd { n := ScanNext(buf, remain); }
    }
    if n <= remain {
      var bytes := buf[..n];
      piece := if icmd then Icmd(bytes) else if ecmd then Ecmd(bytes) else Skipped(bytes);
      Rollback(buf, remain, n);
    }
  }

  /** bk_eots_hd_syscon ends on every buffer: each round removes a byte, or stops. */
  method SysconLoop(buf: array<Byte>, length: nat) returns (o: Outcome)
    requires length <= buf.Length
    modifies buf
    ensures o == Syscon(old(buf[..]), length)
  {
    if length < 6 { return Done([]); }
    hide Consumed, PieceAt, Rolled;
    var remain, pieces := length, [];
    ghost var mem := buf[..];
    NothingFirst(RunFrom(mem, length));
    while remain > 0
      invariant 0 <= remain <= buf.Length && Prepend(pieces, RunFrom(buf[..], remain)) == RunFrom(mem, length)
      decreases remain
    {
      ghost var before := buf[..];
      var n, piece := SysconOne(buf, remain);
      if n > remain {
        assert pieces + [] == pieces;
        return Overrun(pieces);
      }
      Prepended(pieces, [piece], RunFrom(buf[..], remain - n));
      pieces := pieces + [piece];
      remain := remain - n;
    }
    assert pieces + [] == pieces;
    o := Done(pieces);
  }
}
