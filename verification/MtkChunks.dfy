/** Chunked transfer of application/micro-talk-client: cutting a file into chunks,
    sending and fetching them one request at a time, and merging. */
module MtkChunks {
  import opened Bytes
  import opened Wrappers

  const FIELD: int := 0x1_0000
  const INT_MAX: int := 0x7fff_ffff

  // ----- Cutting a file -----

  /** The fields of struct _mtk_chunkinfo that describe the cut; chunknum and
      chunksize are 16 bits wide. */
  datatype ChunkInfo = ChunkInfo(file: seq<Byte>, chunknum: nat, chunksize: nat)

  function CeilDiv(total: nat, size: int): nat
    requires size >= 1
  {
    if total % size != 0 then total / size + 1 else total / size
  }

  /** An error return, a division by zero, or the cut. */
  datatype Generated = Error | DividesByZero | Cut(ci: ChunkInfo)

  /** mtk_chunkinfo_generate_from_file on the file's contents and checksum. */
  function Generate(file: seq<Byte>, crc: nat, chunksize: int): Generated
    requires |file| <= INT_MAX
  {
    if chunksize < 0 || file == [] || crc == 0 then Error
    else if chunksize == 0 then DividesByZero
    else
      var num := if |file| <= chunksize then 1 else CeilDiv(|file|, chunksize);
      var size := if |file| <= chunksize then |file| else chunksize;
      Cut(ChunkInfo(file, num % FIELD, size % FIELD))
  }

  /** The slice chunksend_request copies. */
  function Start(ci: ChunkInfo, i: nat): nat {
    i * ci.chunksize
  }

  function Length(ci: ChunkInfo, i: nat): int {
    if i == ci.chunknum - 1 then |ci.file| - Start(ci, i) else ci.chunksize
  }

  /** The slice is nonempty, no longer than a chunk, and ends where the next begins. */
  predicate GoodSlice(ci: ChunkInfo, i: nat) {
    && 0 < Length(ci, i) <= ci.chunksize
    && Start(ci, i) + Length(ci, i) == if i == ci.chunknum - 1 then |ci.file| else Start(ci, i + 1)
  }

  predicate Covers(ci: ChunkInfo) {
    ci.chunknum >= 1 && forall i :: 0 <= i < ci.chunknum ==> GoodSlice(ci, i)
  }

  /** The cut fits its 16-bit fields. */
  predicate Fits(total: nat, chunksize: int) {
    total <= 65535 * chunksize && (chunksize <= 65535 || total <= 65535)
  }

  lemma CeilBounds(total: nat, size: int)
    requires size >= 1 && total >= 1
    ensures var n := CeilDiv(total, size); (n - 1) * size < total <= n * size && n >= 1
  {
    assert total == (total / size) * size + total % size;
  }

  lemma LessTimes(a: int, b: int, size: int)
    requires a < b && size >= 0
    ensures (a + 1) * size <= b * size && (a + 1) * size == a * size + size
  {
    MulMono(a + 1, b, size);
  }

  lemma MulMono(a: int, b: int, size: int)
    requires a <= b && size >= 0
    ensures a * size <= b * size
  {
    assert b * size - a * size == (b - a) * size;
  }

  /** For every file and chunk size: there are slices, nonempty, at most a chunk,
      adjacent and covering the file, exactly when file, checksum and chunk size are
      not zero and the number and the size of the chunks fit 16 bits. */
  lemma CoversIff(file: seq<Byte>, crc: nat, chunksize: int)
    requires |file| <= INT_MAX
    ensures var g := Generate(file, crc, chunksize);
            g.Cut? && Covers(g.ci) <==> file != [] && crc != 0 && chunksize >= 1 && Fits(|file|, chunksize)
  {
    if file != [] && crc != 0 && chunksize >= 1 { CutIff(file, crc, chunksize); }
  }

  lemma CutIff(file: seq<Byte>, crc: nat, chunksize: int)
    requires 1 <= |file| <= INT_MAX && chunksize >= 1 && crc != 0
    ensures Covers(Generate(file, crc, chunksize).ci) <==> Fits(|file|, chunksize)
  {
    var total := |file|;
    var num := if total <= chunksize then 1 else CeilDiv(total, chunksize);
    var size := if total <= chunksize then total else chunksize;
    var ci := Generate(file, crc, chunksize).ci;
    CeilBounds(total, chunksize);
    assert (num - 1) * size < total <= num * size;
    if Fits(total, chunksize) {
      if num > 65535 { MulMono(65535, num - 1, size); }
      assert ci == ChunkInfo(file, num, size);
      CutCovers(ci);
    } else {
      if size < FIELD && num < FIELD { MulMono(num, 65535, size); }
      CutFails(ci, num, size);
    }
  }

  /** 65536 chunks of one byte: the number of chunks becomes 0 and nothing is cut. */
  lemma UncoveredExample(file: seq<Byte>)
    requires |file| == 65536
    ensures var ci := Generate(file, 1, 1).ci; ci.chunknum == 0 && !Covers(ci)
  {
  }

  lemma CutCovers(ci: ChunkInfo)
    requires ci.chunknum >= 1 && (ci.chunknum - 1) * ci.chunksize < |ci.file| <= ci.chunknum * ci.chunksize
    ensures Covers(ci)
  {
    forall i | 0 <= i < ci.chunknum
      ensures GoodSlice(ci, i)
    {
      LessTimes(i, ci.chunknum, ci.chunksize);
      if ci.chunksize == 0 { MulMono(ci.chunknum, ci.chunknum, 0); }
    }
  }

  /** Once a field loses bits, the last slice is longer than a chunk. */
  lemma CutFails(ci: ChunkInfo, num: nat, size: nat)
    requires num >= 1 && (num - 1) * size < |ci.file| && ci.chunknum == num % FIELD && ci.chunksize == size % FIELD
    requires num >= FIELD || size >= FIELD
    requires num == 1 ==> |ci.file| == size
    ensures !Covers(ci)
  {
    if ci.chunknum >= 1 {
      var i := ci.chunknum - 1;
      LessTimes(i, ci.chunknum, ci.chunksize);
      if num >= FIELD {
        MulMono(ci.chunknum, num - 1, ci.chunksize);
        MulMonoRight(num - 1, ci.chunksize, size);
      } else {
        assert size == (size / FIELD) * FIELD + ci.chunksize && size / FIELD >= 1;
        Carry(num, ci.chunksize, size);
      }
      assert ci.chunknum * ci.chunksize < |ci.file|;
      assert !GoodSlice(ci, i);
    }
  }

  lemma MulMonoRight(a: int, x: int, y: int)
    requires a >= 0 && x <= y
    ensures a * x <= a * y
  {
    MulMono(x, y, a);
  }

  lemma Carry(num: nat, low: nat, size: nat)
    requires num >= 1 && low < FIELD && size >= low + FIELD
    ensures if num == 1 then num * low < size else num * low <= (num - 1) * size
  {
    LessTimes(num - 1, num, low);
    if num > 1 {
      MulMonoRight(num - 1, low + FIELD, size);
      MulMono(1, num - 1, FIELD);
      assert (num - 1) * (low + FIELD) == (num - 1) * low + (num - 1) * FIELD;
    }
  }

  function Slice(ci: ChunkInfo, i: nat): (r: seq<Byte>)
    requires Covers(ci) && i < ci.chunknum
    ensures r != [] && |r| <= ci.chunksize
  {
    SliceEnds(ci, i);
    assert GoodSlice(ci, i);
    ci.file[Start(ci, i)..Start(ci, i) + Length(ci, i)]
  }

  lemma SliceEnds(ci: ChunkInfo, i: nat)
    requires Covers(ci) && i < ci.chunknum
    ensures 0 <= Start(ci, i) <= Start(ci, i) + Length(ci, i) <= |ci.file|
    decreases ci.chunknum - i
  {
    assert GoodSlice(ci, i);
    if i < ci.chunknum - 1 { SliceEnds(ci, i + 1); }
  }

  function Slices(ci: ChunkInfo): seq<seq<Byte>>
    requires Covers(ci)
  {
    seq(ci.chunknum, i requires 0 <= i < ci.chunknum => Slice(ci, i))
  }

  /** Merging the slices in index order gives back the file. */
  lemma MergeSlices(ci: ChunkInfo)
    requires Covers(ci)
    ensures Concat(Slices(ci)) == ci.file
  {
    MergePrefix(ci, ci.chunknum - 1);
    var all, last := Slices(ci), ci.chunknum - 1;
    assert all == all[..last] + [all[last]];
    ConcatOne(all[..last], all[last]);
    assert GoodSlice(ci, last);
    assert ci.file == ci.file[..Start(ci, last)] + ci.file[Start(ci, last)..];
  }

  lemma {:induction false} MergePrefix(ci: ChunkInfo, k: nat)
    requires Covers(ci) && k < ci.chunknum
    ensures Start(ci, k) <= |ci.file| && Concat(Slices(ci)[..k]) == ci.file[..Start(ci, k)]
  {
    SliceEnds(ci, k);
    if k > 0 {
      MergePrefix(ci, k - 1);
      var all := Slices(ci);
      assert all[..k] == all[..k - 1] + [all[k - 1]];
      ConcatOne(all[..k - 1], all[k - 1]);
      assert GoodSlice(ci, k - 1);
      assert ci.file[..Start(ci, k - 1)] + ci.file[Start(ci, k - 1)..Start(ci, k)] == ci.file[..Start(ci, k)];
    }
  }

  // ----- Messages -----

  /** Request header, chunk header and checksum around the data. */
  const OVERHEAD: int := 25
  const DATA_START: int := 24

  /** The 16-bit length of the message for chunk `i`: as many bytes are written to
      the connection. */
  function MessageLength(ci: ChunkInfo, i: nat): int {
    (OVERHEAD + Length(ci, i)) % FIELD
  }

  /** The whole message leaves the client. */
  predicate WholeMessage(ci: ChunkInfo, i: nat) {
    OVERHEAD + Length(ci, i) < FIELD
  }

  predicate WholeMessages(ci: ChunkInfo) {
    forall i :: 0 <= i < ci.chunknum ==> WholeMessage(ci, i)
  }

  /** A message is written whole, or stops before the first byte of the chunk. */
  lemma MessageCut(ci: ChunkInfo, i: nat)
    requires Covers(ci) && i < ci.chunknum && ci.chunksize < FIELD
    ensures WholeMessage(ci, i) <==> MessageLength(ci, i) == OVERHEAD + Length(ci, i)
    ensures !WholeMessage(ci, i) <==> MessageLength(ci, i) <= DATA_START
  {
    assert GoodSlice(ci, i);
  }

  /** All messages of a cut that fits leave whole exactly when the file or the chunk
      size is at most 65510 bytes. */
  lemma WholeIff(file: seq<Byte>, crc: nat, chunksize: int)
    requires 1 <= |file| <= INT_MAX && crc != 0 && chunksize >= 1 && Fits(|file|, chunksize)
    ensures WholeMessages(Generate(file, crc, chunksize).ci) <==> |file| <= 65510 || chunksize <= 65510
  {
    var ci := Generate(file, crc, chunksize).ci;
    CutIff(file, crc, chunksize);
    assert ci.chunksize == if |file| <= chunksize then |file| else chunksize;
    assert GoodSlice(ci, 0) && (ci.chunknum == 1 ==> Length(ci, 0) == |file|);
    assert WholeMessages(ci) ==> WholeMessage(ci, 0);
    if |file| <= 65510 || chunksize <= 65510 {
      forall i | 0 <= i < ci.chunknum
        ensures WholeMessage(ci, i)
      {
        assert GoodSlice(ci, i);
      }
    }
  }

  // ----- Sending -----

  datatype Phase = Req | Rsp | Fin | Gone

  /** A chunksend session: the chunks that left it, the reply codes it handled, and
      the chunks the server stored, which are the sent ones it accepted. */
  datatype Sender = Sender(
    phase: Phase, index: nat, sent: map<nat, seq<Byte>>, codes: seq<nat>, stored: map<nat, seq<Byte>>)

  datatype SendEvent = Send | SendFails | Ack(code: nat)

  /** The code that accepts a chunk: success before the last one, and at the last
      one the code that the file is complete. */
  function AcceptCode(ci: ChunkInfo, i: nat): nat {
    if i == ci.chunknum - 1 then 1 else 0
  }

  /** A chunk is stored when the reply to it accepts it. */
  function Stored(ci: ChunkInfo, s: Sender, code: nat): map<nat, seq<Byte>> {
    if code == AcceptCode(ci, s.index) && s.index in s.sent then s.stored[s.index := s.sent[s.index]] else s.stored
  }

  /** A chunk is sent when its message leaves whole. */
  function Sent(ci: ChunkInfo, s: Sender): map<nat, seq<Byte>>
    requires Covers(ci) && s.index < ci.chunknum
  {
    if WholeMessage(ci, s.index) then s.sent[s.index := Slice(ci, s.index)] else s.sent
  }

  function SendStep(ci: ChunkInfo, s: Sender, e: SendEvent): Sender
    requires Covers(ci) && s.index < ci.chunknum
  {
    if s.phase.Fin? || s.phase.Gone? then s
    else match e
      // chunksend_request
      case Send => s.(phase := Rsp, sent := Sent(ci, s))
      case SendFails => s.(phase := Gone)
      // chunksend_response
      case Ack(code) =>
        var t := s.(codes := s.codes + [code], stored := Stored(ci, s, code));
        if s.index == ci.chunknum - 1 && code != 1 then t.(phase := Fin)
        else if code == 3 || code == 4 then t.(phase := Fin)
        else if code == 0 then t.(phase := Req, index := s.index + 1)
        else t.(phase := Fin)
  }

  const UNSENT := Sender(Req, 0, map[], [], map[])

  /** Over every run of requests and replies the index stays below the number of
      chunks, and every chunk sent or stored is its slice of the file. */
  function SendRun(ci: ChunkInfo, es: seq<SendEvent>): (s: Sender)
    requires Covers(ci)
    ensures s.index < ci.chunknum
    ensures forall i :: i in s.sent ==> i <= s.index && s.sent[i] == Slice(ci, i)
    ensures forall i :: i in s.stored ==> i <= s.index && s.stored[i] == Slice(ci, i)
  {
    if es == [] then UNSENT
    else SendStep(ci, SendRun(ci, es[..|es| - 1]), es[|es| - 1])
  }

  /** The server answers only requests. */
  predicate Answered(ci: ChunkInfo, es: seq<SendEvent>)
    requires Covers(ci)
  {
    es == [] || (Answered(ci, es[..|es| - 1]) && (es[|es| - 1].Ack? ==> SendRun(ci, es[..|es| - 1]).phase != Req))
  }

  /** Exactly one reply to each chunk, accepting it. */
  predicate Accepting(ci: ChunkInfo, codes: seq<nat>) {
    |codes| == ci.chunknum && forall i :: 0 <= i < |codes| ==> codes[i] == AcceptCode(ci, i)
  }

  predicate Stores(stored: map<nat, seq<Byte>>, n: nat) {
    forall i :: 0 <= i < n ==> i in stored
  }

  /** The codes follow the index: zero for every chunk passed, and one more once
      the session has finished. */
  predicate CodesFollow(ci: ChunkInfo, s: Sender) {
    && |s.codes| == (if s.phase == Fin then s.index + 1 else s.index)
    && (forall i :: 0 <= i < s.index ==> s.codes[i] == 0)
  }

  /** The current chunk is unsent while it is about to be requested, and stored
      only at the end. */
  ghost predicate Current(ci: ChunkInfo, s: Sender) {
    && (s.phase == Req ==> s.index !in s.sent && s.index !in s.stored)
    && (s.index in s.stored ==> Accepting(ci, s.codes))
    && (forall i :: i in s.sent || i in s.stored ==> i <= s.index && WholeMessage(ci, i))
  }

  lemma StepFollows(ci: ChunkInfo, s: Sender, e: SendEvent)
    requires Covers(ci) && s.index < ci.chunknum && CodesFollow(ci, s) && Current(ci, s)
    ensures CodesFollow(ci, SendStep(ci, s, e)) && Current(ci, SendStep(ci, s, e))
  {
    hide Covers, Slice;
  }

  lemma {:induction false} RunFollows(ci: ChunkInfo, es: seq<SendEvent>)
    requires Covers(ci)
    ensures CodesFollow(ci, SendRun(ci, es)) && Current(ci, SendRun(ci, es))
  {
    if es != [] {
      RunFollows(ci, es[..|es| - 1]);
      StepFollows(ci, SendRun(ci, es[..|es| - 1]), es[|es| - 1]);
      hide Covers, SendStep, CodesFollow, Current;
    }
  }

  /** With whole messages, and each reply answering a request, the chunks passed are stored, and the
      last one too when its reply accepts it. */
  predicate Kept(ci: ChunkInfo, s: Sender) {
    && Stores(s.stored, s.index) && (s.phase == Rsp ==> s.index in s.sent)
    && (s.phase == Fin && Accepting(ci, s.codes) ==> s.index in s.stored)
  }

  lemma KeptStep(ci: ChunkInfo, s: Sender, e: SendEvent)
    requires Covers(ci) && s.index < ci.chunknum && CodesFollow(ci, s) && Kept(ci, s) && (e.Ack? ==> s.phase != Req)
    requires WholeMessage(ci, s.index)
    ensures Kept(ci, SendStep(ci, s, e))
  {
    hide Covers, Slice;
    if e.Ack? && s.phase == Rsp {
      assert (s.codes + [e.code])[s.index] == e.code;
    }
  }

  lemma {:induction false} KeptRun(ci: ChunkInfo, es: seq<SendEvent>)
    requires Covers(ci) && Answered(ci, es) && WholeMessages(ci)
    ensures Kept(ci, SendRun(ci, es))
  {
    if es != [] {
      KeptRun(ci, es[..|es| - 1]);
      RunFollows(ci, es[..|es| - 1]);
      KeptStep(ci, SendRun(ci, es[..|es| - 1]), es[|es| - 1]);
      hide Covers, SendStep, CodesFollow, Kept, Current;
    }
  }

  /** The first `n` stored chunks, by index. */
  function InOrder(stored: map<nat, seq<Byte>>, n: nat): (r: seq<seq<Byte>>)
    requires Stores(stored, n)
    ensures |r| == n && forall i :: 0 <= i < n ==> r[i] == stored[i]
  {
    seq(n, i requires 0 <= i < n => stored[i])
  }

  function Merged(stored: map<nat, seq<Byte>>, n: nat): seq<Byte>
    requires Stores(stored, n)
  {
    Concat(InOrder(stored, n))
  }

  /** Chunk `i` was passed without being stored. */
  predicate Misses(s: Sender, i: nat) {
    i < |s.codes| && i <= s.index && i !in s.stored && (i == s.index ==> s.phase == Fin)
  }

  lemma MissesStep(ci: ChunkInfo, s: Sender, e: SendEvent, i: nat)
    requires Covers(ci) && s.index < ci.chunknum && CodesFollow(ci, s) && Misses(s, i)
    ensures Misses(SendStep(ci, s, e), i)
  {
    hide Covers, Slice;
  }

  lemma UnaskedStep(ci: ChunkInfo, s: Sender, code: nat)
    requires Covers(ci) && s.index < ci.chunknum && CodesFollow(ci, s) && Current(ci, s) && s.phase == Req
    ensures Misses(SendStep(ci, s, Ack(code)), s.index)
  {
    hide Covers, Slice;
  }

  /** A reply to no request makes the session pass over a chunk for good. */
  lemma {:induction false} PassedOver(ci: ChunkInfo, es: seq<SendEvent>) returns (i: nat)
    requires Covers(ci) && !Answered(ci, es)
    ensures Misses(SendRun(ci, es), i)
  {
    var before := es[..|es| - 1];
    RunFollows(ci, before);
    hide Covers, SendStep, CodesFollow, Current, Misses;
    if Answered(ci, before) {
      i := SendRun(ci, before).index;
      UnaskedStep(ci, SendRun(ci, before), es[|es| - 1].code);
    } else {
      i := PassedOver(ci, before);
      MissesStep(ci, SendRun(ci, before), es[|es| - 1], i);
    }
  }

  /** The server holds every chunk, and so the whole file, exactly when each message
      leaves whole and each reply answered a request and accepted its chunk: code 0
      before the last chunk and code 1 at the last.  The session has then finished. */
  lemma SendComplete(ci: ChunkInfo, es: seq<SendEvent>)
    requires Covers(ci)
    ensures var s := SendRun(ci, es);
            && (Stores(s.stored, ci.chunknum) <==> WholeMessages(ci) && Answered(ci, es) && Accepting(ci, s.codes))
            && (Stores(s.stored, ci.chunknum) ==>
                  s.phase == Fin && s.index == ci.chunknum - 1 && Merged(s.stored, ci.chunknum) == ci.file)
  {
    var s := SendRun(ci, es);
    RunFollows(ci, es);
    WholeFile(ci, s);
    if !Answered(ci, es) {
      var i := PassedOver(ci, es);
      assert Misses(s, i) && i < ci.chunknum;
    } else if WholeMessages(ci) {
      KeptRun(ci, es);
    }
    if Stores(s.stored, ci.chunknum) { StoredSlices(ci, s.stored); }
    hide Covers, SendRun, Answered, Slice, Merged, Accepting, CodesFollow, Current, Kept;
  }

  lemma SendRunStep(ci: ChunkInfo, es: seq<SendEvent>, e: SendEvent)
    requires Covers(ci)
    ensures SendRun(ci, es + [e]) == SendStep(ci, SendRun(ci, es), e)
  {
    assert (es + [e])[..|es|] == es;
    hide Covers, SendStep;
  }

  /** In every run, a reply to a living session lets it go on with the next chunk exactly
      when it is 0 and more chunks are to come, and finishes it otherwise; a request sends
      the chunk that is next, and one that fails deletes the session. */
  lemma AckOutcome(ci: ChunkInfo, es: seq<SendEvent>, code: nat)
    requires Covers(ci) && (SendRun(ci, es).phase == Req || SendRun(ci, es).phase == Rsp)
    ensures var n := |SendRun(ci, es).codes|;
            var a, s := SendRun(ci, es + [Ack(code)]), SendRun(ci, es + [Send]);
            && n < ci.chunknum
            && (if code == 0 && n + 1 < ci.chunknum then a.phase == Req && a.index == n + 1 else a.phase == Fin && a.index == n)
            && s.phase == Rsp && s.index == n && (WholeMessage(ci, n) ==> n in s.sent)
            && SendRun(ci, es + [SendFails]).phase == Gone
  {
    RunFollows(ci, es);
    SendRunStep(ci, es, Ack(code));
    SendRunStep(ci, es, Send);
    SendRunStep(ci, es, SendFails);
    hide Covers, SendRun, Slice, WholeMessage;
  }

  /** Requests answered one by one, each chunk accepted. */
  function Exchange(ci: ChunkInfo, n: nat): seq<SendEvent> {
    if n == 0 then [] else Exchange(ci, n - 1) + [Send] + [Ack(AcceptCode(ci, n - 1))]
  }

  /** This exchange brings the whole file to the server. */
  lemma ExchangeCompletes(ci: ChunkInfo)
    requires Covers(ci) && WholeMessages(ci)
    ensures var s := SendRun(ci, Exchange(ci, ci.chunknum));
            s.phase == Fin && Stores(s.stored, ci.chunknum) && Merged(s.stored, ci.chunknum) == ci.file
  {
    ExchangeRun(ci, ci.chunknum);
    SendComplete(ci, Exchange(ci, ci.chunknum));
    hide Covers, SendRun, Exchange;
  }

  predicate AllAccepted(ci: ChunkInfo, codes: seq<nat>) {
    forall i :: 0 <= i < |codes| ==> codes[i] == AcceptCode(ci, i)
  }

  lemma {:induction false} ExchangeRun(ci: ChunkInfo, n: nat)
    requires Covers(ci) && WholeMessages(ci) && n <= ci.chunknum
    ensures var s := SendRun(ci, Exchange(ci, n));
            && Answered(ci, Exchange(ci, n)) && |s.codes| == n && AllAccepted(ci, s.codes)
            && (n < ci.chunknum ==> s.phase == Req)
  {
    hide Covers, SendRun, WholeMessages, Answered, AllAccepted, Exchange, Current;
    if n == 0 {
      ExchangeNone(ci);
    } else {
      ExchangeRun(ci, n - 1);
      RunFollows(ci, Exchange(ci, n - 1));
      Accepted(ci, Exchange(ci, n - 1));
      ExchangeStep(ci, n);
    }
  }

  lemma ExchangeNone(ci: ChunkInfo)
    requires Covers(ci)
    ensures Exchange(ci, 0) == [] && SendRun(ci, []) == UNSENT && Answered(ci, []) && AllAccepted(ci, UNSENT.codes)
  {
    hide Covers;
  }

  lemma Accepted(ci: ChunkInfo, es: seq<SendEvent>)
    requires Covers(ci) && Answered(ci, es)
    requires var s := SendRun(ci, es); s.phase == Req && |s.codes| == s.index && AllAccepted(ci, s.codes)
    ensures var s, fs := SendRun(ci, es), es + [Send] + [Ack(AcceptCode(ci, SendRun(ci, es).index))];
            var t := SendRun(ci, fs);
            && Answered(ci, fs) && |t.codes| == s.index + 1 && AllAccepted(ci, t.codes)
            && (s.index + 1 < ci.chunknum ==> t.phase == Req)
  {
    hide Covers, SendRun, Answered, AllAccepted, Slice, WholeMessage;
    var asked, code := es + [Send], AcceptCode(ci, SendRun(ci, es).index);
    SendRunStep(ci, es, Send);
    AnsweredStep(ci, es, Send);
    AnsweredStep(ci, asked, Ack(code));
    AcceptStep(ci, SendRun(ci, asked));
    SendRunStep(ci, asked, Ack(code));
  }

  lemma ExchangeStep(ci: ChunkInfo, n: nat)
    requires n > 0
    ensures Exchange(ci, n) == Exchange(ci, n - 1) + [Send] + [Ack(AcceptCode(ci, n - 1))]
  {
  }

  lemma AnsweredStep(ci: ChunkInfo, es: seq<SendEvent>, e: SendEvent)
    requires Covers(ci)
    ensures Answered(ci, es + [e]) <==> Answered(ci, es) && (e.Ack? ==> SendRun(ci, es).phase != Req)
  {
    assert (es + [e])[..|es|] == es;
    hide Covers, SendRun;
  }

  lemma AcceptStep(ci: ChunkInfo, s: Sender)
    requires Covers(ci) && s.index < ci.chunknum && s.phase == Rsp && |s.codes| == s.index && AllAccepted(ci, s.codes)
    ensures var t := SendStep(ci, s, Ack(AcceptCode(ci, s.index)));
            && |t.codes| == s.index + 1 && AllAccepted(ci, t.codes)
            && (s.index + 1 < ci.chunknum ==> t.phase == Req && t.index == s.index + 1)
  {
    hide Covers, Slice;
  }

  /** When a session can have every chunk stored, and when it does. */
  lemma WholeFile(ci: ChunkInfo, s: Sender)
    requires s.index < ci.chunknum && CodesFollow(ci, s) && Current(ci, s)
    ensures Stores(s.stored, ci.chunknum) ==>
              WholeMessages(ci) && Accepting(ci, s.codes) && s.phase == Fin && s.index == ci.chunknum - 1
    ensures Kept(ci, s) && Accepting(ci, s.codes) ==> Stores(s.stored, ci.chunknum)
  {
    assert Stores(s.stored, ci.chunknum) ==> ci.chunknum - 1 in s.stored;
  }

  lemma OneMore(ci: ChunkInfo, es: seq<SendEvent>, e: SendEvent)
    requires Covers(ci)
    ensures SendRun(ci, es + [e]) == SendStep(ci, SendRun(ci, es), e)
    ensures Answered(ci, es + [e]) <==> Answered(ci, es) && (e.Ack? ==> SendRun(ci, es).phase != Req)
    ensures SendRun(ci, []) == UNSENT && Answered(ci, [])
  {
    assert (es + [e])[..|es|] == es;
  }

  /** A checksum error at the only chunk answers a request, and the server has
      nothing. */
  lemma RejectedExample()
    ensures var ci, es := ChunkInfo([7], 1, 1), [Send, Ack(3)];
            && Covers(ci) && Answered(ci, es)
            && SendRun(ci, es).phase == Fin && SendRun(ci, es).index == ci.chunknum - 1 && SendRun(ci, es).stored == map[]
  {
    var ci := ChunkInfo([7], 1, 1);
    assert Covers(ci);
    hide SendRun, Answered, Covers, Slice;
    OneMore(ci, [], Send);
    assert [] + [Send] == [Send];
    OneMore(ci, [Send], Ack(3));
    assert [Send] + [Ack(3)] == [Send, Ack(3)];
  }

  /** A chunk of 65535 bytes: the message is cut at 24 bytes, and an accepting reply
      leaves the server without the chunk. */
  lemma CutMessageExample(file: seq<Byte>)
    requires |file| == 65535
    ensures var ci, es := Generate(file, 1, 65535).ci, [Send, Ack(1)];
            && Covers(ci) && Answered(ci, es) && Accepting(ci, SendRun(ci, es).codes)
            && MessageLength(ci, 0) == DATA_START && SendRun(ci, es).phase == Fin && SendRun(ci, es).stored == map[]
  {
    var ci := ChunkInfo(file, 1, 65535);
    assert Generate(file, 1, 65535) == Cut(ci);
    assert Covers(ci) && Length(ci, 0) == 65535;
    hide SendRun, Answered, Covers, Slice;
    OneMore(ci, [], Send);
    assert [] + [Send] == [Send];
    OneMore(ci, [Send], Ack(1));
    assert [Send] + [Ack(1)] == [Send, Ack(1)];
  }

  /** An unasked reply makes the session finish without the first of two chunks. */
  lemma UnaskedExample()
    ensures var ci, es := ChunkInfo([7, 8], 2, 1), [Ack(0), Send, Ack(1)];
            && Covers(ci) && !Answered(ci, es) && Accepting(ci, SendRun(ci, es).codes)
            && SendRun(ci, es).phase == Fin && SendRun(ci, es).index == ci.chunknum - 1
            && 0 !in SendRun(ci, es).stored && 1 in SendRun(ci, es).stored
  {
    var ci := ChunkInfo([7, 8], 2, 1);
    assert Covers(ci);
    hide SendRun, Answered, Covers, Slice;
    OneMore(ci, [], Ack(0));
    assert [] + [Ack(0)] == [Ack(0)];
    OneMore(ci, [Ack(0)], Send);
    assert [Ack(0)] + [Send] == [Ack(0), Send];
    OneMore(ci, [Ack(0), Send], Ack(1));
    assert [Ack(0), Send] + [Ack(1)] == [Ack(0), Send, Ack(1)];
  }

  lemma StoredSlices(ci: ChunkInfo, stored: map<nat, seq<Byte>>)
    requires Covers(ci) && Stores(stored, ci.chunknum)
    requires forall i :: i in stored ==> i < ci.chunknum && stored[i] == Slice(ci, i)
    ensures Merged(stored, ci.chunknum) == ci.file
  {
    hide Covers;
    assert InOrder(stored, ci.chunknum) == Slices(ci);
    MergeSlices(ci);
  }

  // ----- Fetching -----

  /** One chunk answer: code, number of chunks, data. */
  datatype Answer = Answer(code: nat, chunknum: nat, data: seq<Byte>)

  /** A chunkrecv session: the chunks queued under priorities 0, 1, 2, ... */
  datatype Receiver = Receiver(phase: Phase, index: nat, chunknum: nat, queue: Option<seq<seq<Byte>>>, merged: seq<Byte>)

  datatype RecvEvent = Ask | AskFails | Reply(answer: Answer)

  const FRESH := Receiver(Req, 0, 0, None, [])

  function RecvStep(r: Receiver, e: RecvEvent): Receiver {
    if r.phase.Fin? || r.phase.Gone? then r
    else match e
      // chunkrecv_request
      case Ask => r.(phase := Rsp)
      case AskFails => r.(phase := Gone)
      // chunkrecv_response
      case Reply(a) => if a.code != 0 then r.(phase := Gone) else Queued(Opened(r, a.chunknum), a.data)
  }

  /** The first good answer creates the queue. */
  function Opened(r: Receiver, chunknum: nat): Receiver {
    if r.queue.None? then r.(chunknum := chunknum, queue := Some([])) else r
  }

  function Queued(r: Receiver, data: seq<Byte>): Receiver
    requires r.queue.Some?
  {
    if |r.queue.value| == r.chunknum || data == [] then r.(phase := Gone)
    else
      var q := r.queue.value + [data];
      if |q| != r.chunknum then r.(phase := Req, index := r.index + 1, queue := Some(q))
      else r.(phase := Fin, queue := Some([]), merged := Concat(q))
  }

  function RecvRun(es: seq<RecvEvent>): Receiver {
    if es == [] then FRESH else RecvStep(RecvRun(es[..|es| - 1]), es[|es| - 1])
  }

  function Answers(es: seq<RecvEvent>): seq<Answer> {
    if es == [] then []
    else Answers(es[..|es| - 1]) + (if es[|es| - 1].Reply? then [es[|es| - 1].answer] else [])
  }

  function Datas(answers: seq<Answer>): seq<seq<Byte>> {
    seq(|answers|, i requires 0 <= i < |answers| => answers[i].data)
  }

  /** Answers that bring a chunk: no error, and data. */
  predicate Bring(answers: seq<Answer>) {
    forall i :: 0 <= i < |answers| ==> answers[i].code == 0 && answers[i].data != []
  }

  /** A session that lives has had only good answers and holds exactly their data; a
      finished one merged as many as the first answer announced, all of them good; a
      deleted one merged nothing. */
  ghost predicate Fetching(r: Receiver, answers: seq<Answer>) {
    match r.phase
    case Gone => r.merged == []
    case Fin =>
      && r.index == r.chunknum - 1 && r.chunknum <= |answers| && answers[0].chunknum == r.chunknum
      && Bring(answers[..r.chunknum]) && r.merged == Concat(Datas(answers[..r.chunknum]))
    case _ =>
      && r.merged == [] && Bring(answers)
      && if r.queue.None? then r.index == 0 && answers == []
         else
           && r.queue.value == Datas(answers) && r.index == |answers| < r.chunknum
           && answers != [] && answers[0].chunknum == r.chunknum
  }

  lemma FetchStep(r: Receiver, answers: seq<Answer>, a: Answer)
    requires Fetching(r, answers)
    ensures Fetching(RecvStep(r, Reply(a)), answers + [a])
  {
    var all := answers + [a];
    if r.phase == Fin {
      assert all[..r.chunknum] == answers[..r.chunknum] && all[0] == answers[0];
    } else if r.phase != Gone && a.code == 0 {
      assert Datas(all) == Datas(answers) + [a.data];
      assert all[..|answers| + 1] == all;
      assert answers != [] ==> all[0] == answers[0];
    }
  }

  /** Over every run, whatever the server answers: the index stays below the number
      of chunks, and a finished session merged exactly the answers, in order, each
      of them good. */
  lemma {:induction false} RecvFetches(es: seq<RecvEvent>)
    ensures Fetching(RecvRun(es), Answers(es))
  {
    if es != [] {
      var n := |es| - 1;
      RecvFetches(es[..n]);
      if es[n].Reply? {
        FetchStep(RecvRun(es[..n]), Answers(es[..n]), es[n].answer);
      } else {
        assert Answers(es) == Answers(es[..n]);
      }
    }
  }

  /** In every run, a reply to a living session deletes it exactly when it carries an
      error or no data, or announces no chunks as the first; it finishes it exactly
      when it is the last of the chunks announced; else the next chunk is asked for. */
  lemma ReplyOutcome(es: seq<RecvEvent>, a: Answer)
    requires RecvRun(es).phase == Req || RecvRun(es).phase == Rsp
    ensures var n, t := |Answers(es)|, RecvRun(es + [Reply(a)]);
            var announced := if n == 0 then a.chunknum else Answers(es)[0].chunknum;
            && (t.phase == Gone <==> a.code != 0 || a.data == [] || announced == 0)
            && (t.phase == Fin <==> a.code == 0 && a.data != [] && announced == n + 1)
            && (t.phase == Gone || t.phase == Fin || (t.phase == Req && t.index == n + 1))
    ensures RecvRun(es + [Ask]).phase == Rsp && RecvRun(es + [AskFails]).phase == Gone
  {
    RecvFetches(es);
    assert (es + [Reply(a)])[..|es|] == es && (es + [Ask])[..|es|] == es && (es + [AskFails])[..|es|] == es;
    hide Answers;
    assert RecvRun(es + [Ask]) == RecvStep(RecvRun(es), Ask) && RecvRun(es + [AskFails]) == RecvStep(RecvRun(es), AskFails);
    assert RecvRun(es + [Reply(a)]) == RecvStep(RecvRun(es), Reply(a));
    hide RecvRun;
  }

  /** The server answers with the chunks it stored. */
  ghost predicate Serves(answers: seq<Answer>, stored: map<nat, seq<Byte>>, chunknum: nat) {
    forall k :: 0 <= k < |answers| && k < chunknum ==>
      k in stored && stored[k] != [] && answers[k] == Answer(0, chunknum, stored[k])
  }

  /** What `n` such answers have led to. */
  predicate Progress(r: Receiver, n: nat, chunknum: nat) {
    if n >= chunknum then r.phase == Fin && r.chunknum == chunknum
    else (r.phase == Req || r.phase == Rsp) && (r.queue.Some? ==> r.chunknum == chunknum)
  }

  lemma ServedStep(r: Receiver, answers: seq<Answer>, a: Answer, chunknum: nat)
    requires Fetching(r, answers) && Progress(r, |answers|, chunknum) && chunknum >= 1
    requires |answers| < chunknum ==> a.code == 0 && a.chunknum == chunknum && a.data != []
    ensures Progress(RecvStep(r, Reply(a)), |answers| + 1, chunknum)
  {
  }

  lemma {:induction false} RecvServed(es: seq<RecvEvent>, stored: map<nat, seq<Byte>>, chunknum: nat)
    requires chunknum >= 1 && Serves(Answers(es), stored, chunknum) && forall i :: 0 <= i < |es| ==> es[i] != AskFails
    ensures Progress(RecvRun(es), |Answers(es)|, chunknum)
  {
    if es != [] {
      var n := |es| - 1;
      var before := Answers(es[..n]);
      assert forall k :: 0 <= k < |before| ==> before[k] == Answers(es)[k];
      RecvServed(es[..n], stored, chunknum);
      RecvFetches(es[..n]);
      hide Fetching;
      if es[n].Reply? {
        assert Answers(es)[|before|] == es[n].answer;
        ServedStep(RecvRun(es[..n]), before, es[n].answer, chunknum);
      }
      hide Serves;
    }
  }

  lemma SameChunks(answers: seq<Answer>, stored: map<nat, seq<Byte>>, chunknum: nat)
    requires Serves(answers, stored, chunknum) && Stores(stored, chunknum) && chunknum <= |answers|
    ensures Datas(answers[..chunknum]) == InOrder(stored, chunknum)
  {
  }

  /** A file cut and sent by one session in whole messages, each chunk accepted, comes
      back whole through another. */
  lemma FileRoundTrip(ci: ChunkInfo, sent: seq<SendEvent>, es: seq<RecvEvent>)
    requires Covers(ci) && WholeMessages(ci) && Answered(ci, sent) && Accepting(ci, SendRun(ci, sent).codes)
    requires Serves(Answers(es), SendRun(ci, sent).stored, ci.chunknum) && |Answers(es)| >= ci.chunknum
    requires forall i :: 0 <= i < |es| ==> es[i] != AskFails
    ensures RecvRun(es).phase == Fin && RecvRun(es).merged == ci.file
  {
    var stored := SendRun(ci, sent).stored;
    RecvServed(es, stored, ci.chunknum);
    RecvFetches(es);
    SendComplete(ci, sent);
    SameChunks(Answers(es), stored, ci.chunknum);
    hide Covers, SendRun, RecvRun, Answered, Answers, Slice, Serves;
  }
}
