/** The transfer sessions as objects: chunksend_request/response and
    chunkrecv_request/response of mtk_session.c, with the chunks of a fetched file
    in the priority queue that mtk_filchunk_merge drains. */
module MtkTransfer {
  import opened Bytes
  import opened MinPq
  import opened MtkChunks
  import opened Wrappers

  /** Chunks `k` and later, each under its index. */
  ghost function NodesFrom(chunks: seq<seq<Byte>>, k: nat): multiset<Node<seq<Byte>>>
    requires k <= |chunks|
    decreases |chunks| - k
  {
    if k == |chunks| then multiset{} else multiset{Node(k, chunks[k])} + NodesFrom(chunks, k + 1)
  }

  lemma {:induction false} NodesAre(chunks: seq<seq<Byte>>, k: nat, node: Node<seq<Byte>>)
    requires k <= |chunks| && node in NodesFrom(chunks, k)
    ensures k <= node.prior < |chunks| && node.value == chunks[node.prior]
    decreases |chunks| - k
  {
    if node != Node(k, chunks[k]) { NodesAre(chunks, k + 1, node); }
  }

  lemma {:induction false} NodesAppend(chunks: seq<seq<Byte>>, data: seq<Byte>, k: nat)
    requires k <= |chunks|
    ensures NodesFrom(chunks + [data], k) == NodesFrom(chunks, k) + multiset{Node(|chunks|, data)}
    decreases |chunks| - k
  {
    if k < |chunks| {
      NodesAppend(chunks, data, k + 1);
    } else {
      assert NodesFrom(chunks + [data], k + 1) == multiset{};
    }
  }

  /** mtk_filchunk_merge: draining a queue that holds chunks under their indices,
      whatever order they arrived in, writes them in index order. */
  method Merge(pq: PriorityQueue<seq<Byte>>, ghost chunks: seq<seq<Byte>>) returns (file: seq<Byte>)
    requires pq.Valid() && pq.count == |chunks| && pq.Elements() == NodesFrom(chunks, 0)
    modifies pq, pq.nodes
    ensures pq.Valid() && pq.Empty() && pq.Elements() == multiset{} && file == Concat(chunks)
  {
    hide IsHeap, Held, NodesFrom;
    file := [];
    ghost var k := 0;
    while !pq.Empty()
      invariant pq.Valid() && k <= |chunks| && pq.count == |chunks| - k
      invariant pq.Elements() == NodesFrom(chunks, k) && file == Concat(chunks[..k])
      decreases pq.count
    {
      var ok, node := pq.DelMin();
      NextChunk(chunks, k, node);
      file := file + node.value;
      k := k + 1;
    }
    Drained(chunks, k);
  }

  lemma Drained(chunks: seq<seq<Byte>>, k: nat)
    requires k == |chunks|
    ensures chunks[..k] == chunks && NodesFrom(chunks, k) == multiset{}
  {
  }

  /** A node of least priority is the next chunk. */
  lemma NextChunk(chunks: seq<seq<Byte>>, k: nat, node: Node<seq<Byte>>)
    requires k < |chunks| && node in NodesFrom(chunks, k)
    requires forall other :: other in NodesFrom(chunks, k) ==> node.prior <= other.prior
    ensures NodesFrom(chunks, k) - multiset{node} == NodesFrom(chunks, k + 1)
    ensures Concat(chunks[..k]) + node.value == Concat(chunks[..k + 1])
  {
    assert Node(k, chunks[k]) in NodesFrom(chunks, k);
    NodesAre(chunks, k, node);
    assert chunks[..k + 1] == chunks[..k] + [chunks[k]];
    ConcatOne(chunks[..k], chunks[k]);
  }

  class ChunkReceiver {
    var phase: Phase
    var index: nat
    var chunknum: nat
    var pq: PriorityQueue?<seq<Byte>>
    var merged: seq<Byte>
    ghost var chunks: seq<seq<Byte>>

    predicate Live()
      reads this
    {
      phase == Req || phase == Rsp
    }

    ghost predicate Valid()
      reads this, pq, if pq != null then {pq.nodes} else {}
    {
      if pq == null then chunks == [] && index == 0
      else
        && pq.Valid() && pq.capacity == chunknum && pq.count == |chunks|
        && pq.Elements() == NodesFrom(chunks, 0) && (Live() ==> index == |chunks|)
    }

    ghost function View(): Receiver
      reads this
    {
      Receiver(phase, index, chunknum, if pq == null then None else Some(chunks), merged)
    }

    constructor ()
      ensures Valid() && View() == FRESH
    {
      phase, index, chunknum, pq, merged, chunks := Req, 0, 0, null, [], [];
    }

    /** chunkrecv_request; `ok` is whether the request could be packed. */
    method Request(ok: bool)
      requires Valid()
      modifies this
      ensures Valid() && View() == RecvStep(old(View()), if ok then Ask else AskFails)
    {
      if Live() { phase := if ok then Rsp else Gone; }
    }

    /** chunkrecv_response. */
    method Response(a: Answer)
      requires Valid()
      modifies this, pq, if pq != null then {pq.nodes} else {}
      ensures Valid() && View() == RecvStep(old(View()), Reply(a))
      ensures pq == old(pq) || fresh(pq)
    {
      hide IsHeap, Held, NodesFrom, Concat;
      if !Live() { return; }
      if a.code != 0 {
        phase := Gone;
        return;
      }
      if pq == null {
        chunknum := a.chunknum;
        pq := new PriorityQueue<seq<Byte>>(chunknum);
        Drained([], 0);
      }
      assert Valid() && View() == Opened(old(View()), a.chunknum);
      QueueChunk(a.data);
    }

    /** The part of chunkrecv_response once the queue is there. */
    method QueueChunk(data: seq<Byte>)
      requires Valid() && pq != null && Live()
      modifies this, pq, pq.nodes
      ensures Valid() && pq == old(pq) && View() == Queued(old(View()), data)
    {
      hide IsHeap, Held, NodesFrom, Concat, Inserted;
      if pq.Full() || data == [] {
        phase := Gone;
        return;
      }
      NodesAppend(chunks, data, 0);
      var ok := pq.Insert(data, index);
      chunks := chunks + [data];
      if !pq.Full() {
        index := index + 1;
        phase := Req;
      } else {
        phase := Fin;
        merged := Merge(pq, chunks);
        Drained([], 0);
        chunks := [];
      }
    }
  }

  class ChunkSender {
    const ci: ChunkInfo
    var phase: Phase
    var index: nat
    var sent: map<nat, seq<Byte>>
    ghost var codes: seq<nat>
    ghost var stored: map<nat, seq<Byte>>

    ghost function View(): Sender
      reads this
    {
      Sender(phase, index, sent, codes, stored)
    }

    ghost predicate Valid()
      reads this
    {
      Covers(ci) && index < ci.chunknum
    }

    constructor (ci: ChunkInfo)
      requires Covers(ci)
      ensures Valid() && this.ci == ci && View() == SendRun(ci, [])
    {
      this.ci := ci;
      phase, index, sent, codes, stored := Req, 0, map[], [], map[];
    }

    /** chunksend_request; `ok` is whether the data could be read and packed.  The
        message reaches the server only when its 16-bit length holds all of it. */
    method Request(ok: bool)
      requires Valid()
      modifies this
      ensures Valid() && View() == SendStep(ci, old(View()), if ok then Send else SendFails)
    {
      if phase == Fin || phase == Gone { return; }
      if !ok {
        phase := Gone;
        return;
      }
      var start := if index == 0 then 0 else index * ci.chunksize;
      var dlen := if index == ci.chunknum - 1 then |ci.file| - start else ci.chunksize;
      SliceEnds(ci, index);
      if OVERHEAD + dlen < FIELD { sent := sent[index := ci.file[start..start + dlen]]; }
      phase := Rsp;
    }

    /** chunksend_response. */
    method Response(code: nat)
      requires Valid()
      modifies this
      ensures Valid() && View() == SendStep(ci, old(View()), Ack(code))
    {
      if phase == Fin || phase == Gone { return; }
      codes, stored := codes + [code], Stored(ci, View(), code);
      if index == ci.chunknum - 1 && code != 1 {
        phase := Fin;
        return;
      }
      if code == 3 {
        phase := Fin;
      } else if code == 4 {
        phase := Fin;
      } else if code == 0 {
        index := index + 1;
        phase := Req;
      } else {
        phase := Fin;
      }
    }
  }
}
