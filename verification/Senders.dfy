/** The writer halves of the three node types, loop by loop, against the scripts of module Writers. */
module Senders {
  import opened Wire
  import opened Frames
  import opened Writers
  import opened Conservation

  datatype WriteResult = Delivered | Cancelled | TooLarge

  /** The output stream; every write succeeds in full. `frames` is what its bytes amount to. */
  class Sink {
    var content: seq<byte>
    ghost var frames: seq<Frame>

    ghost predicate Valid()
      reads this
    {
      content == EncodeAll(frames)
    }

    constructor ()
      ensures Valid() && content == [] && frames == []
    {
      content, frames := [], [];
    }

    method Write(b: seq<byte>)
      modifies this`content
      ensures content == old(content) + b
    {
      content := content + b;
    }
  }

  /** One frame under the writer lock: a nine-byte header, then the data of a Data frame. */
  method WriteFrame(sink: Sink, kind: byte, id: uint32, data: seq<byte>) returns (ok: bool)
    requires sink.Valid()
    modifies sink
    ensures sink.Valid() && (ok <==> |data| < WORD32)
    ensures ok ==> sink.frames == old(sink.frames) + [Frame(kind, id, |data|, if kind == DATA then data else [])]
    ensures !ok ==> sink.frames == old(sink.frames)
  {
    if |data| >= WORD32 {
      return false;
    }
    ghost var f := Frame(kind, id, |data|, if kind == DATA then data else []);
    var header := new byte[HEADER_SIZE];
    var idBytes, lengthBytes := BE32(id), BE32(|data|);
    header[0] := kind;
    header[1], header[2], header[3], header[4] := idBytes[0], idBytes[1], idBytes[2], idBytes[3];
    header[5], header[6], header[7], header[8] := lengthBytes[0], lengthBytes[1], lengthBytes[2], lengthBytes[3];
    assert header[..] == [kind] + idBytes + lengthBytes;
    sink.Write(header[..]);
    if kind == DATA && |data| > 0 {
      sink.Write(data);
    }
    assert sink.content == old(sink.content) + Encode(f);
    EncodeAllAppend(sink.frames, [f]);
    EncodeAllOne(f);
    sink.frames := sink.frames + [f];
    return true;
  }

  /** The first chunk of what is left, and the chunks after it. */
  lemma NextChunk(rest: seq<byte>, size: nat)
    requires size > 0 && rest != []
    ensures var c := if |rest| <= size then |rest| else size;
            Chunks(rest, size) == [rest[..c]] + Chunks(rest[c..], size)
  {
    if |rest| <= size {
      assert rest[..|rest|] == rest;
    }
  }

  lemma OpeningNone(job: Job)
    ensures Opening(job, 0) == [StartFrame(job.id, job.announced)]
  {
  }

  /** A context seen done at poll `cancel.value`, and at every poll after it. */
  predicate Done(cancel: Option<nat>, polls: nat) {
    cancel.Some? && cancel.value <= polls
  }

  method WriteStart(sink: Sink, id: uint32, data: seq<byte>, ghost job: Job)
    requires sink.Valid() && job.id == id && job.announced == |data| < WORD32
    modifies sink
    ensures sink.Valid() && sink.frames == old(sink.frames) + Opening(job, 0)
  {
    var _ := WriteFrame(sink, START, id, data);
    OpeningNone(job);
  }

  method WriteChunk(sink: Sink, id: uint32, chunk: seq<byte>, ghost before: seq<Frame>, ghost job: Job, ghost k: nat)
    requires k < |job.chunks| && job.id == id && job.chunks[k] == chunk && |chunk| < WORD32
    requires sink.Valid() && sink.frames == before + Opening(job, k)
    modifies sink
    ensures sink.Valid() && sink.frames == before + Opening(job, k + 1)
  {
    var _ := WriteFrame(sink, DATA, id, chunk);
    OpeningSnoc(job, k);
    Regroup(before, Opening(job, k), [DataFrame(id, chunk)]);
  }

  method WriteLast(sink: Sink, id: uint32, kind: byte, ghost before: seq<Frame>, ghost job: Job, ghost k: nat)
    requires k <= |job.chunks| && job.id == id && (kind == ABORT || (kind == END && k == |job.chunks|))
    requires sink.Valid() && sink.frames == before + Opening(job, k)
    modifies sink
    ensures sink.Valid() && sink.frames == before + FramesSoFar(job, if kind == ABORT then Cut(k) else Completed)
  {
    var _ := WriteFrame(sink, kind, id, []);
    Regroup(before, Opening(job, k), [Frame(kind, id, 0, [])]);
  }

  /**
   The data loop of the basic writer: one chunk, then a poll, on ever shorter slices. Seen cancelled it
   writes the Abort frame itself.
   */
  method SendSlices(sink: Sink, cancel: Option<nat>, id: uint32, data: seq<byte>, ghost before: seq<Frame>,
      ghost job: Job)
    returns (ok: bool, polls: nat)
    requires job.chunks == Chunks(data, KB) && job.id == id && !Done(cancel, 0)
    requires sink.Valid() && sink.frames == before + Opening(job, 0)
    modifies sink
    ensures sink.Valid()
    ensures ok ==> polls == |job.chunks| + 1 && !Done(cancel, polls - 1)
    ensures ok ==> sink.frames == before + Opening(job, |job.chunks|)
    ensures !ok ==> cancel == Some(polls) && 0 < polls <= |job.chunks|
    ensures !ok ==> sink.frames == before + FramesSoFar(job, Cut(polls))
  {
    ghost var k := 0;
    polls := 1;
    var rest := data;
    while |rest| > 0
      invariant k <= |job.chunks| && Chunks(rest, KB) == job.chunks[k..]
      invariant sink.Valid() && sink.frames == before + Opening(job, k)
      invariant polls == k + 1 && !Done(cancel, k)
      decreases |rest|
    {
      var chunkSize := if |rest| < KB then |rest| else KB;
      NextChunk(rest, KB);
      assert job.chunks[k] == job.chunks[k..][0];
      WriteChunk(sink, id, rest[..chunkSize], before, job, k);
      k := k + 1;
      if Done(cancel, polls) {
        WriteLast(sink, id, ABORT, before, job, k);
        return false, polls;
      }
      polls := polls + 1;
      rest := rest[chunkSize..];
    }
    return true, polls;
  }

  /** The basic node's writer: announces the length, polls after every chunk, reslices its data. */
  class BasicSender {
    const sink: Sink

    constructor (sink: Sink)
      ensures this.sink == sink
    {
      this.sink := sink;
    }

    method WriteMessageWithSequence(cancel: Option<nat>, id: uint32, data: seq<byte>) returns (r: WriteResult)
      requires sink.Valid()
      modifies sink
      ensures sink.Valid()
      ensures r == TooLarge <==> |data| >= WORD32
      ensures r == TooLarge ==> sink.frames == old(sink.frames)
      ensures r != TooLarge ==>
        var job := JobOf(NodeWriter, id, data);
        var pc := FinalPc(NodeWriter, |job.chunks|, cancel);
        && sink.frames == old(sink.frames) + FramesSoFar(job, pc)
        && (r == Delivered <==> pc == Completed)
      ensures r != TooLarge ==>
        var n := Pieces(|data|, 1024);
        && (r == Delivered <==> cancel.None? || cancel.value >= n + 2)
        && old(sink.frames) <= sink.frames
        && Spelled(sink.frames[|old(sink.frames)|..], id, |data|, data, 1024,
                   if r == Delivered then n else Min(cancel.value, n), if r == Delivered then END else ABORT)
    {
      if |data| >= WORD32 {
        return TooLarge;
      }
      ghost var before, job := sink.frames, JobOf(NodeWriter, id, data);
      ghost var n := |job.chunks|;
      FinalPcIs(NodeWriter, n, cancel);
      ScriptIsSpelled(NodeWriter, id, data, FinalPc(NodeWriter, n, cancel), before);
      WriteStart(sink, id, data, job);
      if Done(cancel, 0) {
        WriteLast(sink, id, ABORT, before, job, 0);
        return Cancelled;
      }
      var ok, polls := SendSlices(sink, cancel, id, data, before, job);
      if !ok {
        return Cancelled;
      }
      if Done(cancel, polls) {
        WriteLast(sink, id, ABORT, before, job, n);
        return Cancelled;
      }
      WriteLast(sink, id, END, before, job, n);
      return Delivered;
    }
  }

  function ChunksIn(job: Job, pc: Pc): (k: nat)
    requires InRange(job, pc)
    ensures k <= |job.chunks|
  {
    match pc
    case Sent(k) => k
    case Cut(k) => k
    case Completed => |job.chunks|
    case _ => 0
  }

  lemma NextOffset(data: seq<byte>, offset: nat, end: nat, size: nat, cs: seq<seq<byte>>, k: nat)
    requires size > 0 && offset < |data| && end == (if offset + size > |data| then |data| else offset + size)
    requires k <= |cs| && Chunks(data[offset..], size) == cs[k..]
    ensures k < |cs| && cs[k] == data[offset..end] && Chunks(data[end..], size) == cs[k + 1..]
    ensures |Concat(cs[..k + 1])| == |Concat(cs[..k])| + (end - offset)
  {
    var rest := data[offset..];
    NextChunk(rest, size);
    var c := end - offset;
    assert rest[..c] == data[offset..end] && rest[c..] == data[end..];
    assert cs[k] == cs[k..][0] && cs[k + 1..] == cs[k..][1..];
    ConcatSnoc(cs, k);
  }

  lemma PlusTwice(x: uint64, a: nat, b: nat)
    ensures Plus(Plus(x, a), b) == Plus(x, a + b)
  {
  }

  lemma PlusNone(x: uint64)
    ensures Plus(x, 0) == x
  {
  }

  class WriteMetrics {
    var messagesWritten: uint64
    var bytesWritten: uint64

    constructor ()
      ensures messagesWritten == bytesWritten == 0
    {
      messagesWritten, bytesWritten := 0, 0;
    }

    /** The atomic add; `counted` bytes were counted since the counter showed `first`. */
    method AddBytes(n: nat, ghost first: uint64, ghost counted: nat)
      requires bytesWritten == Plus(first, counted)
      modifies this`bytesWritten
      ensures bytesWritten == Plus(first, counted + n)
    {
      PlusTwice(first, counted, n);
      bytesWritten := Plus(bytesWritten, n);
    }
  }

  /** One Data frame of an adaptive writer, and its bytes in the counter, which showed `first` before the message. */
  method SendPiece(sink: Sink, metrics: WriteMetrics, id: uint32, data: seq<byte>, offset: nat, end: nat,
                   ghost before: seq<Frame>, ghost job: Job, ghost k: nat, ghost first: uint64)
    requires offset <= end <= |data| && end - offset < WORD32
    requires k < |job.chunks| && job.id == id && job.chunks[k] == data[offset..end]
    requires sink.Valid() && sink.frames == before + Opening(job, k) && metrics.bytesWritten == Plus(first, offset)
    modifies sink, metrics`bytesWritten
    ensures sink.Valid() && sink.frames == before + Opening(job, k + 1) && metrics.bytesWritten == Plus(first, end)
  {
    var chunk := data[offset..end];
    WriteChunk(sink, id, chunk, before, job, k);
    metrics.AddBytes(|chunk|, first, offset);
  }

  /**
   The data loop of the adaptive writers: poll, then one chunk. Seen cancelled after `k` chunks it writes
   the Abort frame itself.
   */
  method SendChunks(sink: Sink, metrics: WriteMetrics, cancel: Option<nat>, ghost before: seq<Frame>, ghost job: Job,
                    id: uint32, data: seq<byte>, chunkSize: nat, firstPoll: nat)
    returns (ok: bool, polls: nat, ghost k: nat)
    requires 0 < chunkSize < WORD32 && job.chunks == Chunks(data, chunkSize) && job.id == id
    requires firstPoll > 0 && !Done(cancel, firstPoll - 1)
    requires sink.Valid() && sink.frames == before + Opening(job, 0)
    modifies sink, metrics`bytesWritten
    ensures sink.Valid()
    ensures k <= |job.chunks| && polls == firstPoll + k
    ensures metrics.bytesWritten == Plus(old(metrics.bytesWritten), |Concat(job.chunks[..k])|)
    ensures ok ==> k == |job.chunks| && !Done(cancel, polls - 1) && sink.frames == before + Opening(job, k)
    ensures !ok ==> cancel == Some(polls) && k < |job.chunks| && sink.frames == before + FramesSoFar(job, Cut(k))
  {
    var offset := 0;
    k, polls := 0, firstPoll;
    assert data[0..] == data && job.chunks[..0] == [];
    while offset < |data|
      invariant offset <= |data| && k <= |job.chunks| && Chunks(data[offset..], chunkSize) == job.chunks[k..]
      invariant sink.Valid() && sink.frames == before + Opening(job, k)
      invariant polls == firstPoll + k && !Done(cancel, polls - 1)
      invariant metrics.bytesWritten == Plus(old(metrics.bytesWritten), offset) && |Concat(job.chunks[..k])| == offset
    {
      var end := if offset + chunkSize > |data| then |data| else offset + chunkSize;
      NextOffset(data, offset, end, chunkSize, job.chunks, k);
      if Done(cancel, polls) {
        WriteLast(sink, id, ABORT, before, job, k);
        return false, polls, k;
      }
      polls := polls + 1;
      SendPiece(sink, metrics, id, data, offset, end, before, job, k, old(metrics.bytesWritten));
      offset := end;
      k := k + 1;
    }
    return true, polls, k;
  }

  /** Start, poll, data, poll, End: what the two adaptive writers have in common. Polls count from `base`. */
  method SendAdaptive(sink: Sink, metrics: WriteMetrics, cancel: Option<nat>, base: nat, id: uint32, data: seq<byte>,
                      chunkSize: nat, ghost kind: Kind)
    returns (r: WriteResult)
    requires !kind.NodeWriter? && base == (if kind.HybridWriter? then 1 else 0) && chunkSize == ChunkSize(kind, |data|)
    requires sink.Valid() && (cancel.Some? ==> cancel.value >= base)
    modifies sink, metrics
    ensures var job := JobOf(kind, id, data);
            var pc := FinalPc(kind, |job.chunks|, cancel);
            && sink.Valid() && sink.frames == old(sink.frames) + FramesSoFar(job, pc)
            && (r == Delivered <==> pc == Completed) && r != TooLarge
            && metrics.messagesWritten ==
               (if r == Delivered then Plus(old(metrics.messagesWritten), 1) else old(metrics.messagesWritten))
            && metrics.bytesWritten == Plus(old(metrics.bytesWritten), |Concat(job.chunks[..ChunksIn(job, pc)])|)
  {
    ghost var job := JobOf(kind, id, data);
    FinalPcIs(kind, |job.chunks|, cancel);
    PlusNone(metrics.bytesWritten);
    ghost var before, n := sink.frames, |job.chunks|;
    assert job.chunks[..0] == [];
    WriteStart(sink, id, [], job);
    if Done(cancel, base) {
      WriteLast(sink, id, ABORT, before, job, 0);
      return Cancelled;
    }
    var ok, polls, k := SendChunks(sink, metrics, cancel, before, job, id, data, chunkSize, base + 1);
    if !ok {
      return Cancelled;
    }
    if Done(cancel, polls) {
      WriteLast(sink, id, ABORT, before, job, n);
      return Cancelled;
    }
    WriteLast(sink, id, END, before, job, n);
    metrics.messagesWritten := Plus(metrics.messagesWritten, 1);
    return Delivered;
  }

  /** The wire and the two counters. */
  datatype Effect = Effect(frames: seq<Frame>, messages: uint64, bytes: uint64)

  /**
   What an adaptive writer does that polls `ahead` times before its Start frame: it delivers exactly if its context is
   alive at the poll before End, the last of n + 2 after that; otherwise it aborts after the chunks between the polls it
   passed; it writes nothing if it does not come to its Start frame; and it counts the bytes and messages it wrote.
   */
  ghost predicate Sends(ahead: nat, size: nat, id: uint32, data: seq<byte>, cancel: Option<nat>, r: WriteResult,
                        was: Effect, now: Effect)
    requires size > 0
  {
    var n := Pieces(|data|, size);
    if cancel.Some? && cancel.value < ahead then r == Cancelled && now == was
    else if cancel.Some? && cancel.value < n + 2 + ahead then
      var k := if cancel.value == ahead then 0 else cancel.value - ahead - 1;
      && r == Cancelled && was.frames <= now.frames
      && Spelled(now.frames[|was.frames|..], id, 0, data, size, k, ABORT)
      && now.messages == was.messages && now.bytes == Plus(was.bytes, Upto(|data|, size, k))
    else
      && r == Delivered && was.frames <= now.frames
      && Spelled(now.frames[|was.frames|..], id, 0, data, size, n, END)
      && now.messages == Plus(was.messages, 1) && now.bytes == Plus(was.bytes, |data|)
  }

  /** Writing the script of an adaptive writer is that. */
  lemma AdaptiveSends(kind: Kind, id: uint32, data: seq<byte>, cancel: Option<nat>, r: WriteResult, was: Effect,
                      now: Effect)
    requires !kind.NodeWriter? && r != TooLarge
    requires var job := JobOf(kind, id, data);
             var pc := FinalPc(kind, |job.chunks|, cancel);
             && now.frames == was.frames + FramesSoFar(job, pc) && (r == Delivered <==> pc == Completed)
             && now.messages == (if r == Delivered then Plus(was.messages, 1) else was.messages)
             && now.bytes == Plus(was.bytes, |Concat(job.chunks[..ChunksIn(job, pc)])|)
    ensures Sends(if kind.HybridWriter? then 1 else 0, ChunkSize(kind, |data|), id, data, cancel, r, was, now)
  {
    var job := JobOf(kind, id, data);
    var pc := FinalPc(kind, |job.chunks|, cancel);
    FinalPcIs(kind, |job.chunks|, cancel);
    ChunksNumber(kind, id, data);
    if pc.Skipped? {
      assert job.chunks[..0] == [];
      PlusNone(was.bytes);
    } else {
      ChunksPrefix(data, ChunkSize(kind, |data|), ChunksIn(job, pc));
      ScriptIsSpelled(kind, id, data, pc, was.frames);
      if pc.Completed? {
        ChunksCover(data, ChunkSize(kind, |data|));
        assert job.chunks[..|job.chunks|] == job.chunks;
      }
    }
  }

  /** The optimised node's writer: adaptive chunks, polls before every chunk. */
  class OptimizedSender {
    const sink: Sink
    const metrics: WriteMetrics

    constructor (sink: Sink)
      ensures this.sink == sink && fresh(metrics) && metrics.messagesWritten == metrics.bytesWritten == 0
    {
      this.sink := sink;
      metrics := new WriteMetrics();
    }

    ghost function Shown(): Effect
      reads sink, metrics
    {
      Effect(sink.frames, metrics.messagesWritten, metrics.bytesWritten)
    }

    method WriteMessageWithSequence(cancel: Option<nat>, id: uint32, data: seq<byte>) returns (r: WriteResult)
      requires sink.Valid()
      modifies sink, metrics
      ensures var job := JobOf(OptimizedWriter, id, data);
              var pc := FinalPc(OptimizedWriter, |job.chunks|, cancel);
              && sink.Valid() && sink.frames == old(sink.frames) + FramesSoFar(job, pc)
              && (r == Delivered <==> pc == Completed) && r != TooLarge
      ensures Sends(0, ChunkSize(OptimizedWriter, |data|), id, data, cancel, r, old(Shown()), Shown())
    {
      ghost var was := Shown();
      r := SendAdaptive(sink, metrics, cancel, 0, id, data, OptimalChunkSize(|data|), OptimizedWriter);
      AdaptiveSends(OptimizedWriter, id, data, cancel, r, was, Shown());
    }
  }

  /** The hybrid node's writer: one more poll before Start, and a fast path with 1 KiB chunks. */
  class HybridSender {
    const sink: Sink
    const metrics: WriteMetrics
    var fastPathThreshold: int
    var optimizedPathEnabled: bool

    constructor (sink: Sink, threshold: int)
      ensures this.sink == sink && fresh(metrics) && metrics.messagesWritten == metrics.bytesWritten == 0
      ensures fastPathThreshold == threshold && optimizedPathEnabled
    {
      this.sink := sink;
      fastPathThreshold, optimizedPathEnabled := threshold, true;
      metrics := new WriteMetrics();
    }

    ghost function Shown(): Effect
      reads sink, metrics
    {
      Effect(sink.frames, metrics.messagesWritten, metrics.bytesWritten)
    }

    method WriteMessageWithSequence(cancel: Option<nat>, id: uint32, data: seq<byte>) returns (r: WriteResult)
      requires sink.Valid()
      modifies sink, metrics
      ensures var job := JobOf(HybridWriter(fastPathThreshold, optimizedPathEnabled), id, data);
              var pc := FinalPc(HybridWriter(fastPathThreshold, optimizedPathEnabled), |job.chunks|, cancel);
              && sink.Valid() && sink.frames == old(sink.frames) + FramesSoFar(job, pc)
              && (r == Delivered <==> pc == Completed) && r != TooLarge
      ensures Sends(1, ChunkSize(HybridWriter(fastPathThreshold, optimizedPathEnabled), |data|), id, data, cancel, r,
                    old(Shown()), Shown())
    {
      ghost var kind, was := HybridWriter(fastPathThreshold, optimizedPathEnabled), Shown();
      FinalPcIs(kind, |JobOf(kind, id, data).chunks|, cancel);
      PlusNone(metrics.bytesWritten);
      var useFastPath := !optimizedPathEnabled || |data| <= fastPathThreshold;
      if Done(cancel, 0) {
        return Cancelled;
      }
      var chunkSize := if useFastPath then KB else OptimalChunkSize(|data|);
      r := SendAdaptive(sink, metrics, cancel, 1, id, data, chunkSize, kind);
      AdaptiveSends(kind, id, data, cancel, r, was, Shown());
    }
  }
}
