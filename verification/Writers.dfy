/** How the three writers cut a message into frames, and where a cancelled one stops. */
module Writers {
  import opened Wire
  import opened Frames
  import opened Reader

  datatype Kind = NodeWriter | OptimizedWriter | HybridWriter(threshold: int, optimized: bool)

  const KB: nat := 1024

  function OptimalChunkSize(n: nat): nat {
    if n <= 4 * KB then KB
    else if n <= 64 * KB then 4 * KB
    else if n <= 1024 * KB then 16 * KB
    else 64 * KB
  }

  function ChunkSize(kind: Kind, n: nat): (c: nat)
    ensures c == KB || c == 4 * KB || c == 16 * KB || c == 64 * KB
  {
    match kind
    case NodeWriter => KB
    case OptimizedWriter => OptimalChunkSize(n)
    case HybridWriter(threshold, optimized) => if !optimized || n <= threshold then KB else OptimalChunkSize(n)
  }

  /** Only the basic writer puts the message length into its Start frame. */
  function Announced(kind: Kind, n: nat): nat {
    if kind.NodeWriter? then n else 0
  }

  function Chunks(data: seq<byte>, size: nat): seq<seq<byte>>
    requires size > 0
    decreases |data|
  {
    if data == [] then []
    else if |data| <= size then [data]
    else [data[..size]] + Chunks(data[size..], size)
  }

  function Concat(cs: seq<seq<byte>>): seq<byte> {
    if cs == [] then [] else cs[0] + Concat(cs[1..])
  }

  lemma {:induction false} ConcatAppend(a: seq<seq<byte>>, b: seq<seq<byte>>)
    ensures Concat(a + b) == Concat(a) + Concat(b)
  {
    if a == [] {
      assert a + b == b;
    } else {
      assert (a + b)[1..] == a[1..] + b;
      ConcatAppend(a[1..], b);
      Regroup(a[0], Concat(a[1..]), Concat(b));
    }
  }

  lemma ConcatSnoc(cs: seq<seq<byte>>, k: nat)
    requires k < |cs|
    ensures Concat(cs[..k + 1]) == Concat(cs[..k]) + cs[k]
  {
    assert cs[..k + 1] == cs[..k] + [cs[k]];
    ConcatAppend(cs[..k], [cs[k]]);
    assert Concat([cs[k]]) == cs[k] + Concat([cs[k]][1..]);
  }

  lemma ConcatPrefix(cs: seq<seq<byte>>, k: nat)
    requires k <= |cs|
    ensures |Concat(cs[..k])| <= |Concat(cs)| && Concat(cs[..k]) == Concat(cs)[..|Concat(cs[..k])|]
  {
    assert cs == cs[..k] + cs[k..];
    ConcatAppend(cs[..k], cs[k..]);
  }

  lemma ChunkInFront(c: seq<byte>, cs: seq<seq<byte>>)
    ensures Concat([c] + cs) == c + Concat(cs)
    ensures forall i :: 0 <= i < |[c] + cs| ==> ([c] + cs)[i] == if i == 0 then c else cs[i - 1]
  {
    assert ([c] + cs)[1..] == cs;
  }

  lemma {:induction false} ChunksConcat(data: seq<byte>, size: nat)
    requires size > 0
    ensures Concat(Chunks(data, size)) == data
    decreases |data|
  {
    if |data| > size {
      ChunksConcat(data[size..], size);
      ChunkInFront(data[..size], Chunks(data[size..], size));
      assert data == data[..size] + data[size..];
    } else if data != [] {
      assert [data][1..] == [];
    }
  }

  lemma {:induction false} ChunkSizes(data: seq<byte>, size: nat)
    requires size > 0
    ensures forall i :: 0 <= i < |Chunks(data, size)| ==> 0 < |Chunks(data, size)[i]| <= size
    decreases |data|
  {
    if |data| > size {
      ChunkSizes(data[size..], size);
      ChunkInFront(data[..size], Chunks(data[size..], size));
    }
  }

  /** Chunks are non-empty, no longer than the chunk size, and concatenate to the data. */
  lemma ChunksCover(data: seq<byte>, size: nat)
    requires size > 0
    ensures var cs := Chunks(data, size);
            Concat(cs) == data && forall i :: 0 <= i < |cs| ==> 0 < |cs[i]| <= size
  {
    ChunksConcat(data, size);
    ChunkSizes(data, size);
  }

  lemma {:induction false} ChunkCount(data: seq<byte>, size: nat)
    requires size > 0
    ensures (|Chunks(data, size)| - 1) * size < |data| <= |Chunks(data, size)| * size
    decreases |data|
  {
    if |data| > size {
      ChunkCount(data[size..], size);
    }
  }

  /** One message as one writer sends it. */
  datatype Job = Job(id: uint32, announced: nat, chunks: seq<seq<byte>>)

  function JobOf(kind: Kind, id: uint32, data: seq<byte>): Job {
    Job(id, Announced(kind, |data|), Chunks(data, ChunkSize(kind, |data|)))
  }

  ghost predicate Chunked(job: Job) {
    forall i :: 0 <= i < |job.chunks| ==> 0 < |job.chunks[i]| <= MAX_LENGTH
  }

  /** The announced length and the message itself are within the limit. */
  ghost predicate Sendable(job: Job) {
    Chunked(job) && job.announced <= MAX_LENGTH && |Concat(job.chunks)| <= MAX_LENGTH
  }

  lemma JobOfIsSendable(kind: Kind, id: uint32, data: seq<byte>)
    ensures var job := JobOf(kind, id, data);
            Chunked(job) && Concat(job.chunks) == data && (Sendable(job) <==> |data| <= MAX_LENGTH)
  {
    ChunksCover(data, ChunkSize(kind, |data|));
  }

  /** How far a writer has come: `Skipped` gave up before its Start frame, `Cut(k)` aborted after `k` chunks. */
  datatype Pc = Idle | Sent(k: nat) | Completed | Cut(k: nat) | Skipped

  function DataFrames(id: uint32, cs: seq<seq<byte>>): (fs: seq<Frame>)
    ensures |fs| == |cs|
  {
    seq(|cs|, i requires 0 <= i < |cs| => DataFrame(id, cs[i]))
  }

  predicate InRange(job: Job, pc: Pc) {
    (pc.Sent? || pc.Cut?) ==> pc.k <= |job.chunks|
  }

  /** Start and the first `k` Data frames. */
  function Opening(job: Job, k: nat): seq<Frame>
    requires k <= |job.chunks|
  {
    [StartFrame(job.id, job.announced)] + DataFrames(job.id, job.chunks[..k])
  }

  /** The frames a writer has put on the wire. */
  function FramesSoFar(job: Job, pc: Pc): seq<Frame>
    requires InRange(job, pc)
  {
    match pc
    case Idle => []
    case Skipped => []
    case Sent(k) => Opening(job, k)
    case Completed => Opening(job, |job.chunks|) + [EndFrame(job.id)]
    case Cut(k) => Opening(job, k) + [AbortFrame(job.id)]
  }

  /**
   Where a writer of `n` chunks stops when its context is first seen cancelled at poll `at`.
   All writers poll after Start and before End; the basic one polls after each chunk, the others
   before each chunk, and the hybrid one also before Start.
   */
  function StopAt(kind: Kind, n: nat, at: nat): (pc: Pc)
    ensures (pc.Sent? || pc.Cut?) ==> pc.k <= n
  {
    match kind
    case NodeWriter => if at <= n then Cut(at) else if at == n + 1 then Cut(n) else Completed
    case OptimizedWriter => if at == 0 then Cut(0) else if at <= n + 1 then Cut(at - 1) else Completed
    case HybridWriter(_, _) =>
      if at == 0 then Skipped else if at == 1 then Cut(0) else if at <= n + 2 then Cut(at - 2) else Completed
  }

  function FinalPc(kind: Kind, n: nat, cancel: Option<nat>): (pc: Pc)
    ensures (pc.Sent? || pc.Cut?) ==> pc.k <= n
  {
    match cancel
    case None => Completed
    case Some(at) => StopAt(kind, n, at)
  }

  // ---- Reading one writer's frames ----

  lemma OpeningSnoc(job: Job, k: nat)
    requires k < |job.chunks|
    ensures Opening(job, k + 1) == Opening(job, k) + [DataFrame(job.id, job.chunks[k])]
  {
    assert job.chunks[..k + 1] == job.chunks[..k] + [job.chunks[k]];
  }

  /** A chunk that fits is appended to its message. */
  lemma OnChunk(v: Variant, p: Pending, id: uint32, chunk: seq<byte>)
    requires id in p && 0 < |chunk| && |p[id]| + |chunk| <= MAX_LENGTH
    ensures OnFrame(v, p, DataFrame(id, chunk)) == Outcome(p[id := p[id] + chunk], [])
  {
    assert |chunk| % WORD32 == |chunk|;
  }

  /** Reading one more chunk of a message of which `k` have been read. */
  lemma OnNextFitting(v: Variant, p: Pending, job: Job, k: nat)
    requires Sendable(job) && k < |job.chunks|
    ensures OnFrame(v, p[job.id := Concat(job.chunks[..k])], DataFrame(job.id, job.chunks[k]))
         == Outcome(p[job.id := Concat(job.chunks[..k + 1])], [])
  {
    var q := p[job.id := Concat(job.chunks[..k])];
    ConcatSnoc(job.chunks, k);
    ConcatPrefix(job.chunks, k + 1);
    OnChunk(v, q, job.id, job.chunks[k]);
    assert q[job.id := Concat(job.chunks[..k + 1])] == p[job.id := Concat(job.chunks[..k + 1])];
  }

  lemma {:induction false} ReadOpening(v: Variant, p: Pending, job: Job, k: nat)
    requires Sendable(job) && k <= |job.chunks| && job.id !in p
    ensures ReadFrames(v, p, Opening(job, k)) == Outcome(p[job.id := Concat(job.chunks[..k])], [])
    decreases k
  {
    if k == 0 {
      var start := StartFrame(job.id, job.announced);
      assert Opening(job, 0) == [] + [start];
      ReadFramesSnoc(v, p, [], start);
      assert job.chunks[..0] == [];
    } else {
      ReadOpening(v, p, job, k - 1);
      OpeningSnoc(job, k - 1);
      ReadFramesSnoc(v, p, Opening(job, k - 1), DataFrame(job.id, job.chunks[k - 1]));
      OnNextFitting(v, p, job, k - 1);
    }
  }

  /**
   Writer equivalence: whichever writer sent it, at whatever threshold, a message within the limit is
   read by either reader as one Complete event with its exact bytes, and leaves nothing behind.
   */
  lemma WriterEquivalence(v: Variant, kind: Kind, p: Pending, id: uint32, data: seq<byte>)
    requires |data| <= MAX_LENGTH && id !in p
    ensures ReadFrames(v, p, FramesSoFar(JobOf(kind, id, data), Completed)) == Outcome(p, [Complete(id, data)])
  {
    var job := JobOf(kind, id, data);
    var n := |job.chunks|;
    JobOfIsSendable(kind, id, data);
    ReadOpening(v, p, job, n);
    ReadFramesSnoc(v, p, Opening(job, n), EndFrame(id));
    assert job.chunks[..n] == job.chunks;
    assert p[id := data] - {id} == p;
  }

  // ---- The script of a writer, said without its definition ----

  function Min(a: nat, b: nat): nat {
    if a < b then a else b
  }

  /** How many of `len` bytes the first `k` pieces of `size` bytes hold. */
  function Upto(len: nat, size: nat, k: nat): (n: nat)
    ensures n <= len
  {
    if k == 0 then 0 else Min(Upto(len, size, k - 1) + size, len)
  }

  lemma {:induction false} UptoIs(len: nat, size: nat, k: nat)
    ensures Upto(len, size, k) == Min(k * size, len)
  {
    if k > 0 {
      UptoIs(len, size, k - 1);
      assert k * size == (k - 1) * size + size;
    }
  }

  /** How many pieces of `size` bytes `len` bytes are cut into: ceil(len / size), by `DataFrameCounts`. */
  function Pieces(len: nat, size: nat): nat
    requires size > 0
  {
    if len == 0 then 0 else if len <= size then 1 else 1 + Pieces(len - size, size)
  }

  /** Piece `i` of the data cut every `size` bytes. */
  function Slice(data: seq<byte>, size: nat, i: nat): seq<byte> {
    data[Upto(|data|, size, i)..Upto(|data|, size, i + 1)]
  }

  lemma {:induction false} UptoShift(len: nat, size: nat, k: nat)
    requires size <= len
    ensures Upto(len, size, k + 1) == size + Upto(len - size, size, k)
  {
    if k > 0 {
      UptoShift(len, size, k - 1);
    }
  }

  lemma SliceShift(data: seq<byte>, size: nat, i: nat)
    requires size <= |data| && i > 0
    ensures Slice(data, size, i) == Slice(data[size..], size, i - 1)
  {
    UptoShift(|data|, size, i - 1);
    UptoShift(|data|, size, i);
    var lo, hi := Upto(|data| - size, size, i - 1), Upto(|data| - size, size, i);
    assert data[size..][lo..hi] == data[size + lo..size + hi];
  }

  lemma {:induction false} ChunkIsSlice(data: seq<byte>, size: nat, i: nat)
    requires size > 0 && i < |Chunks(data, size)|
    ensures Chunks(data, size)[i] == Slice(data, size, i)
    decreases |data|
  {
    if |data| > size && i > 0 {
      ChunkIsSlice(data[size..], size, i - 1);
      SliceShift(data, size, i);
    } else {
      assert Upto(|data|, size, 1) == Min(size, |data|);
      assert data[0..|data|] == data;
    }
  }

  lemma {:induction false} ChunksPrefix(data: seq<byte>, size: nat, k: nat)
    requires size > 0 && k <= |Chunks(data, size)|
    ensures Concat(Chunks(data, size)[..k]) == data[..Upto(|data|, size, k)]
  {
    if k > 0 {
      var lo, hi := Upto(|data|, size, k - 1), Upto(|data|, size, k);
      ChunksPrefix(data, size, k - 1);
      ConcatSnoc(Chunks(data, size), k - 1);
      ChunkIsSlice(data, size, k - 1);
      assert data[..lo] + data[lo..hi] == data[..hi];
    }
  }

  lemma {:induction false} PiecesOfChunks(data: seq<byte>, size: nat)
    requires size > 0
    ensures |Chunks(data, size)| == Pieces(|data|, size)
    decreases |data|
  {
    if |data| > size {
      PiecesOfChunks(data[size..], size);
    }
  }

  /** Start, `k` pieces of the data, and a last frame. */
  ghost predicate Spelled(fs: seq<Frame>, id: uint32, announced: uint32, data: seq<byte>, size: nat, k: nat,
                          last: byte) {
    && |fs| == k + 2 && fs[0] == Frame(START, id, announced, []) && fs[k + 1] == Frame(last, id, 0, [])
    && forall i :: 0 <= i < k ==>
         |Slice(data, size, i)| < WORD32
         && fs[i + 1] == Frame(DATA, id, |Slice(data, size, i)|, Slice(data, size, i))
  }

  /**
   Where a writer of `n` chunks stops: it delivers exactly if its context is alive at the poll before End, its last one,
   and has otherwise written as many chunks as it passed polls between them.
   */
  lemma FinalPcIs(kind: Kind, n: nat, cancel: Option<nat>)
    ensures var at := if cancel.Some? then cancel.value else n + 3;
            FinalPc(kind, n, cancel) ==
            match kind
            case NodeWriter => if at >= n + 2 then Completed else Cut(Min(at, n))
            case OptimizedWriter => if at >= n + 2 then Completed else Cut(if at == 0 then 0 else at - 1)
            case HybridWriter(_, _) =>
              if at >= n + 3 then Completed else if at == 0 then Skipped else Cut(if at == 1 then 0 else at - 2)
  {
  }

  lemma ChunksNumber(kind: Kind, id: uint32, data: seq<byte>)
    ensures |JobOf(kind, id, data).chunks| == Pieces(|data|, ChunkSize(kind, |data|))
  {
    PiecesOfChunks(data, ChunkSize(kind, |data|));
  }

  lemma OpeningIsSpelled(kind: Kind, id: uint32, data: seq<byte>, k: nat, last: byte)
    requires k <= |JobOf(kind, id, data).chunks| && Announced(kind, |data|) < WORD32
    ensures Spelled(Opening(JobOf(kind, id, data), k) + [Frame(last, id, 0, [])], id, Announced(kind, |data|), data,
                    ChunkSize(kind, |data|), k, last)
  {
    var job, size := JobOf(kind, id, data), ChunkSize(kind, |data|);
    var fs := Opening(job, k) + [Frame(last, id, 0, [])];
    ChunksCover(data, size);
    forall i | 0 <= i < k
      ensures |Slice(data, size, i)| < WORD32
              && fs[i + 1] == Frame(DATA, id, |Slice(data, size, i)|, Slice(data, size, i))
    {
      ChunkIsSlice(data, size, i);
      assert 0 < |job.chunks[i]| <= size;
    }
  }

  /** The script of a writer that has come to its last frame. */
  lemma ScriptIsSpelled(kind: Kind, id: uint32, data: seq<byte>, pc: Pc, before: seq<Frame>)
    requires Announced(kind, |data|) < WORD32 && (pc.Completed? || pc.Cut?) && InRange(JobOf(kind, id, data), pc)
    ensures var fs, n := before + FramesSoFar(JobOf(kind, id, data), pc), |JobOf(kind, id, data).chunks|;
            && before <= fs && n == Pieces(|data|, ChunkSize(kind, |data|))
            && Spelled(fs[|before|..], id, Announced(kind, |data|), data, ChunkSize(kind, |data|),
                       if pc.Cut? then pc.k else n, if pc.Cut? then ABORT else END)
  {
    var script, n := FramesSoFar(JobOf(kind, id, data), pc), |JobOf(kind, id, data).chunks|;
    OpeningIsSpelled(kind, id, data, if pc.Cut? then pc.k else n, if pc.Cut? then ABORT else END);
    ChunksNumber(kind, id, data);
    assert (before + script)[|before|..] == script;
  }

  /**
   What a reader makes of a writer whose context is cancelled at poll `at`: the whole message if it had passed its last
   poll, nothing if it had not begun, and else one Abort with the chunks it had written.
   */
  lemma CancelledWriter(v: Variant, kind: Kind, p: Pending, id: uint32, data: seq<byte>, at: nat)
    requires |data| <= MAX_LENGTH && id !in p
    ensures var job, size := JobOf(kind, id, data), ChunkSize(kind, |data|);
            var n, o := Pieces(|data|, size), ReadFrames(v, p, FramesSoFar(job, StopAt(kind, |job.chunks|, at)));
            && o.pending == p
            && o.events ==
               match kind
               case NodeWriter =>
                 if at >= n + 2 then [Complete(id, data)]
                 else [Aborted(id, data[..Upto(|data|, size, Min(at, n))])]
               case OptimizedWriter =>
                 if at >= n + 2 then [Complete(id, data)]
                 else [Aborted(id, data[..Upto(|data|, size, if at == 0 then 0 else at - 1)])]
               case HybridWriter(_, _) =>
                 if at >= n + 3 then [Complete(id, data)] else if at == 0 then []
                 else [Aborted(id, data[..Upto(|data|, size, if at == 1 then 0 else at - 2)])]
  {
    var job := JobOf(kind, id, data);
    JobOfIsSendable(kind, id, data);
    ChunksNumber(kind, id, data);
    FinalPcIs(kind, |job.chunks|, Some(at));
    var pc := StopAt(kind, |job.chunks|, at);
    if pc.Completed? {
      WriterEquivalence(v, kind, p, id, data);
    } else if pc.Cut? {
      ReadCut(v, kind, p, id, data, pc.k);
    }
  }

  lemma ReadCut(v: Variant, kind: Kind, p: Pending, id: uint32, data: seq<byte>, k: nat)
    requires |data| <= MAX_LENGTH && id !in p && k <= |JobOf(kind, id, data).chunks|
    ensures ReadFrames(v, p, FramesSoFar(JobOf(kind, id, data), Cut(k)))
         == Outcome(p, [Aborted(id, data[..Upto(|data|, ChunkSize(kind, |data|), k)])])
  {
    var job := JobOf(kind, id, data);
    JobOfIsSendable(kind, id, data);
    ReadOpening(v, p, job, k);
    ReadFramesSnoc(v, p, Opening(job, k), AbortFrame(id));
    ChunksPrefix(data, ChunkSize(kind, |data|), k);
    assert p[id := Concat(job.chunks[..k])] - {id} == p;
  }

  /**
   Every writer sends ceil(len / size) Data frames, and the adaptive ones, whose size grows with the message, never more
   than the 1 KiB writer.
   */
  lemma DataFrameCounts(kind: Kind, id: uint32, data: seq<byte>)
    ensures var n, basic := |JobOf(kind, id, data).chunks|, |JobOf(NodeWriter, id, data).chunks|;
            var adaptive := if |data| <= 4096 then 1024
                            else if |data| <= 65536 then 4096 else if |data| <= 1048576 then 16384 else 65536;
            var size := match kind
                        case NodeWriter => 1024
                        case OptimizedWriter => adaptive
                        case HybridWriter(threshold, optimized) =>
                          if !optimized || |data| <= threshold then 1024 else adaptive;
            && size == ChunkSize(kind, |data|) && n == Pieces(|data|, size)
            && n == (|data| + size - 1) / size && n <= basic
  {
    ChunksNumber(kind, id, data);
    ChunkCount(data, ChunkSize(kind, |data|));
    ChunkCount(data, KB);
  }
}
