/** Messages over the 10 MiB limit: dropped whole, without losing frame sync and without burning their id. */
module Oversize {
  import opened Wire
  import opened Frames
  import opened Reader
  import opened ReaderTheorems
  import opened Writers

  ghost predicate OnlyFailures(es: seq<Event>) {
    forall i :: 0 <= i < |es| ==> es[i].Failed?
  }

  /**
    * After Start and `k` chunks the message is pending exactly as long as it announced and holds no more than
    * the limit.
    */
  ghost function StillPending(p: Pending, job: Job, k: nat): Pending
    requires k <= |job.chunks|
  {
    var part := Concat(job.chunks[..k]);
    if job.announced <= MAX_LENGTH && |part| <= MAX_LENGTH then p[job.id := part] else p
  }

  lemma OnNextChunk(v: Variant, p: Pending, job: Job, k: nat)
    requires Chunked(job) && k < |job.chunks| && job.id !in p
    ensures var o := OnFrame(v, StillPending(p, job, k), DataFrame(job.id, job.chunks[k]));
            o.pending == StillPending(p, job, k + 1) && OnlyFailures(o.events)
  {
    var part, chunk, q := Concat(job.chunks[..k]), job.chunks[k], StillPending(p, job, k);
    ConcatSnoc(job.chunks, k);
    assert |chunk| % WORD32 == |chunk|;
    if job.id in q {
      if |part| + |chunk| <= MAX_LENGTH {
        OnChunk(v, q, job.id, chunk);
        assert q[job.id := part + chunk] == p[job.id := part + chunk];
      } else {
        assert q - {job.id} == p;
      }
    }
  }

  lemma {:induction false} ReadLongOpening(v: Variant, p: Pending, job: Job, k: nat)
    requires Chunked(job) && job.announced < WORD32 && k <= |job.chunks| && job.id !in p
    ensures var o := ReadFrames(v, p, Opening(job, k));
            o.pending == StillPending(p, job, k) && OnlyFailures(o.events)
    decreases k
  {
    if k == 0 {
      var start := StartFrame(job.id, job.announced);
      assert Opening(job, 0) == [] + [start];
      ReadFramesSnoc(v, p, [], start);
      assert job.chunks[..0] == [];
      assert start.length == job.announced;
    } else {
      ReadLongOpening(v, p, job, k - 1);
      OpeningSnoc(job, k - 1);
      ReadFramesSnoc(v, p, Opening(job, k - 1), DataFrame(job.id, job.chunks[k - 1]));
      OnNextChunk(v, p, job, k - 1);
    }
  }

  /**
   A message over the limit, sent to its end by any writer: errors only, nothing delivered, nothing left.
   Aborted on the way it is never delivered Complete either.
   */
  lemma OversizeAlone(v: Variant, p: Pending, job: Job, pc: Pc)
    requires Chunked(job) && job.announced < WORD32 && |Concat(job.chunks)| > MAX_LENGTH && job.id !in p
    requires pc == Completed || (pc.Cut? && pc.k <= |job.chunks|)
    ensures var o := ReadFrames(v, p, FramesSoFar(job, pc));
            && o.pending == p
            && (pc.Completed? ==> OnlyFailures(o.events))
            && (forall i :: 0 <= i < |o.events| ==> !o.events[i].Complete?)
  {
    var k := if pc.Cut? then pc.k else |job.chunks|;
    var last := if pc.Cut? then AbortFrame(job.id) else EndFrame(job.id);
    ReadLongOpening(v, p, job, k);
    ReadFramesSnoc(v, p, Opening(job, k), last);
    var q := StillPending(p, job, k);
    assert job.chunks[..|job.chunks|] == job.chunks;
    assert job.id in q ==> q - {job.id} == p;
  }

  lemma {:induction false} FailuresDeliverNothing(es: seq<Event>, id: uint32)
    requires OnlyFailures(es)
    ensures DeliveriesTo(es, id) == []
  {
    if es != [] {
      FailuresDeliverNothing(es[1..], id);
    }
  }

  /**
   In a stream shared with any other traffic, an over-limit message under an id, followed by a message
   within the limit under the same id, delivers that second message and nothing else under the id.
   */
  lemma OversizeThenReuse(v: Variant, p: Pending, fs: seq<Frame>, job: Job, kind: Kind, data: seq<byte>)
    requires Chunked(job) && job.announced < WORD32 && |Concat(job.chunks)| > MAX_LENGTH && job.id !in p
    requires |data| <= MAX_LENGTH
    requires Only(fs, job.id) == FramesSoFar(job, Completed) + FramesSoFar(JobOf(kind, job.id, data), Completed)
    ensures var o := ReadFrames(v, p, fs);
            DeliveriesTo(o.events, job.id) == [Complete(job.id, data)] && job.id !in o.pending
  {
    var first, second := FramesSoFar(job, Completed), FramesSoFar(JobOf(kind, job.id, data), Completed);
    IsolationOnFrames(v, p, p, fs, job.id);
    OversizeAlone(v, p, job, Completed);
    WriterEquivalence(v, kind, p, job.id, data);
    ReadFramesAppend(v, p, first, second);
    var es := ReadFrames(v, p, first).events;
    DeliveriesToAppend(es, [Complete(job.id, data)], job.id);
    FailuresDeliverNothing(es, job.id);
    assert [Complete(job.id, data)][1..] == [];
  }

  /** Every writer's job for such a message meets the hypotheses above, unless the basic writer refuses it outright. */
  lemma OversizeJobs(kind: Kind, id: uint32, data: seq<byte>)
    requires |data| > MAX_LENGTH && (kind.NodeWriter? ==> |data| < WORD32)
    ensures var job := JobOf(kind, id, data);
            Chunked(job) && job.announced < WORD32 && |Concat(job.chunks)| > MAX_LENGTH
  {
    JobOfIsSendable(kind, id, data);
  }
}
