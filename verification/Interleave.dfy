/**
 Any number of writers on one byte stream. The writer lock makes header plus payload one step, so a run
 is a list of moves: one writer puts out its next frame, or sees its context cancelled and aborts.
 A writer that is never moved again is one that has not finished.
 */
module Interleave {
  import opened Wire
  import opened Frames
  import opened Reader
  import opened Writers

  datatype Move = Move(w: nat, cancel: bool)

  /** `owners[i]` is who wrote `wire[i]`; `ended` lists the writers in the order of their End or Abort frames. */
  datatype System = System(pcs: seq<Pc>, wire: seq<Frame>, owners: seq<nat>, ended: seq<nat>)

  function Init(jobs: seq<Job>): System {
    System(seq(|jobs|, _ => Idle), [], [], [])
  }

  function NextPc(job: Job, pc: Pc, m: Move): Pc {
    match pc
    case Idle => if m.cancel then Skipped else Sent(0)
    case Sent(k) => if m.cancel then Cut(k) else if k < |job.chunks| then Sent(k + 1) else Completed
    case _ => pc
  }

  /** The frame of a move, if it writes one. */
  function Emits(job: Job, pc: Pc, m: Move): Option<Frame> {
    match pc
    case Idle => if m.cancel then None else Some(StartFrame(job.id, job.announced))
    case Sent(k) =>
      if m.cancel then Some(AbortFrame(job.id))
      else if k < |job.chunks| then Some(DataFrame(job.id, job.chunks[k]))
      else Some(EndFrame(job.id))
    case _ => None
  }

  predicate Terminal(pc: Pc) {
    pc.Completed? || pc.Cut?
  }

  function Step(jobs: seq<Job>, s: System, m: Move): System
    requires |s.pcs| == |jobs|
  {
    if m.w >= |jobs| then s
    else
      var job, pc := jobs[m.w], s.pcs[m.w];
      var next := NextPc(job, pc, m);
      var moved := s.(pcs := s.pcs[m.w := next], ended := if pc.Sent? && !next.Sent? then s.ended + [m.w] else s.ended);
      match Emits(job, pc, m)
      case None => moved
      case Some(f) => moved.(wire := s.wire + [f], owners := s.owners + [m.w])
  }

  function Exec(jobs: seq<Job>, moves: seq<Move>): (s: System)
    ensures |s.pcs| == |jobs|
  {
    if moves == [] then Init(jobs)
    else Step(jobs, Exec(jobs, moves[..|moves| - 1]), moves[|moves| - 1])
  }

  /** A Start under an id that another writer still has in flight. */
  ghost predicate Clashes(jobs: seq<Job>, s: System, m: Move)
    requires |s.pcs| == |jobs|
  {
    m.w < |jobs| && s.pcs[m.w].Idle? && !m.cancel &&
    exists w :: 0 <= w < |jobs| && s.pcs[w].Sent? && jobs[w].id == jobs[m.w].id
  }

  /** Ids in flight together are distinct throughout the run. */
  ghost predicate ClashFree(jobs: seq<Job>, moves: seq<Move>) {
    moves == [] ||
    var before := moves[..|moves| - 1];
    ClashFree(jobs, before) && !Clashes(jobs, Exec(jobs, before), moves[|moves| - 1])
  }

  ghost predicate AllSendable(jobs: seq<Job>) {
    forall w :: 0 <= w < |jobs| ==> Sendable(jobs[w])
  }

  ghost predicate PcsInRange(jobs: seq<Job>, pcs: seq<Pc>) {
    |pcs| == |jobs| && forall w :: 0 <= w < |jobs| ==> InRange(jobs[w], pcs[w])
  }

  /** What a writer still in flight has sent so far. */
  function SentBytes(job: Job, pc: Pc): seq<byte>
    requires pc.Sent? && InRange(job, pc)
  {
    Concat(job.chunks[..pc.k])
  }

  /** The partial messages are exactly those of the writers in flight, each with the bytes sent so far. */
  ghost predicate PendingMatches(jobs: seq<Job>, pcs: seq<Pc>, p: Pending)
    requires PcsInRange(jobs, pcs)
  {
    && (forall w :: 0 <= w < |jobs| && pcs[w].Sent? ==> jobs[w].id in p && p[jobs[w].id] == SentBytes(jobs[w], pcs[w]))
    && (forall id :: id in p ==> exists w :: 0 <= w < |jobs| && pcs[w].Sent? && jobs[w].id == id)
    && (forall w, u :: 0 <= w < u < |jobs| && pcs[w].Sent? && pcs[u].Sent? ==> jobs[w].id != jobs[u].id)
  }

  function EventOf(job: Job, pc: Pc): Event
    requires Terminal(pc) && InRange(job, pc)
  {
    if pc.Completed? then Complete(job.id, Concat(job.chunks)) else Aborted(job.id, Concat(job.chunks[..pc.k]))
  }

  /** `ended` has no repetition and holds exactly the writers that sent End or Abort. */
  ghost predicate EndedMatches(pcs: seq<Pc>, ended: seq<nat>) {
    && (forall i :: 0 <= i < |ended| ==> ended[i] < |pcs| && Terminal(pcs[ended[i]]))
    && (forall i, j :: 0 <= i < j < |ended| ==> ended[i] != ended[j])
    && (forall w :: 0 <= w < |pcs| && Terminal(pcs[w]) ==> w in ended)
  }

  /** One event per terminated message, in wire order. */
  ghost predicate EventsMatch(jobs: seq<Job>, pcs: seq<Pc>, ended: seq<nat>, es: seq<Event>)
    requires PcsInRange(jobs, pcs) && EndedMatches(pcs, ended)
  {
    |es| == |ended| && forall i :: 0 <= i < |es| ==> es[i] == EventOf(jobs[ended[i]], pcs[ended[i]])
  }

  ghost predicate Inv(jobs: seq<Job>, s: System, o: Outcome) {
    && PcsInRange(jobs, s.pcs)
    && EndedMatches(s.pcs, s.ended)
    && PendingMatches(jobs, s.pcs, o.pending)
    && EventsMatch(jobs, s.pcs, s.ended, o.events)
  }

  /** What reading the frame of one move does to the invariant. */
  function After(v: Variant, jobs: seq<Job>, s: System, m: Move, o: Outcome): Outcome
    requires |s.pcs| == |jobs| && m.w < |jobs|
  {
    match Emits(jobs[m.w], s.pcs[m.w], m)
    case None => o
    case Some(f) =>
      var last := OnFrame(v, o.pending, f);
      Outcome(last.pending, o.events + last.events)
  }

  lemma StaysInFlight(jobs: seq<Job>, pcs: seq<Pc>, ended: seq<nat>, es: seq<Event>, w: nat, pc: Pc)
    requires PcsInRange(jobs, pcs) && EndedMatches(pcs, ended) && EventsMatch(jobs, pcs, ended, es)
    requires w < |jobs| && !Terminal(pcs[w]) && !Terminal(pc) && InRange(jobs[w], pc)
    ensures PcsInRange(jobs, pcs[w := pc]) && EndedMatches(pcs[w := pc], ended)
            && EventsMatch(jobs, pcs[w := pc], ended, es)
  {
  }

  lemma Terminates(jobs: seq<Job>, pcs: seq<Pc>, ended: seq<nat>, es: seq<Event>, w: nat, pc: Pc)
    requires PcsInRange(jobs, pcs) && EndedMatches(pcs, ended) && EventsMatch(jobs, pcs, ended, es)
    requires w < |jobs| && !Terminal(pcs[w]) && Terminal(pc) && InRange(jobs[w], pc)
    ensures var now := pcs[w := pc];
            && PcsInRange(jobs, now) && EndedMatches(now, ended + [w])
            && EventsMatch(jobs, now, ended + [w], es + [EventOf(jobs[w], pc)])
  {
    var now := pcs[w := pc];
    forall u | 0 <= u < |now| && Terminal(now[u]) ensures u in ended + [w] {
      assert u != w ==> u in ended;
    }
  }

  lemma PendingOnStart(jobs: seq<Job>, pcs: seq<Pc>, p: Pending, w: nat)
    requires PcsInRange(jobs, pcs) && PendingMatches(jobs, pcs, p)
    requires w < |jobs| && pcs[w].Idle? && jobs[w].id !in p
    ensures PcsInRange(jobs, pcs[w := Sent(0)]) && PendingMatches(jobs, pcs[w := Sent(0)], p[jobs[w].id := []])
  {
    var now, q := pcs[w := Sent(0)], p[jobs[w].id := []];
    assert jobs[w].chunks[..0] == [];
    forall id | id in q ensures exists u :: 0 <= u < |jobs| && now[u].Sent? && jobs[u].id == id {
      if id == jobs[w].id {
        assert now[w].Sent?;
      } else {
        var u :| 0 <= u < |jobs| && pcs[u].Sent? && jobs[u].id == id;
        assert now[u].Sent?;
      }
    }
  }

  lemma PendingOnData(jobs: seq<Job>, pcs: seq<Pc>, p: Pending, w: nat)
    requires PcsInRange(jobs, pcs) && PendingMatches(jobs, pcs, p)
    requires w < |jobs| && pcs[w].Sent? && pcs[w].k < |jobs[w].chunks|
    ensures var now := pcs[w := Sent(pcs[w].k + 1)];
            PcsInRange(jobs, now) && PendingMatches(jobs, now, p[jobs[w].id := SentBytes(jobs[w], now[w])])
  {
    var now := pcs[w := Sent(pcs[w].k + 1)];
    forall id | id in p ensures exists u :: 0 <= u < |jobs| && now[u].Sent? && jobs[u].id == id {
      var u :| 0 <= u < |jobs| && pcs[u].Sent? && jobs[u].id == id;
      assert now[u].Sent?;
    }
  }

  lemma PendingOnLast(jobs: seq<Job>, pcs: seq<Pc>, p: Pending, w: nat, pc: Pc)
    requires PcsInRange(jobs, pcs) && PendingMatches(jobs, pcs, p)
    requires w < |jobs| && pcs[w].Sent? && Terminal(pc) && InRange(jobs[w], pc)
    ensures PcsInRange(jobs, pcs[w := pc]) && PendingMatches(jobs, pcs[w := pc], p - {jobs[w].id})
  {
    var now, q := pcs[w := pc], p - {jobs[w].id};
    forall id | id in q ensures exists u :: 0 <= u < |jobs| && now[u].Sent? && jobs[u].id == id {
      var u :| 0 <= u < |jobs| && pcs[u].Sent? && jobs[u].id == id;
      assert now[u].Sent?;
    }
  }

  /** The same in-flight writers, so the same partial messages. */
  lemma PendingOnSkip(jobs: seq<Job>, pcs: seq<Pc>, p: Pending, w: nat)
    requires PcsInRange(jobs, pcs) && PendingMatches(jobs, pcs, p) && w < |jobs| && pcs[w].Idle?
    ensures PcsInRange(jobs, pcs[w := Skipped]) && PendingMatches(jobs, pcs[w := Skipped], p)
  {
    var now := pcs[w := Skipped];
    assert forall u :: 0 <= u < |jobs| ==> (now[u].Sent? <==> pcs[u].Sent?) && (pcs[u].Sent? ==> now[u] == pcs[u]);
  }

  lemma StartKeepsInv(v: Variant, jobs: seq<Job>, s: System, m: Move, o: Outcome)
    requires AllSendable(jobs) && Inv(jobs, s, o) && !Clashes(jobs, s, m)
    requires m.w < |jobs| && s.pcs[m.w].Idle?
    ensures Inv(jobs, Step(jobs, s, m), After(v, jobs, s, m, o))
  {
    var job := jobs[m.w];
    if m.cancel {
      StaysInFlight(jobs, s.pcs, s.ended, o.events, m.w, Skipped);
      PendingOnSkip(jobs, s.pcs, o.pending, m.w);
    } else {
      StaysInFlight(jobs, s.pcs, s.ended, o.events, m.w, Sent(0));
      PendingOnStart(jobs, s.pcs, o.pending, m.w);
      assert o.events + [] == o.events;
    }
  }

  /** Reading a Data frame of a message in flight. */
  lemma AfterData(v: Variant, job: Job, k: nat, p: Pending)
    requires Sendable(job) && k < |job.chunks| && job.id in p && p[job.id] == Concat(job.chunks[..k])
    ensures OnFrame(v, p, DataFrame(job.id, job.chunks[k])) == Outcome(p[job.id := Concat(job.chunks[..k + 1])], [])
  {
    ConcatSnoc(job.chunks, k);
    ConcatPrefix(job.chunks, k + 1);
    OnChunk(v, p, job.id, job.chunks[k]);
  }

  /** Reading the End or Abort frame of a message in flight. */
  lemma AfterLast(v: Variant, job: Job, k: nat, cancel: bool, p: Pending)
    requires k <= |job.chunks| && (cancel || k == |job.chunks|) && job.id in p && p[job.id] == Concat(job.chunks[..k])
    ensures OnFrame(v, p, if cancel then AbortFrame(job.id) else EndFrame(job.id))
         == Outcome(p - {job.id}, [EventOf(job, if cancel then Cut(k) else Completed)])
  {
    assert job.chunks[..|job.chunks|] == job.chunks;
  }

  lemma DataStep(v: Variant, jobs: seq<Job>, s: System, m: Move, o: Outcome)
    requires |s.pcs| == |jobs| && m.w < |jobs| && s.pcs[m.w].Sent? && !m.cancel && s.pcs[m.w].k < |jobs[m.w].chunks|
    requires Sendable(jobs[m.w]) && jobs[m.w].id in o.pending
    requires o.pending[jobs[m.w].id] == Concat(jobs[m.w].chunks[..s.pcs[m.w].k])
    ensures var job, k, t := jobs[m.w], s.pcs[m.w].k, Step(jobs, s, m);
            && t.pcs == s.pcs[m.w := Sent(k + 1)] && t.ended == s.ended
            && After(v, jobs, s, m, o) == Outcome(o.pending[job.id := Concat(job.chunks[..k + 1])], o.events)
  {
    AfterData(v, jobs[m.w], s.pcs[m.w].k, o.pending);
    assert o.events + [] == o.events;
  }

  lemma InFlightIsPending(jobs: seq<Job>, s: System, w: nat, o: Outcome)
    requires AllSendable(jobs) && Inv(jobs, s, o) && w < |jobs| && s.pcs[w].Sent?
    ensures Sendable(jobs[w]) && s.pcs[w].k <= |jobs[w].chunks| && jobs[w].id in o.pending
    ensures o.pending[jobs[w].id] == Concat(jobs[w].chunks[..s.pcs[w].k])
  {
  }

  /** The invariant speaks of the program counters, the order of the ends, and what was read. */
  lemma InvOf(jobs: seq<Job>, s: System, pcs: seq<Pc>, ended: seq<nat>, o: Outcome)
    requires s.pcs == pcs && s.ended == ended && PcsInRange(jobs, pcs) && EndedMatches(pcs, ended)
    requires PendingMatches(jobs, pcs, o.pending) && EventsMatch(jobs, pcs, ended, o.events)
    ensures Inv(jobs, s, o)
  {
  }

  /** What the invariant says, one Data frame later. */
  lemma DataKept(jobs: seq<Job>, pcs: seq<Pc>, ended: seq<nat>, o: Outcome, w: nat)
    requires PcsInRange(jobs, pcs) && EndedMatches(pcs, ended)
    requires PendingMatches(jobs, pcs, o.pending) && EventsMatch(jobs, pcs, ended, o.events)
    requires w < |jobs| && pcs[w].Sent? && pcs[w].k < |jobs[w].chunks|
    ensures var now := pcs[w := Sent(pcs[w].k + 1)];
            && PcsInRange(jobs, now) && EndedMatches(now, ended)
            && PendingMatches(jobs, now, o.pending[jobs[w].id := Concat(jobs[w].chunks[..pcs[w].k + 1])])
            && EventsMatch(jobs, now, ended, o.events)
  {
    StaysInFlight(jobs, pcs, ended, o.events, w, Sent(pcs[w].k + 1));
    PendingOnData(jobs, pcs, o.pending, w);
  }

  lemma DataKeepsInv(v: Variant, jobs: seq<Job>, s: System, m: Move, o: Outcome)
    requires AllSendable(jobs) && Inv(jobs, s, o)
    requires m.w < |jobs| && s.pcs[m.w].Sent? && !m.cancel && s.pcs[m.w].k < |jobs[m.w].chunks|
    ensures Inv(jobs, Step(jobs, s, m), After(v, jobs, s, m, o))
  {
    InFlightIsPending(jobs, s, m.w, o);
    DataKept(jobs, s.pcs, s.ended, o, m.w);
    DataStep(v, jobs, s, m, o);
    InvOf(jobs, Step(jobs, s, m), s.pcs[m.w := Sent(s.pcs[m.w].k + 1)], s.ended, After(v, jobs, s, m, o));
  }

  lemma LastStep(v: Variant, jobs: seq<Job>, s: System, m: Move, o: Outcome)
    requires |s.pcs| == |jobs| && m.w < |jobs| && s.pcs[m.w].Sent? && s.pcs[m.w].k <= |jobs[m.w].chunks|
    requires m.cancel || s.pcs[m.w].k == |jobs[m.w].chunks|
    requires jobs[m.w].id in o.pending && o.pending[jobs[m.w].id] == Concat(jobs[m.w].chunks[..s.pcs[m.w].k])
    ensures var pc, t := if m.cancel then Cut(s.pcs[m.w].k) else Completed, Step(jobs, s, m);
            && t.pcs == s.pcs[m.w := pc] && t.ended == s.ended + [m.w]
            && After(v, jobs, s, m, o) == Outcome(o.pending - {jobs[m.w].id}, o.events + [EventOf(jobs[m.w], pc)])
  {
    AfterLast(v, jobs[m.w], s.pcs[m.w].k, m.cancel, o.pending);
  }

  lemma LastKeepsInv(v: Variant, jobs: seq<Job>, s: System, m: Move, o: Outcome)
    requires AllSendable(jobs) && Inv(jobs, s, o)
    requires m.w < |jobs| && s.pcs[m.w].Sent? && (m.cancel || s.pcs[m.w].k == |jobs[m.w].chunks|)
    ensures Inv(jobs, Step(jobs, s, m), After(v, jobs, s, m, o))
  {
    var pc := if m.cancel then Cut(s.pcs[m.w].k) else Completed;
    Terminates(jobs, s.pcs, s.ended, o.events, m.w, pc);
    PendingOnLast(jobs, s.pcs, o.pending, m.w, pc);
    LastStep(v, jobs, s, m, o);
  }

  lemma StepKeepsInv(v: Variant, jobs: seq<Job>, s: System, m: Move)
    requires AllSendable(jobs) && Inv(jobs, s, ReadFrames(v, map[], s.wire)) && !Clashes(jobs, s, m)
    ensures Inv(jobs, Step(jobs, s, m), ReadFrames(v, map[], Step(jobs, s, m).wire))
  {
    if m.w < |jobs| {
      var o, pc := ReadFrames(v, map[], s.wire), s.pcs[m.w];
      match Emits(jobs[m.w], pc, m) {
        case None =>
        case Some(f) => ReadFramesSnoc(v, map[], s.wire, f);
      }
      assert ReadFrames(v, map[], Step(jobs, s, m).wire) == After(v, jobs, s, m, o);
      match pc {
        case Idle => StartKeepsInv(v, jobs, s, m, o);
        case Sent(k) =>
          if m.cancel || k == |jobs[m.w].chunks| {
            LastKeepsInv(v, jobs, s, m, o);
          } else {
            DataKeepsInv(v, jobs, s, m, o);
          }
        case _ => assert Step(jobs, s, m) == s;
      }
    }
  }

  /**
   End-to-end at the frame layer: for any writers, any interleaving and any cancellations, while ids in
   flight together are distinct, the reader's events are exactly the terminated messages in wire order
   and its partial messages exactly the unterminated ones.
   */
  lemma {:induction false} EndToEndFrames(v: Variant, jobs: seq<Job>, moves: seq<Move>)
    requires AllSendable(jobs) && ClashFree(jobs, moves)
    ensures var s := Exec(jobs, moves);
            Inv(jobs, s, ReadFrames(v, map[], s.wire))
  {
    if moves != [] {
      var before := moves[..|moves| - 1];
      EndToEndFrames(v, jobs, before);
      StepKeepsInv(v, jobs, Exec(jobs, before), moves[|moves| - 1]);
    }
  }

  lemma {:induction false} WireIsWellFramed(jobs: seq<Job>, moves: seq<Move>)
    requires forall w :: 0 <= w < |jobs| ==> Chunked(jobs[w])
    ensures AllWellFramed(Exec(jobs, moves).wire)
  {
    if moves != [] {
      WireIsWellFramed(jobs, moves[..|moves| - 1]);
    }
  }

  /** The same from bytes to events, for the byte loops of the readers. */
  lemma EndToEnd(v: Variant, jobs: seq<Job>, moves: seq<Move>)
    requires AllSendable(jobs) && ClashFree(jobs, moves)
    ensures var s := Exec(jobs, moves);
            Inv(jobs, s, Run(v, map[], EncodeAll(s.wire), None))
  {
    EndToEndFrames(v, jobs, moves);
    WireIsWellFramed(jobs, moves);
    RunOnEncodedFrames(v, map[], Exec(jobs, moves).wire);
  }

  // ---- The id hypothesis is exactly what is needed ----

  ghost predicate ErrorFree(es: seq<Event>) {
    forall i :: 0 <= i < |es| ==> !es[i].Failed?
  }

  lemma WireGrows(v: Variant, jobs: seq<Job>, s: System, m: Move)
    requires |s.pcs| == |jobs|
    ensures var o, later := ReadFrames(v, map[], s.wire), ReadFrames(v, map[], Step(jobs, s, m).wire);
            o.events <= later.events
  {
    if m.w < |jobs| {
      match Emits(jobs[m.w], s.pcs[m.w], m) {
        case None =>
        case Some(f) => ReadFramesSnoc(v, map[], s.wire, f);
      }
    }
  }

  lemma ClashIsReported(v: Variant, jobs: seq<Job>, s: System, m: Move)
    requires Inv(jobs, s, ReadFrames(v, map[], s.wire)) && Clashes(jobs, s, m)
    ensures !ErrorFree(ReadFrames(v, map[], Step(jobs, s, m).wire).events)
  {
    var o, f := ReadFrames(v, map[], s.wire), StartFrame(jobs[m.w].id, jobs[m.w].announced);
    ReadFramesSnoc(v, map[], s.wire, f);
    var last := OnFrame(v, o.pending, f).events;
    assert |last| == 1 && last[0].Failed?;
    var all := o.events + last;
    assert all[|o.events|].Failed?;
  }

  /** The reader reports no error exactly when ids in flight together were distinct throughout. */
  lemma {:induction false} ErrorFreeIffClashFree(v: Variant, jobs: seq<Job>, moves: seq<Move>)
    requires AllSendable(jobs)
    ensures ErrorFree(ReadFrames(v, map[], Exec(jobs, moves).wire).events) <==> ClashFree(jobs, moves)
  {
    if moves != [] {
      var before, m := moves[..|moves| - 1], moves[|moves| - 1];
      var s := Exec(jobs, before);
      ErrorFreeIffClashFree(v, jobs, before);
      WireGrows(v, jobs, s, m);
      if ClashFree(jobs, before) {
        EndToEndFrames(v, jobs, before);
        if Clashes(jobs, s, m) {
          ClashIsReported(v, jobs, s, m);
        } else {
          StepKeepsInv(v, jobs, s, m);
        }
      } else {
        var es := ReadFrames(v, map[], s.wire).events;
        var i :| 0 <= i < |es| && es[i].Failed?;
        assert ReadFrames(v, map[], Exec(jobs, moves).wire).events[i].Failed?;
      }
    }
  }

  // ---- The machine runs the writers' scripts ----

  /** The part of the wire one writer wrote. */
  function WrittenBy(wire: seq<Frame>, owners: seq<nat>, w: nat): seq<Frame>
    requires |wire| == |owners|
  {
    if wire == [] then []
    else
      var n := |wire| - 1;
      WrittenBy(wire[..n], owners[..n], w) + if owners[n] == w then [wire[n]] else []
  }

  lemma WrittenBySnoc(wire: seq<Frame>, owners: seq<nat>, w: nat, f: Frame, u: nat)
    requires |wire| == |owners|
    ensures WrittenBy(wire + [f], owners + [u], w) == WrittenBy(wire, owners, w) + if u == w then [f] else []
  {
    assert (wire + [f])[..|wire|] == wire && (owners + [u])[..|wire|] == owners;
  }

  /** In every run each writer's own frames are the script it would have written alone up to its program counter. */
  lemma {:induction false} WireProjects(jobs: seq<Job>, moves: seq<Move>, w: nat)
    requires w < |jobs|
    ensures var s := Exec(jobs, moves);
            && |s.wire| == |s.owners|
            && PcsInRange(jobs, s.pcs)
            && WrittenBy(s.wire, s.owners, w) == FramesSoFar(jobs[w], s.pcs[w])
  {
    if moves != [] {
      var before, m := moves[..|moves| - 1], moves[|moves| - 1];
      var s := Exec(jobs, before);
      WireProjects(jobs, before, w);
      if m.w < |jobs| {
        var job, pc := jobs[m.w], s.pcs[m.w];
        match Emits(job, pc, m) {
          case None =>
          case Some(f) =>
            WrittenBySnoc(s.wire, s.owners, w, f, m.w);
            ScriptSnoc(job, pc, m);
        }
      }
    }
  }

  lemma ScriptSnoc(job: Job, pc: Pc, m: Move)
    requires InRange(job, pc) && Emits(job, pc, m).Some?
    ensures var next := NextPc(job, pc, m);
            InRange(job, next) && FramesSoFar(job, next) == FramesSoFar(job, pc) + [Emits(job, pc, m).value]
  {
    if pc.Idle? {
      assert Opening(job, 0) == [] + [StartFrame(job.id, job.announced)];
    } else if pc.Sent? && pc.k < |job.chunks| {
      OpeningSnoc(job, pc.k);
    }
  }

  /** Who wrote the End and Abort frames, in wire order. */
  function Terminators(wire: seq<Frame>, owners: seq<nat>): seq<nat>
    requires |wire| == |owners|
  {
    if wire == [] then []
    else
      var n := |wire| - 1;
      Terminators(wire[..n], owners[..n]) + if wire[n].kind == END || wire[n].kind == ABORT then [owners[n]] else []
  }

  /** The order in which the events come out is the order of the End and Abort frames on the wire. */
  lemma {:induction false} EndedIsWireOrder(jobs: seq<Job>, moves: seq<Move>)
    ensures var s := Exec(jobs, moves);
            |s.wire| == |s.owners| && Terminators(s.wire, s.owners) == s.ended
  {
    if moves != [] {
      var before, m := moves[..|moves| - 1], moves[|moves| - 1];
      var s := Exec(jobs, before);
      EndedIsWireOrder(jobs, before);
      if m.w < |jobs| {
        match Emits(jobs[m.w], s.pcs[m.w], m) {
          case None =>
          case Some(f) => assert (s.wire + [f])[..|s.wire|] == s.wire && (s.owners + [m.w])[..|s.wire|] == s.owners;
        }
      }
    }
  }

  lemma ExecSnoc(jobs: seq<Job>, moves: seq<Move>, m: Move)
    ensures Exec(jobs, moves + [m]) == Step(jobs, Exec(jobs, moves), m)
  {
    assert (moves + [m])[..|moves|] == moves;
  }

  /** A writer that has not begun can come to any point of its script, and be cancelled there. */
  lemma {:induction false} EveryPcIsReached(jobs: seq<Job>, moves: seq<Move>, w: nat, pc: Pc) returns (more: seq<Move>)
    requires w < |jobs| && Exec(jobs, moves).pcs[w].Idle? && InRange(jobs[w], pc)
    ensures Exec(jobs, moves + more).pcs == Exec(jobs, moves).pcs[w := pc]
    decreases match pc case Sent(k) => k + 1 case Idle => 0 case _ => |jobs[w].chunks| + 2
  {
    if pc.Idle? {
      assert moves + [] == moves;
      return [];
    }
    var before: Pc := match pc
      case Sent(k) => if k == 0 then Idle else Sent(k - 1)
      case Cut(k) => Sent(k)
      case Completed => Sent(|jobs[w].chunks|)
      case _ => Idle;
    more := EveryPcIsReached(jobs, moves, w, before);
    var m := Move(w, pc.Cut? || pc.Skipped?);
    ExecSnoc(jobs, moves + more, m);
    Regroup(moves, more, [m]);
    more := more + [m];
  }

  lemma SpliceIsRead(start: Frame, one: Frame, two: Frame, end: Frame)
    requires start == StartFrame(7, 0) && one == DataFrame(7, [1]) && two == DataFrame(7, [2]) && end == EndFrame(7)
    ensures ReadFrames(Counting, map[], [start] + [start] + [one] + [two] + [end]).events
         == [Failed(AlreadyExists(7)), Complete(7, [1, 2])]
  {
    ReadFramesSnoc(Counting, map[], [], start);
    assert [] + [start] == [start];
    ReadFramesSnoc(Counting, map[], [start], start);
    ReadFramesSnoc(Counting, map[], [start] + [start], one);
    ReadFramesSnoc(Counting, map[], [start] + [start] + [one], two);
    ReadFramesSnoc(Counting, map[], [start] + [start] + [one] + [two], end);
    assert [] + [1] + [2] == [1, 2];
  }

  /** Two writers sharing an id: the first End delivers a message that neither of them sent. */
  lemma SharedIdSplices()
    ensures var jobs := [Job(7, 0, [[1]]), Job(7, 0, [[2]])];
            var a, b := Move(0, false), Move(1, false);
            var es := ReadFrames(Counting, map[], Exec(jobs, [a] + [b] + [a] + [b] + [a]).wire).events;
            es == [Failed(AlreadyExists(7)), Complete(7, [1, 2])]
  {
    var jobs := [Job(7, 0, [[1]]), Job(7, 0, [[2]])];
    var a, b := Move(0, false), Move(1, false);
    ExecSnoc(jobs, [], a);
    assert [] + [a] == [a];
    ExecSnoc(jobs, [a], b);
    ExecSnoc(jobs, [a] + [b], a);
    ExecSnoc(jobs, [a] + [b] + [a], b);
    ExecSnoc(jobs, [a] + [b] + [a] + [b], a);
    var start := StartFrame(7, 0);
    assert [] + [start] == [start];
    SpliceIsRead(start, DataFrame(7, [1]), DataFrame(7, [2]), EndFrame(7));
  }
}
