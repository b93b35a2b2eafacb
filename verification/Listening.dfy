/**
 The module side: the listener's loop, the jobs it starts, the goroutines that drain them, and the two
 shutdown flags, as steps that interleave in any order. The host may send any messages whatever.
 */
module Listening {
  import opened Wire
  import opened Codec
  import opened Adapters
  import opened Plugin

  /** What the listener makes of a message's header. */
  datatype Class = Graceful | Forced | Readiness | Ordinary

  /** A message as the listener and its job see it; `name` is the name field also when decoding failed half way. */
  datatype Incoming = Incoming(id: uint32, data: seq<byte>, decodes: bool, name: Name, sort: Class)

  function ClassOf(name: Name): Class {
    if name == SHUTDOWN then Graceful
    else if name == FORCE_SHUTDOWN then Forced
    else if name == REQUEST_READY then Readiness
    else Ordinary
  }

  function Read(m: OldMessage): Incoming {
    match Decode(ZERO_HEADER, m.data)
    case Malformed(h) => Incoming(m.id, m.data, false, h.name, Ordinary)
    case Decoded(h, _) => Incoming(m.id, m.data, true, h.name, ClassOf(h.name))
  }

  /** How a job ended: without a reply, or with one that a cancelled context kept from being written. */
  datatype End = Dropped | Answered(outcome: Outcome, cut: bool)

  datatype JobPhase = Started | Handling | Replying(outcome: Outcome) | Ending(end: End) | Ended(end: End)

  datatype Job = Job(origin: nat, phase: JobPhase)

  datatype Drain = Sleeping | Awaiting | Quiet | Finished

  datatype Listener =
    | Ready
    | Checking
    | AckingShutdown
    | AckingForce
    | SendingReady
    | AckingReady
    | Deciding
    | Rejecting
    | Starting
    | Exited

  /** What became of a message the listener took. */
  datatype Fate = Open | Left | Controlled(acked: bool) | Refused(cut: bool) | Accepted(job: nat)

  datatype Content = Acknowledges(sort: Class) | Responds(name: Name, outcome: Outcome)

  datatype Sent = Reply(cause: nat, id: uint32, content: Content) | ReadySignal

  /**
    * `parent` is the caller's context, `cancelled` the listener's own. `byApp` is a shutdown not asked for by
    * a message.
    */
  datatype Flags = Flags(shutdown: bool, force: bool, parent: bool, cancelled: bool, byApp: bool)

  datatype State = State(
    flags: Flags, pc: Listener, taken: seq<Incoming>, fates: seq<Fate>, jobs: seq<Job>, drains: seq<Drain>,
    sent: seq<Sent>)

  datatype JobAction = Begin | Handle(outcome: Outcome) | WriteBack | Exit

  datatype DrainAction = Wake | SeeQuiet | Cancel

  datatype Step =
    | Take(m: OldMessage)
    | Advance
    | Leave
    | OfJob(j: nat, work: JobAction)
    | OfDrain(d: nat, wait: DrainAction)
    | AppShutdown
    | AppForce
    | ParentCancel
    | Monitor

  const INIT: State := State(Flags(false, false, false, false, false), Ready, [], [], [], [], [ReadySignal])

  /** A whole message is written exactly if the context is not cancelled at the write's last poll. */
  function Write(s: State, k: nat, content: Content): State
    requires k < |s.taken|
  {
    if s.flags.cancelled then s else s.(sent := s.sent + [Reply(k, s.taken[k].id, content)])
  }

  function Close(s: State, fate: Fate, pc: Listener): State
    requires s.fates != []
  {
    s.(fates := s.fates[|s.fates| - 1 := fate], pc := pc)
  }

  predicate InPass(pc: Listener) {
    !pc.Ready? && !pc.Exited?
  }

  predicate Busy(s: State) {
    InPass(s.pc) && s.taken != [] && |s.fates| == |s.taken|
  }

  function Now(s: State): nat
    requires Busy(s)
  {
    |s.taken| - 1
  }

  /** The checks at the head of a pass: force first, then the control names. */
  function Check(s: State): State
    requires Busy(s)
  {
    if s.flags.force then Close(s, Left, Exited).(flags := s.flags.(cancelled := true))
    else
      match s.taken[Now(s)].sort
      case Graceful => s.(flags := s.flags.(shutdown := true), pc := AckingShutdown)
      case Forced => s.(flags := s.flags.(force := true), pc := AckingForce)
      case Readiness => s.(pc := SendingReady)
      case Ordinary => s.(pc := Deciding)
  }

  /** The next action of the listener. */
  function Listen(s: State): State
    requires Busy(s)
  {
    var k := Now(s);
    match s.pc
    case Checking => Check(s)
    case AckingShutdown =>
      Close(Write(s, k, Acknowledges(Graceful)), Controlled(!s.flags.cancelled), Ready)
      .(drains := s.drains + [Sleeping])
    case AckingForce =>
      Close(Write(s, k, Acknowledges(Forced)), Controlled(!s.flags.cancelled), Exited)
      .(flags := s.flags.(cancelled := true))
    case SendingReady =>
      if s.flags.cancelled then Close(s, Controlled(false), Ready)
      else s.(sent := s.sent + [ReadySignal], pc := AckingReady)
    case AckingReady => Close(Write(s, k, Acknowledges(Readiness)), Controlled(!s.flags.cancelled), Ready)
    case Deciding => s.(pc := if s.flags.shutdown then Rejecting else Starting)
    case Rejecting => Close(Write(s, k, Responds(s.taken[k].name, Draining)), Refused(s.flags.cancelled), Ready)
    case Starting => Close(s, Accepted(|s.jobs|), Ready).(jobs := s.jobs + [Job(k, Started)])
    case _ => s
  }

  function WithPhase(s: State, j: nat, phase: JobPhase): State
    requires j < |s.jobs|
  {
    s.(jobs := s.jobs[j := s.jobs[j].(phase := phase)])
  }

  /** The next action of a job. */
  function JobStep(s: State, j: nat, work: JobAction): State
    requires j < |s.jobs| && s.jobs[j].origin < |s.taken|
  {
    var job := s.jobs[j];
    var m := s.taken[job.origin];
    match work
    case Begin =>
      if !job.phase.Started? then s
      else if !m.decodes then WithPhase(s, j, Ending(Dropped))
      else if s.flags.force then WithPhase(s, j, Replying(ForceDown))
      else WithPhase(s, j, Handling)
    case Handle(outcome) =>
      if job.phase.Handling? && !outcome.ForceDown? && !outcome.Draining? then WithPhase(s, j, Replying(outcome)) else s
    case WriteBack =>
      if !job.phase.Replying? then s
      else
        WithPhase(Write(s, job.origin, Responds(m.name, job.phase.outcome)), j,
                  Ending(Answered(job.phase.outcome, s.flags.cancelled)))
    case Exit => if job.phase.Ending? then WithPhase(s, j, Ended(job.phase.end)) else s
  }

  predicate HasEnded(job: Job) {
    job.phase.Ended?
  }

  predicate AllEnded(jobs: seq<Job>) {
    forall j {:trigger HasEnded(jobs[j])} :: 0 <= j < |jobs| ==> HasEnded(jobs[j])
  }

  /** The next action of a goroutine that waits for the jobs and then cancels. */
  function DrainStep(s: State, d: nat, wait: DrainAction): State
    requires d < |s.drains|
  {
    match wait
    case Wake => if s.drains[d].Sleeping? then s.(drains := s.drains[d := Awaiting]) else s
    case SeeQuiet =>
      if s.drains[d].Awaiting? && AllEnded(s.jobs) then s.(drains := s.drains[d := Quiet]) else s
    case Cancel =>
      if s.drains[d].Quiet? || (s.drains[d].Awaiting? && s.flags.force)
      then s.(drains := s.drains[d := Finished], flags := s.flags.(cancelled := true)) else s
  }

  function Next(s: State, step: Step): State {
    match step
    case Take(m) =>
      if s.pc.Ready? then s.(taken := s.taken + [Read(m)], fates := s.fates + [Open], pc := Checking) else s
    case Advance => if Busy(s) then Listen(s) else s
    case Leave => if s.pc.Ready? && s.flags.cancelled then s.(pc := Exited) else s
    case AppShutdown => s.(flags := s.flags.(shutdown := true, byApp := true))
    case AppForce => s.(flags := s.flags.(force := true))
    case ParentCancel => s.(flags := s.flags.(parent := true, cancelled := true))
    case Monitor => if s.flags.force || s.flags.parent then s.(flags := s.flags.(cancelled := true)) else s
    case OfJob(j, work) => if j < |s.jobs| && s.jobs[j].origin < |s.taken| then JobStep(s, j, work) else s
    case OfDrain(d, wait) => if d < |s.drains| then DrainStep(s, d, wait) else s
  }

  function Exec(s: State, steps: seq<Step>): State {
    if steps == [] then s else Next(Exec(s, steps[..|steps| - 1]), steps[|steps| - 1])
  }

  /** A pass of the loop that nothing interferes with, in steps of the model. */
  function PassOf(s: State, m: OldMessage): State {
    Next(Next(Next(Next(s, Take(m)), Advance), Advance), Advance)
  }

  // ---- The invariant ----

  /** The replies caused by the message taken as number `k`. */
  function RepliesTo(sent: seq<Sent>, k: nat): seq<Sent> {
    if sent == [] then []
    else
      var last := sent[|sent| - 1];
      RepliesTo(sent[..|sent| - 1], k) + if last.Reply? && last.cause == k then [last] else []
  }

  function EndOf(job: Job): End {
    if job.phase.Ending? || job.phase.Ended? then job.phase.end else Dropped
  }

  /** What a message's fate says was written in reply to it, and nothing more. */
  function Owed(m: Incoming, k: nat, fate: Fate, jobs: seq<Job>): seq<Sent> {
    match fate
    case Open => []
    case Left => []
    case Controlled(acked) => if acked && !m.sort.Ordinary? then [Reply(k, m.id, Acknowledges(m.sort))] else []
    case Refused(cut) => if cut then [] else [Reply(k, m.id, Responds(m.name, Draining))]
    case Accepted(j) =>
      if j < |jobs| && EndOf(jobs[j]).Answered? && !EndOf(jobs[j]).cut
      then [Reply(k, m.id, Responds(m.name, EndOf(jobs[j]).outcome))] else []
  }

  /**
   The reply whose write the cancelled context cut, if there is one. It is not in `sent`; cut after its last chunk,
   it still arrives whole.
   */
  function CutReply(m: Incoming, k: nat, fate: Fate, jobs: seq<Job>): seq<Sent> {
    match fate
    case Open => []
    case Left => []
    case Controlled(acked) =>
      if acked || m.sort.Ordinary? then [] else [Reply(k, m.id, Acknowledges(m.sort))]
    case Refused(cut) => if cut then [Reply(k, m.id, Responds(m.name, Draining))] else []
    case Accepted(j) =>
      if j < |jobs| && EndOf(jobs[j]).Answered? && EndOf(jobs[j]).cut
      then [Reply(k, m.id, Responds(m.name, EndOf(jobs[j]).outcome))] else []
  }

  predicate FateOk(m: Incoming, k: nat, fate: Fate, jobs: seq<Job>) {
    && (fate.Controlled? ==> !m.sort.Ordinary?)
    && (fate.Refused? || fate.Accepted? ==> m.sort.Ordinary?)
    && (fate.Accepted? ==> fate.job < |jobs| && jobs[fate.job].origin == k)
  }

  predicate CauseOk(sent: Sent, n: nat) {
    sent.Reply? ==> sent.cause < n
  }

  predicate MessageOk(k: nat, taken: seq<Incoming>, fates: seq<Fate>, jobs: seq<Job>, sent: seq<Sent>) {
    && k < |taken| == |fates|
    && FateOk(taken[k], k, fates[k], jobs) && RepliesTo(sent, k) == Owed(taken[k], k, fates[k], jobs)
  }

  ghost predicate MessagesOk(taken: seq<Incoming>, fates: seq<Fate>, jobs: seq<Job>, sent: seq<Sent>) {
    && |fates| == |taken|
    && (forall k :: 0 <= k < |taken| ==> MessageOk(k, taken, fates, jobs, sent))
    && (forall i :: 0 <= i < |sent| ==> CauseOk(sent[i], |taken|))
  }

  /** A job without decodable message is dropped; a forced answer needs the force flag. */
  predicate JobOk(job: Job, j: nat, taken: seq<Incoming>, fates: seq<Fate>, flags: Flags) {
    && job.origin < |taken| == |fates| && fates[job.origin] == Accepted(j)
    && var p := job.phase;
    && (p.Handling? || p.Replying? ==> taken[job.origin].decodes)
    && (p.Replying? ==> !p.outcome.Draining? && (p.outcome.ForceDown? ==> flags.force))
    && (p.Ending? || p.Ended? ==>
          (p.end.Answered? <==> taken[job.origin].decodes)
          && (p.end.Answered? ==> !p.end.outcome.Draining? && (p.end.outcome.ForceDown? ==> flags.force)))
  }

  ghost predicate JobsOk(jobs: seq<Job>, taken: seq<Incoming>, fates: seq<Fate>, flags: Flags) {
    forall j {:trigger JobOk(jobs[j], j, taken, fates, flags)} :: 0 <= j < |jobs|
        ==> JobOk(jobs[j], j, taken, fates, flags)
  }

  predicate IsOpen(fate: Fate) {
    fate.Open?
  }

  /** Exactly the message of the current pass is still open, and the listener is where its class leads. */
  ghost predicate ListenerOk(pc: Listener, taken: seq<Incoming>, fates: seq<Fate>, flags: Flags) {
    && |fates| == |taken|
    && (forall k {:trigger IsOpen(fates[k])} | 0 <= k < |fates| ::
          IsOpen(fates[k]) <==> k == |fates| - 1 && InPass(pc))
    && (InPass(pc) ==> taken != [] && PlaceOk(pc, taken[|taken| - 1].sort, flags))
    && (pc.Exited? ==> flags.cancelled)
  }

  predicate PlaceOk(pc: Listener, sort: Class, flags: Flags) {
    && (pc.AckingShutdown? ==> sort.Graceful? && flags.shutdown)
    && (pc.AckingForce? ==> sort.Forced? && flags.force)
    && (pc.SendingReady? || pc.AckingReady? ==> sort.Readiness?)
    && (pc.Deciding? || pc.Rejecting? || pc.Starting? ==> sort.Ordinary?)
    && (pc.Rejecting? ==> flags.shutdown)
  }

  /** In shutdown, and past the point where a job could still be started. */
  predicate Settled(pc: Listener, flags: Flags) {
    flags.shutdown && !pc.Starting?
  }

  /** The job's answer was kept from being written. */
  predicate WasCut(job: Job) {
    EndOf(job).Answered? && EndOf(job).cut
  }

  predicate NoneCut(jobs: seq<Job>) {
    forall j {:trigger WasCut(jobs[j])} :: 0 <= j < |jobs| ==> !WasCut(jobs[j])
  }

  predicate SawQuiet(drain: Drain) {
    drain.Quiet? || drain.Finished?
  }

  ghost predicate DrainsOk(drains: seq<Drain>, jobs: seq<Job>, pc: Listener, flags: Flags) {
    && (drains != [] ==> Settled(pc, flags))
    && (!flags.force
        ==> forall d {:trigger SawQuiet(drains[d])} :: 0 <= d < |drains| && SawQuiet(drains[d]) ==> AllEnded(jobs))
    && (flags.cancelled && !flags.force && !flags.parent ==>
          exists d {:trigger SawQuiet(drains[d])} :: 0 <= d < |drains| && SawQuiet(drains[d]) && drains[d].Finished?)
    && (!flags.force && !flags.parent ==> NoneCut(jobs))
  }

  predicate ShutdownAt(taken: seq<Incoming>, fates: seq<Fate>, g: nat) {
    g < |taken| && g < |fates| && fates[g].Controlled? && taken[g].sort.Graceful?
  }

  predicate RefusedAt(fates: seq<Fate>, k: nat) {
    k < |fates| && fates[k].Refused?
  }

  predicate LeftAt(fates: seq<Fate>, k: nat) {
    k < |fates| && fates[k].Left?
  }

  /** A shutdown message was handled among the first `n`. */
  ghost predicate ShutdownBefore(taken: seq<Incoming>, fates: seq<Fate>, n: nat) {
    exists g: nat :: g < n && ShutdownAt(taken, fates, g)
  }

  /** The shutdown flag is up, and not because of the current pass. */
  predicate Raised(pc: Listener, flags: Flags) {
    flags.shutdown && !pc.AckingShutdown?
  }

  /** What brought refusals, the shutdown flag and drains about. */
  ghost predicate CausesOk(taken: seq<Incoming>, fates: seq<Fate>, drains: seq<Drain>, pc: Listener, flags: Flags) {
    && (forall k: nat :: RefusedAt(fates, k) ==> flags.byApp || ShutdownBefore(taken, fates, k))
    && (Raised(pc, flags) ==> flags.byApp || ShutdownBefore(taken, fates, |fates|))
    && (forall k: nat :: ShutdownAt(taken, fates, k) ==> drains != [])
    && (forall k: nat :: LeftAt(fates, k) ==> flags.force)
  }

  ghost predicate Inv(s: State) {
    && MessagesOk(s.taken, s.fates, s.jobs, s.sent)
    && JobsOk(s.jobs, s.taken, s.fates, s.flags)
    && ListenerOk(s.pc, s.taken, s.fates, s.flags)
    && DrainsOk(s.drains, s.jobs, s.pc, s.flags)
    && CausesOk(s.taken, s.fates, s.drains, s.pc, s.flags)
  }

  // ---- The books of replies ----

  lemma RepliesSnoc(sent: seq<Sent>, r: Sent, k: nat)
    ensures RepliesTo(sent + [r], k) == RepliesTo(sent, k) + if r.Reply? && r.cause == k then [r] else []
  {
    assert (sent + [r])[..|sent|] == sent;
  }

  lemma {:induction false} NoReplies(sent: seq<Sent>, k: nat)
    requires forall i :: 0 <= i < |sent| ==> CauseOk(sent[i], k)
    ensures RepliesTo(sent, k) == []
  {
    if sent != [] {
      assert CauseOk(sent[|sent| - 1], k);
      NoReplies(sent[..|sent| - 1], k);
    }
  }

  /** A step that concerns message `k`, and writes at most one reply to it. */
  lemma OneMessageMoves(taken: seq<Incoming>, fates: seq<Fate>, fates': seq<Fate>, jobs: seq<Job>, jobs': seq<Job>,
                        sent: seq<Sent>, k: nat, reply: seq<Sent>, i: nat)
    requires MessageOk(i, taken, fates, jobs, sent) && |fates'| == |taken| && k < |taken|
    requires FateOk(taken[i], i, fates'[i], jobs')
    requires Owed(taken[i], i, fates'[i], jobs') == Owed(taken[i], i, fates[i], jobs) + if i == k then reply else []
    requires reply == [] || (|reply| == 1 && reply[0].Reply? && reply[0].cause == k)
    ensures MessageOk(i, taken, fates', jobs', sent + reply)
  {
    if reply == [] {
      assert sent + reply == sent;
    } else {
      assert reply == [reply[0]];
      RepliesSnoc(sent, reply[0], i);
    }
  }

  lemma CausesExtend(sent: seq<Sent>, reply: seq<Sent>, n: nat)
    requires forall i :: 0 <= i < |sent| ==> CauseOk(sent[i], n)
    requires forall i :: 0 <= i < |reply| ==> CauseOk(reply[i], n)
    ensures forall i :: 0 <= i < |sent + reply| ==> CauseOk((sent + reply)[i], n)
  {
  }

  lemma TakeKeepsMessages(taken: seq<Incoming>, fates: seq<Fate>, jobs: seq<Job>, sent: seq<Sent>, m: Incoming)
    requires MessagesOk(taken, fates, jobs, sent)
    ensures MessagesOk(taken + [m], fates + [Open], jobs, sent)
  {
    NoReplies(sent, |taken|);
    forall k: nat | k < |taken| + 1 ensures MessageOk(k, taken + [m], fates + [Open], jobs, sent) {
      assert k < |taken| ==> MessageOk(k, taken, fates, jobs, sent);
    }
    forall i | 0 <= i < |sent| ensures CauseOk(sent[i], |taken + [m]|) {
      assert CauseOk(sent[i], |taken|);
    }
  }

  lemma ReadySignalKeepsMessages(taken: seq<Incoming>, fates: seq<Fate>, jobs: seq<Job>, sent: seq<Sent>)
    requires MessagesOk(taken, fates, jobs, sent)
    ensures MessagesOk(taken, fates, jobs, sent + [ReadySignal])
  {
    forall k: nat | k < |taken| ensures MessageOk(k, taken, fates, jobs, sent + [ReadySignal]) {
      assert MessageOk(k, taken, fates, jobs, sent);
      RepliesSnoc(sent, ReadySignal, k);
    }
    CausesExtend(sent, [ReadySignal], |taken|);
  }

  /** Jobs started later are no concern of a message. */
  lemma OwedBefore(m: Incoming, i: nat, fate: Fate, jobs: seq<Job>, more: seq<Job>)
    requires FateOk(m, i, fate, jobs)
    ensures FateOk(m, i, fate, jobs + more) && Owed(m, i, fate, jobs + more) == Owed(m, i, fate, jobs)
  {
  }

  /** The end of a pass. */
  lemma CloseKeepsMessages(taken: seq<Incoming>, fates: seq<Fate>, jobs: seq<Job>, sent: seq<Sent>, fate: Fate,
      more: seq<Job>)
    requires MessagesOk(taken, fates, jobs, sent) && taken != [] && fates[|fates| - 1].Open?
    requires var k := |taken| - 1; FateOk(taken[k], k, fate, jobs + more)
    ensures var k := |taken| - 1;
            MessagesOk(taken, fates[k := fate], jobs + more, sent + Owed(taken[k], k, fate, jobs + more))
  {
    var k := |taken| - 1;
    var reply, fates' := Owed(taken[k], k, fate, jobs + more), fates[k := fate];
    forall i: nat | i < |taken| ensures MessageOk(i, taken, fates', jobs + more, sent + reply) {
      assert MessageOk(i, taken, fates, jobs, sent);
      OwedBefore(taken[i], i, fates[i], jobs, more);
      OneMessageMoves(taken, fates, fates', jobs, jobs + more, sent, k, reply, i);
    }
    CausesExtend(sent, reply, |taken|);
  }

  lemma OwedElsewhere(m: Incoming, i: nat, fate: Fate, jobs: seq<Job>, j: nat, phase: JobPhase)
    requires FateOk(m, i, fate, jobs) && j < |jobs|
    ensures var jobs' := jobs[j := jobs[j].(phase := phase)];
            FateOk(m, i, fate, jobs') && (jobs[j].origin != i ==> Owed(m, i, fate, jobs') == Owed(m, i, fate, jobs))
  {
  }

  /** A job moves on; if it ends with a written answer, that answer is the reply it owes. */
  lemma JobKeepsMessages(taken: seq<Incoming>, fates: seq<Fate>, jobs: seq<Job>, sent: seq<Sent>, j: nat,
      phase: JobPhase, reply: seq<Sent>)
    requires MessagesOk(taken, fates, jobs, sent) && j < |jobs| && jobs[j].origin < |taken|
             && fates[jobs[j].origin] == Accepted(j)
    requires var k := jobs[j].origin;
             var jobs' := jobs[j := jobs[j].(phase := phase)];
             Owed(taken[k], k, Accepted(j), jobs') == Owed(taken[k], k, Accepted(j), jobs) + reply
    requires reply == [] || (|reply| == 1 && reply[0].Reply? && reply[0].cause == jobs[j].origin)
    ensures MessagesOk(taken, fates, jobs[j := jobs[j].(phase := phase)], sent + reply)
  {
    var k, jobs' := jobs[j].origin, jobs[j := jobs[j].(phase := phase)];
    forall i: nat | i < |taken| ensures MessageOk(i, taken, fates, jobs', sent + reply) {
      assert MessageOk(i, taken, fates, jobs, sent);
      OwedElsewhere(taken[i], i, fates[i], jobs, j, phase);
      OneMessageMoves(taken, fates, fates, jobs, jobs', sent, k, reply, i);
    }
    CausesExtend(sent, reply, |taken|);
  }

  // ---- The listener's steps ----

  /** Handled shutdown messages stay handled. */
  lemma CausesGrow(taken: seq<Incoming>, fates: seq<Fate>, taken': seq<Incoming>, fates': seq<Fate>, n: nat, n': nat)
    requires |taken| == |fates| <= |taken'| == |fates'| && n <= n'
    requires forall k :: 0 <= k < |taken| ==> taken'[k] == taken[k] && (!fates[k].Open? ==> fates'[k] == fates[k])
    ensures ShutdownBefore(taken, fates, n) ==> ShutdownBefore(taken', fates', n')
  {
    if ShutdownBefore(taken, fates, n) {
      var g: nat :| g < n && ShutdownAt(taken, fates, g);
      assert ShutdownAt(taken', fates', g);
    }
  }

  lemma TakeKeepsCauses(taken: seq<Incoming>, fates: seq<Fate>, drains: seq<Drain>, flags: Flags, m: Incoming)
    requires CausesOk(taken, fates, drains, Ready, flags) && |fates| == |taken|
    ensures CausesOk(taken + [m], fates + [Open], drains, Checking, flags)
  {
    var taken', fates' := taken + [m], fates + [Open];
    forall k: nat | RefusedAt(fates', k) ensures flags.byApp || ShutdownBefore(taken', fates', k) {
      assert RefusedAt(fates, k);
      CausesGrow(taken, fates, taken', fates', k, k);
    }
    CausesGrow(taken, fates, taken', fates', |fates|, |fates'|);
    forall k: nat | ShutdownAt(taken', fates', k) ensures drains != [] {
      assert ShutdownAt(taken, fates, k);
    }
    forall k: nat | LeftAt(fates', k) ensures flags.force {
      assert LeftAt(fates, k);
    }
  }

  lemma TakeKeepsJobs(jobs: seq<Job>, taken: seq<Incoming>, fates: seq<Fate>, flags: Flags, m: Incoming)
    requires JobsOk(jobs, taken, fates, flags)
    ensures JobsOk(jobs, taken + [m], fates + [Open], flags)
  {
    forall j | 0 <= j < |jobs| ensures JobOk(jobs[j], j, taken + [m], fates + [Open], flags) {
      assert JobOk(jobs[j], j, taken, fates, flags);
    }
  }

  lemma TakeKeepsListener(taken: seq<Incoming>, fates: seq<Fate>, flags: Flags, m: Incoming)
    requires ListenerOk(Ready, taken, fates, flags)
    ensures ListenerOk(Checking, taken + [m], fates + [Open], flags)
  {
    var fates' := fates + [Open];
    forall k | 0 <= k < |fates'| ensures IsOpen(fates'[k]) <==> k == |fates'| - 1 {
      assert k < |fates| ==> !IsOpen(fates[k]);
    }
  }

  lemma TakeKeepsInv(s: State, m: OldMessage)
    requires Inv(s)
    ensures Inv(Next(s, Take(m)))
  {
    if s.pc.Ready? {
      TakeKeepsMessages(s.taken, s.fates, s.jobs, s.sent, Read(m));
      TakeKeepsJobs(s.jobs, s.taken, s.fates, s.flags, Read(m));
      TakeKeepsListener(s.taken, s.fates, s.flags, Read(m));
      TakeKeepsCauses(s.taken, s.fates, s.drains, s.flags, Read(m));
    }
  }

  lemma CloseKeepsJobs(jobs: seq<Job>, taken: seq<Incoming>, fates: seq<Fate>, fate: Fate, flags: Flags)
    requires JobsOk(jobs, taken, fates, flags) && fates != [] && fates[|fates| - 1].Open?
    ensures JobsOk(jobs, taken, fates[|fates| - 1 := fate], flags)
  {
    forall j | 0 <= j < |jobs| ensures JobOk(jobs[j], j, taken, fates[|fates| - 1 := fate], flags) {
      assert JobOk(jobs[j], j, taken, fates, flags);
    }
  }

  lemma CloseKeepsCauses(s: State, fate: Fate, drains': seq<Drain>)
    requires CausesOk(s.taken, s.fates, s.drains, s.pc, s.flags) && Busy(s) && s.fates[|s.fates| - 1].Open?
    requires s.drains != [] ==> drains' != []
    requires fate.Controlled? && s.taken[Now(s)].sort.Graceful? ==> drains' != []
    requires s.pc.AckingShutdown? ==> fate.Controlled? && s.taken[Now(s)].sort.Graceful?
    requires fate.Refused? ==> Raised(s.pc, s.flags)
    requires fate.Left? ==> s.flags.force
    ensures CausesOk(s.taken, s.fates[|s.fates| - 1 := fate], drains', Ready, s.flags)
  {
    var taken, fates, n, fates' := s.taken, s.fates, |s.fates|, s.fates[|s.fates| - 1 := fate];
    forall k: nat | RefusedAt(fates', k) ensures s.flags.byApp || ShutdownBefore(taken, fates', k) {
      if k < n - 1 {
        assert RefusedAt(fates, k);
        CausesGrow(taken, fates, taken, fates', k, k);
      } else if !s.flags.byApp {
        var g: nat :| g < n && ShutdownAt(taken, fates, g);
        assert ShutdownAt(taken, fates', g) && g < k;
      }
    }
    CausesGrow(taken, fates, taken, fates', n, n);
    assert s.pc.AckingShutdown? ==> ShutdownAt(taken, fates', n - 1);
    forall k: nat | ShutdownAt(taken, fates', k) ensures drains' != [] {
      assert k < n - 1 ==> ShutdownAt(taken, fates, k);
    }
    forall k: nat | LeftAt(fates', k) ensures s.flags.force {
      assert k < n - 1 ==> LeftAt(fates, k);
    }
  }

  lemma CloseKeepsDrains(s: State, drains': seq<Drain>)
    requires DrainsOk(s.drains, s.jobs, s.pc, s.flags) && !s.pc.Starting?
    requires drains' == s.drains || (drains' == s.drains + [Sleeping] && s.flags.shutdown)
    ensures DrainsOk(drains', s.jobs, Ready, s.flags)
  {
    if !s.flags.force {
      forall d | 0 <= d < |drains'| && SawQuiet(drains'[d]) ensures AllEnded(s.jobs) {
        assert SawQuiet(s.drains[d]);
      }
      if s.flags.cancelled && !s.flags.parent {
        var d: nat :| d < |s.drains| && SawQuiet(s.drains[d]) && s.drains[d].Finished?;
        assert SawQuiet(drains'[d]) && drains'[d].Finished?;
      }
    }
  }

  lemma CloseKeepsListener(s: State, fate: Fate)
    requires ListenerOk(s.pc, s.taken, s.fates, s.flags) && Busy(s) && !fate.Open?
    ensures ListenerOk(Ready, s.taken, s.fates[|s.fates| - 1 := fate], s.flags)
  {
    var fates' := s.fates[|s.fates| - 1 := fate];
    forall k | 0 <= k < |s.fates| ensures !IsOpen(fates'[k]) {
      assert IsOpen(s.fates[k]) ==> k == |s.fates| - 1;
    }
  }

  lemma PassKeepsMessages(s: State, fate: Fate)
    requires MessagesOk(s.taken, s.fates, s.jobs, s.sent) && Busy(s) && s.fates[|s.fates| - 1].Open?
    requires FateOk(s.taken[Now(s)], Now(s), fate, s.jobs)
    ensures MessagesOk(s.taken, s.fates[|s.fates| - 1 := fate], s.jobs,
            s.sent + Owed(s.taken[Now(s)], Now(s), fate, s.jobs))
  {
    assert s.jobs + [] == s.jobs;
    CloseKeepsMessages(s.taken, s.fates, s.jobs, s.sent, fate, []);
  }

  /** The end of a pass that starts no job. */
  function Closed(s: State, fate: Fate, drains': seq<Drain>): State
    requires Busy(s)
  {
    s.(fates := s.fates[|s.fates| - 1 := fate], pc := Ready, drains := drains',
       sent := s.sent + Owed(s.taken[Now(s)], Now(s), fate, s.jobs))
  }

  lemma CloseKeepsInv(s: State, fate: Fate, drains': seq<Drain>)
    requires Inv(s) && Busy(s) && !s.pc.Starting? && !fate.Open? && !fate.Accepted?
             && FateOk(s.taken[Now(s)], Now(s), fate, s.jobs)
    requires drains' == s.drains || (drains' == s.drains + [Sleeping] && s.flags.shutdown)
    requires fate.Controlled? && s.taken[Now(s)].sort.Graceful? ==> drains' != []
    requires s.pc.AckingShutdown? ==> fate.Controlled?
    requires (fate.Left? ==> s.flags.force) && (fate.Refused? ==> s.pc.Rejecting?)
    ensures Inv(Closed(s, fate, drains'))
  {
    assert IsOpen(s.fates[|s.fates| - 1]);
    PassKeepsMessages(s, fate);
    CloseKeepsJobs(s.jobs, s.taken, s.fates, fate, s.flags);
    CloseKeepsListener(s, fate);
    CloseKeepsCauses(s, fate, drains');
    CloseKeepsDrains(s, drains');
  }

  lemma StartKeepsInv(s: State)
    requires Inv(s) && Busy(s) && s.pc.Starting?
    ensures Inv(Listen(s))
  {
    var fate := Accepted(|s.jobs|);
    assert IsOpen(s.fates[|s.fates| - 1]);
    CloseKeepsMessages(s.taken, s.fates, s.jobs, s.sent, fate, [Job(Now(s), Started)]);
    assert s.sent + [] == s.sent;
    CloseKeepsJobs(s.jobs, s.taken, s.fates, fate, s.flags);
    CloseKeepsListener(s, fate);
    CloseKeepsCauses(s, fate, s.drains);
    NewJobIsUncut(s);
  }

  lemma NewJobIsUncut(s: State)
    requires Busy(s)
    ensures NoneCut(s.jobs) ==> NoneCut(s.jobs + [Job(Now(s), Started)])
  {
    var jobs' := s.jobs + [Job(Now(s), Started)];
    if NoneCut(s.jobs) {
      forall j | 0 <= j < |jobs'| ensures !WasCut(jobs'[j]) {
        assert j < |s.jobs| ==> !WasCut(s.jobs[j]);
      }
    }
  }

  lemma AckKeepsInv(s: State)
    requires Inv(s) && Busy(s) && (s.pc.AckingShutdown? || s.pc.AckingForce? || s.pc.AckingReady?)
    ensures Inv(Listen(s))
  {
    assert s.sent + [] == s.sent;
    var fate := Controlled(!s.flags.cancelled);
    var drains := if s.pc.AckingShutdown? then s.drains + [Sleeping] else s.drains;
    var closed := Closed(s, fate, drains);
    CloseKeepsInv(s, fate, drains);
    if s.pc.AckingForce? {
      ExitKeepsInv(closed);
    }
  }

  lemma RejectKeepsInv(s: State)
    requires Inv(s) && Busy(s) && s.pc.Rejecting?
    ensures Inv(Listen(s))
  {
    assert s.sent + [] == s.sent;
    CloseKeepsInv(s, Refused(s.flags.cancelled), s.drains);
  }

  /** A step of the listener within a pass, or a change of the flags. */
  lemma MoveKeepsInv(s: State, pc': Listener, flags': Flags)
    requires Inv(s) && ListenerOk(pc', s.taken, s.fates, flags')
    requires (s.flags.byApp ==> flags'.byApp) && (s.flags.force ==> flags'.force) && (s.flags.parent ==> flags'.parent)
    requires Raised(pc', flags') ==> Raised(s.pc, s.flags) || flags'.byApp
    requires Settled(s.pc, s.flags) ==> Settled(pc', flags')
    requires flags'.cancelled && !flags'.force && !flags'.parent ==> s.flags.cancelled
    ensures Inv(s.(pc := pc', flags := flags'))
  {
    forall j | 0 <= j < |s.jobs| ensures JobOk(s.jobs[j], j, s.taken, s.fates, flags') {
      assert JobOk(s.jobs[j], j, s.taken, s.fates, s.flags);
    }
  }

  lemma FlagsKeepListener(s: State, pc': Listener, flags': Flags)
    requires ListenerOk(s.pc, s.taken, s.fates, s.flags)
    requires (s.flags.shutdown ==> flags'.shutdown) && (s.flags.force ==> flags'.force)
             && (s.flags.cancelled ==> flags'.cancelled)
    requires pc' == s.pc || (s.pc.Ready? && pc'.Exited? && flags'.cancelled)
    ensures ListenerOk(pc', s.taken, s.fates, flags')
  {
    forall k | 0 <= k < |s.fates| ensures IsOpen(s.fates[k]) <==> k == |s.fates| - 1 && InPass(pc') {
      assert IsOpen(s.fates[k]) <==> k == |s.fates| - 1 && InPass(s.pc);
    }
  }

  lemma ExitKeepsInv(s: State)
    requires Inv(s) && s.pc.Ready? && s.flags.force
    ensures Inv(s.(pc := Exited, flags := s.flags.(cancelled := true)))
  {
    FlagsKeepListener(s, Exited, s.flags.(cancelled := true));
    MoveKeepsInv(s, Exited, s.flags.(cancelled := true));
  }

  lemma PassKeepsListener(s: State, pc': Listener, flags': Flags)
    requires ListenerOk(s.pc, s.taken, s.fates, s.flags) && Busy(s) && InPass(pc')
    requires PlaceOk(pc', s.taken[Now(s)].sort, flags')
    ensures ListenerOk(pc', s.taken, s.fates, flags')
  {
    forall k | 0 <= k < |s.fates| ensures IsOpen(s.fates[k]) <==> k == |s.fates| - 1 && InPass(pc') {
      assert IsOpen(s.fates[k]) <==> k == |s.fates| - 1 && InPass(s.pc);
    }
  }

  lemma CheckKeepsInv(s: State)
    requires Inv(s) && Busy(s) && s.pc.Checking?
    ensures Inv(Listen(s))
  {
    if s.flags.force {
      assert s.sent + [] == s.sent;
      CloseKeepsInv(s, Left, s.drains);
      ExitKeepsInv(Closed(s, Left, s.drains));
    } else {
      var now := Listen(s);
      PassKeepsListener(s, now.pc, now.flags);
      MoveKeepsInv(s, now.pc, now.flags);
    }
  }

  lemma SendReadyKeepsInv(s: State)
    requires Inv(s) && Busy(s) && s.pc.SendingReady?
    ensures Inv(Listen(s))
  {
    if s.flags.cancelled {
      assert s.sent + [] == s.sent;
      CloseKeepsInv(s, Controlled(false), s.drains);
    } else {
      PassKeepsListener(s, AckingReady, s.flags);
      MoveKeepsInv(s, AckingReady, s.flags);
      ReadySignalKeepsMessages(s.taken, s.fates, s.jobs, s.sent);
    }
  }

  lemma DecideKeepsInv(s: State)
    requires Inv(s) && Busy(s) && s.pc.Deciding?
    ensures Inv(Listen(s))
  {
    var pc' := if s.flags.shutdown then Rejecting else Starting;
    PassKeepsListener(s, pc', s.flags);
    MoveKeepsInv(s, pc', s.flags);
  }

  lemma ListenKeepsInv(s: State)
    requires Inv(s) && Busy(s)
    ensures Inv(Listen(s))
  {
    match s.pc
    case Checking => CheckKeepsInv(s);
    case AckingShutdown => AckKeepsInv(s);
    case AckingForce => AckKeepsInv(s);
    case AckingReady => AckKeepsInv(s);
    case Rejecting => RejectKeepsInv(s);
    case Starting => StartKeepsInv(s);
    case SendingReady => SendReadyKeepsInv(s);
    case Deciding => DecideKeepsInv(s);
  }

  // ---- The jobs' steps ----

  lemma PhaseKeepsDrains(s: State, j: nat, phase: JobPhase)
    requires DrainsOk(s.drains, s.jobs, s.pc, s.flags) && j < |s.jobs|
    requires s.jobs[j].phase.Ended? ==> phase.Ended?
    requires !s.flags.force && !s.flags.parent ==> !WasCut(s.jobs[j].(phase := phase))
    ensures DrainsOk(s.drains, s.jobs[j := s.jobs[j].(phase := phase)], s.pc, s.flags)
  {
    var jobs' := s.jobs[j := s.jobs[j].(phase := phase)];
    if AllEnded(s.jobs) {
      forall i | 0 <= i < |s.jobs| ensures HasEnded(jobs'[i]) {
        assert HasEnded(s.jobs[i]);
      }
    }
    if !s.flags.force && !s.flags.parent {
      forall i | 0 <= i < |s.jobs| ensures !WasCut(jobs'[i]) {
        assert !WasCut(s.jobs[i]);
      }
    }
  }

  lemma PhaseKeepsJobs(s: State, j: nat, phase: JobPhase)
    requires JobsOk(s.jobs, s.taken, s.fates, s.flags) && j < |s.jobs|
    requires JobOk(s.jobs[j].(phase := phase), j, s.taken, s.fates, s.flags)
    ensures JobsOk(s.jobs[j := s.jobs[j].(phase := phase)], s.taken, s.fates, s.flags)
  {
    var jobs' := s.jobs[j := s.jobs[j].(phase := phase)];
    forall i | 0 <= i < |s.jobs| ensures JobOk(jobs'[i], i, s.taken, s.fates, s.flags) {
      assert JobOk(s.jobs[i], i, s.taken, s.fates, s.flags);
    }
  }

  /** A job moves to another phase, possibly writing its answer. */
  lemma PhaseKeepsInv(s: State, j: nat, phase: JobPhase, reply: seq<Sent>)
    requires Inv(s) && j < |s.jobs| && s.jobs[j].origin < |s.taken| && s.fates[s.jobs[j].origin] == Accepted(j)
    requires JobOk(s.jobs[j].(phase := phase), j, s.taken, s.fates, s.flags)
    requires s.jobs[j].phase.Ended? ==> phase.Ended?
    requires var k := s.jobs[j].origin;
             Owed(s.taken[k], k, Accepted(j), s.jobs[j := s.jobs[j].(phase := phase)])
                 == Owed(s.taken[k], k, Accepted(j), s.jobs) + reply
    requires reply == [] || (|reply| == 1 && reply[0].Reply? && reply[0].cause == s.jobs[j].origin)
    requires !s.flags.force && !s.flags.parent ==> !WasCut(s.jobs[j].(phase := phase))
    ensures Inv(WithPhase(s, j, phase).(sent := s.sent + reply))
  {
    JobKeepsMessages(s.taken, s.fates, s.jobs, s.sent, j, phase, reply);
    PhaseKeepsJobs(s, j, phase);
    PhaseKeepsDrains(s, j, phase);
  }

  /** A job moves on without writing. */
  lemma QuietPhaseKeepsInv(s: State, j: nat, phase: JobPhase)
    requires Inv(s) && j < |s.jobs| && JobOk(s.jobs[j], j, s.taken, s.fates, s.flags)
    requires JobOk(s.jobs[j].(phase := phase), j, s.taken, s.fates, s.flags)
    requires !s.jobs[j].phase.Ended? && EndOf(s.jobs[j].(phase := phase)) == EndOf(s.jobs[j])
    ensures Inv(WithPhase(s, j, phase))
  {
    assert !s.flags.force && !s.flags.parent ==> !WasCut(s.jobs[j]);
    assert s.sent + [] == s.sent;
    PhaseKeepsInv(s, j, phase, []);
  }

  lemma JobMoveKeepsInv(s: State, j: nat, work: JobAction)
    requires Inv(s) && j < |s.jobs| && s.jobs[j].origin < |s.taken| && !work.WriteBack?
    ensures Inv(JobStep(s, j, work))
  {
    var now := JobStep(s, j, work);
    assert JobOk(s.jobs[j], j, s.taken, s.fates, s.flags);
    if now != s {
      QuietPhaseKeepsInv(s, j, now.jobs[j].phase);
    }
  }

  /** Only force or the caller's context can cut the answer of a job that still runs. */
  lemma CutNeedsForce(s: State, j: nat)
    requires Inv(s) && j < |s.jobs| && !s.jobs[j].phase.Ended? && s.flags.cancelled
    ensures s.flags.force || s.flags.parent
  {
    assert !HasEnded(s.jobs[j]);
  }

  lemma WriteBackKeepsInv(s: State, j: nat)
    requires Inv(s) && j < |s.jobs| && s.jobs[j].origin < |s.taken|
    ensures Inv(JobStep(s, j, WriteBack))
  {
    var job := s.jobs[j];
    assert JobOk(job, j, s.taken, s.fates, s.flags);
    if job.phase.Replying? {
      var m := s.taken[job.origin];
      var reply := if s.flags.cancelled then [] else [Reply(job.origin, m.id, Responds(m.name, job.phase.outcome))];
      if s.flags.cancelled {
        CutNeedsForce(s, j);
        assert s.sent + [] == s.sent;
      }
      PhaseKeepsInv(s, j, Ending(Answered(job.phase.outcome, s.flags.cancelled)), reply);
    }
  }

  // ---- The drains' steps and the flags ----

  lemma DrainKeepsDrains(s: State, d: nat, drain: Drain, flags': Flags)
    requires DrainsOk(s.drains, s.jobs, s.pc, s.flags) && d < |s.drains|
    requires SawQuiet(drain) && !s.flags.force ==> SawQuiet(s.drains[d]) || AllEnded(s.jobs)
    requires s.drains[d].Finished? ==> drain.Finished?
    requires flags' == s.flags || (drain.Finished? && flags' == s.flags.(cancelled := true))
    ensures DrainsOk(s.drains[d := drain], s.jobs, s.pc, flags')
  {
    var drains' := s.drains[d := drain];
    forall e | 0 <= e < |drains'| && SawQuiet(drains'[e]) && !s.flags.force ensures AllEnded(s.jobs) {
      assert e != d ==> SawQuiet(s.drains[e]);
    }
    if s.flags.cancelled && !s.flags.force && !s.flags.parent {
      var e: nat :| e < |s.drains| && SawQuiet(s.drains[e]) && s.drains[e].Finished?;
      assert SawQuiet(drains'[e]) && drains'[e].Finished?;
    } else if flags'.cancelled {
      assert drain.Finished? ==> SawQuiet(drains'[d]);
    }
  }

  lemma DrainKeepsInv(s: State, d: nat, wait: DrainAction)
    requires Inv(s) && d < |s.drains|
    ensures Inv(DrainStep(s, d, wait))
  {
    var now := DrainStep(s, d, wait);
    if now != s {
      DrainKeepsDrains(s, d, now.drains[d], now.flags);
      FlagsKeepListener(s, s.pc, now.flags);
      forall j | 0 <= j < |s.jobs| ensures JobOk(s.jobs[j], j, s.taken, s.fates, now.flags) {
        assert JobOk(s.jobs[j], j, s.taken, s.fates, s.flags);
      }
    }
  }

  lemma FlagsKeepInv(s: State, step: Step)
    requires Inv(s) && (step.AppShutdown? || step.AppForce? || step.ParentCancel? || step.Monitor? || step.Leave?)
    ensures Inv(Next(s, step))
  {
    var now := Next(s, step);
    FlagsKeepListener(s, now.pc, now.flags);
    MoveKeepsInv(s, now.pc, now.flags);
  }

  lemma NextKeepsInv(s: State, step: Step)
    requires Inv(s)
    ensures Inv(Next(s, step))
  {
    match step
    case Take(m) => TakeKeepsInv(s, m);
    case Advance => if Busy(s) { ListenKeepsInv(s); }
    case OfJob(j, work) =>
      if j < |s.jobs| && s.jobs[j].origin < |s.taken| {
        if work.WriteBack? { WriteBackKeepsInv(s, j); } else { JobMoveKeepsInv(s, j, work); }
      }
    case OfDrain(d, wait) => if d < |s.drains| { DrainKeepsInv(s, d, wait); }
    case _ => FlagsKeepInv(s, step);
  }

  lemma {:induction false} RunKeepsInv(s: State, steps: seq<Step>)
    requires Inv(s)
    ensures Inv(Exec(s, steps))
  {
    if steps != [] {
      RunKeepsInv(s, steps[..|steps| - 1]);
      NextKeepsInv(Exec(s, steps[..|steps| - 1]), steps[|steps| - 1]);
    }
  }

  lemma InitHolds()
    ensures Inv(INIT)
  {
  }

  // ---- What the module promises ----

  function FateAt(s: State, k: nat): Fate {
    if k < |s.fates| then s.fates[k] else Open
  }

  /** The header bytes of a reply or of a ready signal. */
  function HeaderOf(r: Sent): Header {
    match r
    case ReadySignal => Ack(READY, READY_TEXT)
    case Reply(_, _, Responds(name, outcome)) => Respond(name, outcome)
    case Reply(_, _, Acknowledges(sort)) =>
      (match sort
       case Graceful => Ack(SHUTDOWN_ACK, SHUTDOWN_STARTED)
       case Forced => Ack(FORCE_SHUTDOWN_ACK, FORCE_STARTED)
       case Readiness => Ack(REQUEST_READY_ACK, READY_SENT)
       case Ordinary => ZERO_HEADER)
  }

  /**
   Every message is answered at most once, in any run whatever, and an answer carries its message's own id;
   an ordinary message gets either the rejection or the outcome of the one job started for it.
   */
  lemma AtMostOneReply(steps: seq<Step>, k: nat)
    requires k < |Exec(INIT, steps).taken|
    ensures var s := Exec(INIT, steps);
            var m, rs := s.taken[k], RepliesTo(s.sent, k);
            && |rs| <= 1
            && (rs != [] ==> rs[0].Reply? && rs[0].id == m.id)
            && (rs != [] && m.sort.Ordinary? ==>
                  rs[0].content.Responds? && rs[0].content.name == m.name
                  && (rs[0].content.outcome.Draining? <==> FateAt(s, k).Refused?)
                  && (rs[0].content.outcome.ForceDown? ==> s.flags.force))
            && (rs != [] && !m.sort.Ordinary? ==> rs[0].content == Acknowledges(m.sort))
  {
    InitHolds();
    RunKeepsInv(INIT, steps);
    var s := Exec(INIT, steps);
    assert MessageOk(k, s.taken, s.fates, s.jobs, s.sent);
    if FateAt(s, k).Accepted? {
      var j := FateAt(s, k).job;
      assert JobOk(s.jobs[j], j, s.taken, s.fates, s.flags);
    }
  }

  lemma {:induction false} UndecodableIsOrdinary(steps: seq<Step>, k: nat)
    requires k < |Exec(INIT, steps).taken| && !Exec(INIT, steps).taken[k].decodes
    ensures Exec(INIT, steps).taken[k].sort.Ordinary?
  {
    if steps != [] {
      var before, step := steps[..|steps| - 1], steps[|steps| - 1];
      TakenGrows(Exec(INIT, before), step);
      if k < |Exec(INIT, before).taken| {
        UndecodableIsOrdinary(before, k);
      }
    }
  }

  /** Only taking a message adds to the messages taken. */
  lemma TakenGrows(s: State, step: Step)
    ensures Next(s, step).taken == s.taken + if step.Take? && s.pc.Ready? then [Read(step.m)] else []
  {
  }

  /** The job has not asked for a handler: it is still to decode its message, or has dropped it. */
  predicate AsksNobody(job: Job) {
    job.phase.Started? || ((job.phase.Ending? || job.phase.Ended?) && job.phase.end.Dropped?)
  }

  /**
   In any run, a message that does not decode reaches no handler. It is answered, by the rejection, exactly if it
   was refused with the listener's context alive.
   */
  lemma UndecodableReachesNoHandler(steps: seq<Step>, k: nat)
    requires k < |Exec(INIT, steps).taken| && !Exec(INIT, steps).taken[k].decodes
    ensures var s := Exec(INIT, steps);
            && (forall j :: 0 <= j < |s.jobs| && s.jobs[j].origin == k ==> AsksNobody(s.jobs[j]))
            && (RepliesTo(s.sent, k) != [] <==> FateAt(s, k) == Refused(false))
            && (RepliesTo(s.sent, k) != []
                ==> RepliesTo(s.sent, k) == [Reply(k, s.taken[k].id, Responds(s.taken[k].name, Draining))])
  {
    InitHolds();
    RunKeepsInv(INIT, steps);
    UndecodableIsOrdinary(steps, k);
    var s := Exec(INIT, steps);
    assert MessageOk(k, s.taken, s.fates, s.jobs, s.sent);
    forall j | 0 <= j < |s.jobs| && s.jobs[j].origin == k ensures AsksNobody(s.jobs[j]) {
      assert JobOk(s.jobs[j], j, s.taken, s.fates, s.flags);
    }
    if s.fates[k].Accepted? {
      assert JobOk(s.jobs[s.fates[k].job], s.fates[k].job, s.taken, s.fates, s.flags);
    }
  }

  /**
   Graceful drain: once the listener's context is cancelled, with no force shutdown and the caller's context
   alive, no job is active, and every message a job was started for has had its one reply written, with its own
   id and the outcome of its own job, unless its header did not decode, when there is none.
   */
  lemma GracefulDrain(steps: seq<Step>, k: nat)
    requires var f := Exec(INIT, steps).flags; f.cancelled && !f.force && !f.parent
    requires k < |Exec(INIT, steps).taken| && FateAt(Exec(INIT, steps), k).Accepted?
    ensures var s := Exec(INIT, steps);
            var m, j := s.taken[k], FateAt(s, k).job;
            && AllEnded(s.jobs)
            && j < |s.jobs| && s.jobs[j].origin == k && s.jobs[j].phase.Ended?
            && var end := s.jobs[j].phase.end;
            && (m.decodes <==> end.Answered?)
            && (m.decodes ==> RepliesTo(s.sent, k) == [Reply(k, m.id, Responds(m.name, end.outcome))]
                              && !end.outcome.Draining? && !end.outcome.ForceDown?)
            && (!m.decodes ==> RepliesTo(s.sent, k) == [])
  {
    InitHolds();
    RunKeepsInv(INIT, steps);
    var s := Exec(INIT, steps);
    assert MessageOk(k, s.taken, s.fates, s.jobs, s.sent);
    var j := FateAt(s, k).job;
    assert JobOk(s.jobs[j], j, s.taken, s.fates, s.flags);
    var d: nat :| d < |s.drains| && SawQuiet(s.drains[d]);
    assert AllEnded(s.jobs) && HasEnded(s.jobs[j]) && !WasCut(s.jobs[j]);
  }

  /**
   Which messages those are: with no force shutdown and no shutdown by the application, every ordinary message
   taken before the first shutdown message, and whose pass is over, had a job started for it.
   */
  lemma TakenBeforeShutdownIsAccepted(steps: seq<Step>, k: nat)
    requires var f := Exec(INIT, steps).flags; !f.force && !f.byApp
    requires k < |Exec(INIT, steps).taken| && Exec(INIT, steps).taken[k].sort.Ordinary?
    requires !FateAt(Exec(INIT, steps), k).Open?
    requires forall g :: 0 <= g < k ==> !Exec(INIT, steps).taken[g].sort.Graceful?
    ensures FateAt(Exec(INIT, steps), k).Accepted?
  {
    InitHolds();
    RunKeepsInv(INIT, steps);
    var s := Exec(INIT, steps);
    assert MessageOk(k, s.taken, s.fates, s.jobs, s.sent);
    assert LeftAt(s.fates, k) ==> s.flags.force;
    assert !ShutdownBefore(s.taken, s.fates, k);
    assert !RefusedAt(s.fates, k);
  }

  // ---- After the shutdown message ----

  lemma SettledJobStays(s: State, j: nat, work: JobAction)
    requires j < |s.jobs| && s.jobs[j].origin < |s.taken|
    ensures var now := JobStep(s, j, work);
            && now.pc == s.pc && now.flags == s.flags && now.taken == s.taken && |now.jobs| == |s.jobs|
            && (forall i :: 0 <= i < |s.jobs| ==> now.jobs[i].origin == s.jobs[i].origin)
            && (forall i :: 0 <= i < |s.jobs| && s.jobs[i].phase.Ended? ==> now.jobs[i].phase.Ended?)
  {
    var now := JobStep(s, j, work);
    assert now == s || now.jobs == s.jobs[j := now.jobs[j]];
  }

  lemma SettledStays(s: State, step: Step)
    requires Settled(s.pc, s.flags)
    ensures var now := Next(s, step);
            && Settled(now.pc, now.flags) && |now.jobs| == |s.jobs|
            && (forall j :: 0 <= j < |s.jobs| ==> now.jobs[j].origin == s.jobs[j].origin)
            && (forall j :: 0 <= j < |s.jobs| && s.jobs[j].phase.Ended? ==> now.jobs[j].phase.Ended?)
            && |s.taken| <= |now.taken|
  {
    if step.OfJob? && step.j < |s.jobs| && s.jobs[step.j].origin < |s.taken| {
      SettledJobStays(s, step.j, step.work);
    }
  }

  /** The active jobs only shrink: none is started, and one that ended stays ended. */
  lemma {:induction false} ActiveJobsShrink(s: State, steps: seq<Step>)
    requires Inv(s) && Settled(s.pc, s.flags)
    ensures var now := Exec(s, steps);
            && Inv(now) && Settled(now.pc, now.flags) && |now.jobs| == |s.jobs| && |s.taken| <= |now.taken|
            && (forall j :: 0 <= j < |s.jobs| ==> now.jobs[j].origin == s.jobs[j].origin)
            && (forall j :: 0 <= j < |s.jobs| && s.jobs[j].phase.Ended? ==> now.jobs[j].phase.Ended?)
  {
    if steps != [] {
      var before := steps[..|steps| - 1];
      ActiveJobsShrink(s, before);
      RunKeepsInv(s, steps);
      SettledStays(Exec(s, before), steps[|steps| - 1]);
    }
  }

  lemma OldOrigins(s: State, now: State, k: nat)
    requires Inv(s) && |now.jobs| == |s.jobs| && k >= |s.taken|
    requires forall j :: 0 <= j < |s.jobs| ==> now.jobs[j].origin == s.jobs[j].origin
    ensures forall j :: 0 <= j < |now.jobs| ==> now.jobs[j].origin != k
  {
    forall j | 0 <= j < |now.jobs| ensures now.jobs[j].origin != k {
      assert JobOk(s.jobs[j], j, s.taken, s.fates, s.flags);
    }
  }

  lemma JoblessIsRefused(s: State, k: nat)
    requires Inv(s) && k < |s.taken| && s.taken[k].sort.Ordinary? && !FateAt(s, k).Open? && !s.flags.force
    requires forall j :: 0 <= j < |s.jobs| ==> s.jobs[j].origin != k
    ensures FateAt(s, k).Refused?
    ensures RepliesTo(s.sent, k) == if FateAt(s, k).cut then []
            else [Reply(k, s.taken[k].id, Responds(s.taken[k].name, Draining))]
  {
    assert MessageOk(k, s.taken, s.fates, s.jobs, s.sent);
    assert LeftAt(s.fates, k) ==> s.flags.force;
  }

  /**
   Rejection: once in shutdown, a non-control message taken before a force shutdown starts no job. It gets one
   rejection, carrying its id, exactly if the listener's context was not yet cancelled when its pass came to write it.
   */
  lemma RejectedAfterShutdown(s: State, steps: seq<Step>, k: nat)
    requires Inv(s) && Settled(s.pc, s.flags)
    requires |s.taken| <= k < |Exec(s, steps).taken| && Exec(s, steps).taken[k].sort.Ordinary?
    requires !FateAt(Exec(s, steps), k).Open? && !Exec(s, steps).flags.force
    ensures var now := Exec(s, steps);
            var m := now.taken[k];
            && FateAt(now, k).Refused?
            && (forall j :: 0 <= j < |now.jobs| ==> now.jobs[j].origin != k)
            && RepliesTo(now.sent, k) == if FateAt(now, k).cut then [] else [Reply(k, m.id, Responds(m.name, Draining))]
  {
    ActiveJobsShrink(s, steps);
    OldOrigins(s, Exec(s, steps), k);
    JoblessIsRefused(Exec(s, steps), k);
  }

  /** The condition of the last lemma, at the very step: a rejection is written unless the context is cancelled. */
  lemma RejectionIsWrittenIff(s: State)
    requires Inv(s) && s.pc.Rejecting?
    ensures var k, now := |s.taken| - 1, Next(s, Advance);
            && now.fates[k] == Refused(s.flags.cancelled)
            && (RepliesTo(now.sent, k) != [] <==> !s.flags.cancelled)
  {
    ListenKeepsInv(s);
    var k, now := |s.taken| - 1, Next(s, Advance);
    assert MessageOk(k, now.taken, now.fates, now.jobs, now.sent);
  }

  lemma ExecSnoc(s: State, steps: seq<Step>, step: Step)
    ensures Exec(s, steps + [step]) == Next(Exec(s, steps), step)
  {
    assert (steps + [step])[..|steps|] == steps;
  }

  /** A shutdown message with no job active, drained to the end. */
  function IdleShutdown(shut: OldMessage): seq<Step> {
    [Take(shut)] + [Advance] + [Advance] + [OfDrain(0, Wake)] + [OfDrain(0, SeeQuiet)] + [OfDrain(0, Cancel)]
  }

  /** A drain that finds no job, from its start to its end. */
  lemma IdleDrain(s: State)
    requires s.jobs == [] && s.drains == [Sleeping]
    ensures Next(Next(Next(s, OfDrain(0, Wake)), OfDrain(0, SeeQuiet)), OfDrain(0, Cancel))
         == s.(drains := [Finished], flags := s.flags.(cancelled := true))
  {
    assert [Sleeping][0 := Awaiting] == [Awaiting];
    assert [Awaiting][0 := Quiet] == [Quiet];
    assert [Quiet][0 := Finished] == [Finished];
    assert Next(s, OfDrain(0, Wake)) == s.(drains := [Awaiting]);
    assert Next(s.(drains := [Awaiting]), OfDrain(0, SeeQuiet)) == s.(drains := [Quiet]);
  }

  /** The pass over a shutdown message, unforced and with its context alive. */
  lemma GracefulPass(s: State, shut: OldMessage)
    requires Read(shut).sort.Graceful? && s.pc.Ready? && !s.flags.force && !s.flags.cancelled
    requires |s.fates| == |s.taken|
    ensures Next(Next(Next(s, Take(shut)), Advance), Advance) ==
            s.(flags := s.flags.(shutdown := true), taken := s.taken + [Read(shut)],
               fates := s.fates + [Controlled(true)], drains := s.drains + [Sleeping],
               sent := s.sent + [Reply(|s.taken|, shut.id, Acknowledges(Graceful))])
  {
    var m := Read(shut);
    var taking := s.(pc := Checking, taken := s.taken + [m], fates := s.fates + [Open]);
    assert Next(s, Take(shut)) == taking;
    assert Next(taking, Advance) == taking.(flags := s.flags.(shutdown := true), pc := AckingShutdown);
    assert (s.fates + [Open])[|s.fates| := Controlled(true)] == s.fates + [Controlled(true)];
  }

  /** A drain that wakes, looks at the jobs and then cancels. */
  function Drained(s: State, d: nat): State {
    Next(Next(Next(s, OfDrain(d, Wake)), OfDrain(d, SeeQuiet)), OfDrain(d, Cancel))
  }

  /** A drain, left to itself, cancels the listener's context exactly if all jobs have ended or force is on. */
  lemma DrainCancelsIff(s: State, d: nat)
    requires d < |s.drains| && s.drains[d].Sleeping?
    ensures var now := Drained(s, d);
            && (now.flags.cancelled <==>
                  s.flags.cancelled || s.flags.force || forall j :: 0 <= j < |s.jobs| ==> s.jobs[j].phase.Ended?)
            && now == s.(flags := s.flags.(cancelled := now.flags.cancelled), drains := now.drains)
  {
    forall j | 0 <= j < |s.jobs| ensures HasEnded(s.jobs[j]) <==> s.jobs[j].phase.Ended? {
    }
  }

  /** A listener between two passes leaves, once its monitor has run, exactly if something has ended its context. */
  lemma LeavesIff(s: State)
    requires s.pc.Ready?
    ensures Next(Next(s, Monitor), Leave).pc.Exited? <==> s.flags.cancelled || s.flags.force || s.flags.parent
  {
  }

  lemma ShutdownPass(shut: OldMessage)
    requires Read(shut).sort.Graceful?
    ensures Next(Next(Next(INIT, Take(shut)), Advance), Advance) ==
            State(Flags(true, false, false, false, false), Ready, [Read(shut)], [Controlled(true)], [], [Sleeping],
                  [ReadySignal, Reply(0, shut.id, Acknowledges(Graceful))])
  {
    var m, up := Read(shut), Flags(true, false, false, false, false);
    assert Next(INIT, Take(shut)) == State(INIT.flags, Checking, [m], [Open], [], [], [ReadySignal]);
    assert Next(Next(INIT, Take(shut)), Advance) == State(up, AckingShutdown, [m], [Open], [], [], [ReadySignal]);
    assert [Open][0 := Controlled(true)] == [Controlled(true)];
  }

  lemma IdleShutdownRun(shut: OldMessage)
    requires Read(shut).sort.Graceful?
    ensures Exec(INIT, IdleShutdown(shut)) ==
            State(Flags(true, false, false, true, false), Ready, [Read(shut)], [Controlled(true)], [], [Finished],
                  [ReadySignal, Reply(0, shut.id, Acknowledges(Graceful))])
  {
    ShutdownPass(shut);
    var s := [Take(shut)];
    ExecSnoc(INIT, [], s[0]);
    assert [] + s == s;
    ExecSnoc(INIT, s, Advance);
    ExecSnoc(INIT, s + [Advance], Advance);
    s := s + [Advance] + [Advance];
    IdleDrain(Exec(INIT, s));
    ExecSnoc(INIT, s, OfDrain(0, Wake));
    ExecSnoc(INIT, s + [OfDrain(0, Wake)], OfDrain(0, SeeQuiet));
    ExecSnoc(INIT, s + [OfDrain(0, Wake)] + [OfDrain(0, SeeQuiet)], OfDrain(0, Cancel));
  }

  /**
   So a message after shutdown need not be answered: whatever ordinary message the loop still takes once the
   drain has cancelled its context is refused in silence.
   */
  lemma LateRejectionIsLost(shut: OldMessage, late: OldMessage)
    requires Read(shut).sort.Graceful? && Read(late).sort.Ordinary?
    ensures var s := Exec(INIT, IdleShutdown(shut) + [Take(late)] + [Advance] + [Advance] + [Advance]);
            s.pc.Ready? && !s.flags.force && !s.flags.parent && |s.taken| == 2 && FateAt(s, 1) == Refused(true)
            && RepliesTo(s.sent, 1) == []
  {
    IdleShutdownRun(shut);
    var run := IdleShutdown(shut);
    var before := Exec(INIT, run);
    ExecSnoc(INIT, run, Take(late));
    var taken := before.(taken := before.taken + [Read(late)], fates := before.fates + [Open], pc := Checking);
    assert Exec(INIT, run + [Take(late)]) == taken;
    ExecSnoc(INIT, run + [Take(late)], Advance);
    assert Exec(INIT, run + [Take(late)] + [Advance]) == taken.(pc := Deciding);
    ExecSnoc(INIT, run + [Take(late)] + [Advance], Advance);
    assert Exec(INIT, run + [Take(late)] + [Advance] + [Advance]) == taken.(pc := Rejecting);
    ExecSnoc(INIT, run + [Take(late)] + [Advance] + [Advance], Advance);
    forall i | 0 <= i < |before.sent| ensures CauseOk(before.sent[i], 1) {
    }
    NoReplies(before.sent, 1);
  }
}
