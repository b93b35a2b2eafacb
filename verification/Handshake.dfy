/**
 The shutdown handshake between a loader that closes and a module that listens: both sides, whatever else is
 on the wire, and any number of callers of Close.
 */
module Handshake {
  import opened Wire
  import opened Codec
  import opened Adapters
  import opened Plugin
  import Frames
  import Loader
  import Listening

  /** One call of Close. */
  datatype Closer = Calling | Refused | Writing | Waiting | Acknowledged | Abandoned

  datatype Loading = Loading(view: Loader.View, closed: bool, closers: seq<Closer>)

  datatype State = State(module_: Listening.State, host: Loading)

  datatype Step =
    | OfModule(step: Listening.Step)
    | Deliver(i: nat, id: uint32, cut: nat)
    | Aborted(k: nat, id: uint32, cut: nat)
    | Other(m: ApiMessage)
    | Retable(pending: map<uint32, Loader.Slot>)
    | ProcessGone
    | Call
    | Swap(c: nat)
    | Written(c: nat)
    | WriteFailed(c: nat)
    | Receive(c: nat)

  const INIT: State := State(Listening.INIT, Loading(Loader.View(false, false, false, false, map[]), false, []))

  /** The loader's loop takes a message; which handlers are registered does not matter here. */
  function Arrive(host: Loading, m: ApiMessage): Loading {
    host.(view := Loader.Handle(host.view, {}, {}, m).view)
  }

  /** The message decodes to a header under the acknowledgment's name. */
  predicate BearsAckName(m: ApiMessage) {
    var d := Decode(ZERO_HEADER, m.data);
    d.Decoded? && d.header.name == SHUTDOWN_ACK
  }

  function Move(host: Loading, c: nat, closer: Closer): Loading
    requires c < |host.closers|
  {
    host.(closers := host.closers[c := closer])
  }

  /** The caller that flips `closed` sends the shutdown message and waits for its acknowledgment. */
  function CloserStep(host: Loading, c: nat, step: Step): Loading
    requires c < |host.closers|
  {
    var phase := host.closers[c];
    match step
    case Swap(_) =>
      if !phase.Calling? then host
      else if host.closed then Move(host, c, Refused)
      else Move(host, c, Writing).(closed := true)
    case Written(_) => if phase.Writing? then Move(host, c, Waiting) else host
    case WriteFailed(_) => if phase.Writing? then Move(host, c, Abandoned) else host
    case Receive(_) =>
      if phase.Waiting? && host.view.shutdownAck
      then Move(host, c, Acknowledged).(view := host.view.(shutdownAck := false)) else host
    case _ => host
  }

  /** So much of a reply reaches the loader; too long a message is never delivered. */
  function ArrivePart(host: Loading, h: Header, id: uint32, cut: nat): Loading {
    var data := Encode(h);
    if cut <= |data| <= Frames.MAX_LENGTH then Arrive(host, ApiMessage(id, data[..cut])) else host
  }

  /** The reply to message `k` whose write was cut, if there is one. */
  function Aborts(s: Listening.State, k: nat): seq<Listening.Sent>
    requires k < |s.taken|
  {
    Listening.CutReply(s.taken[k], k, Listening.FateAt(s, k), s.jobs)
  }

  /**
   A reply reaches the loader whole, or cut short by an abort. So does one whose write was cut, `Aborted`: in part, or
   whole if it was cut after its last chunk. `Other` is any message or error text whatever that is no reply, among them
   those the application sends through the module.
   */
  function Next(s: State, step: Step): State {
    match step
    case OfModule(step) => s.(module_ := Listening.Next(s.module_, step))
    case Deliver(i, id, cut) =>
      if i < |s.module_.sent|
      then s.(host := ArrivePart(s.host, Listening.HeaderOf(s.module_.sent[i]), id, cut)) else s
    case Aborted(k, id, cut) =>
      if k < |s.module_.taken| && Aborts(s.module_, k) != []
      then s.(host := ArrivePart(s.host, Listening.HeaderOf(Aborts(s.module_, k)[0]), id, cut)) else s
    case Other(m) => s.(host := Arrive(s.host, m))
    case Retable(pending) => s.(host := s.host.(view := s.host.view.(pending := pending)))
    case ProcessGone => s.(host := s.host.(closed := true))
    case Call => s.(host := s.host.(closers := s.host.closers + [Calling]))
    case _ => if step.c < |s.host.closers| then s.(host := CloserStep(s.host, step.c, step)) else s
  }

  function Exec(s: State, steps: seq<Step>): State {
    if steps == [] then s else Next(Exec(s, steps[..|steps| - 1]), steps[|steps| - 1])
  }

  /** No message to the module bears the name of the acknowledgment. */
  predicate Unreserved(taken: seq<Listening.Incoming>) {
    forall k :: 0 <= k < |taken| ==> taken[k].name != SHUTDOWN_ACK
  }

  /** Nor does any message that the application sends through the module. */
  predicate NoForeignAck(steps: seq<Step>) {
    forall i :: 0 <= i < |steps| ==> (steps[i].Other? ==> !BearsAckName(steps[i].m))
  }

  // ---- The module's half ----

  lemma {:induction false} RepliesHold(sent: seq<Listening.Sent>, i: nat)
    requires i < |sent| && sent[i].Reply?
    ensures sent[i] in Listening.RepliesTo(sent, sent[i].cause)
  {
    if i < |sent| - 1 {
      RepliesHold(sent[..|sent| - 1], i);
    }
  }

  lemma AckName(r: Listening.Sent)
    requires Listening.HeaderOf(r).name == SHUTDOWN_ACK
    ensures r.Reply?
    ensures r.content.Acknowledges? ==> r.content.sort.Graceful?
    ensures r.content.Responds? ==> r.content.name == SHUTDOWN_ACK
  {
    assert |SHUTDOWN_ACK| == 12;
    assert |READY| == 5 && |FORCE_SHUTDOWN_ACK| == 18 && |REQUEST_READY_ACK| == 17;
    if r.Reply? && r.content.Responds? {
      RespondShape(r.content.name, r.content.outcome);
    }
  }

  /** An acknowledgment is only ever written by a module that is in shutdown and starts no job any more. */
  lemma AckMeansSettled(s: Listening.State, i: nat)
    requires Listening.Inv(s) && Unreserved(s.taken) && i < |s.sent|
             && Listening.HeaderOf(s.sent[i]).name == SHUTDOWN_ACK
    ensures Listening.Settled(s.pc, s.flags)
  {
    var r := s.sent[i];
    AckName(r);
    RepliesHold(s.sent, i);
    assert Listening.CauseOk(r, |s.taken|);
    assert Listening.MessageOk(r.cause, s.taken, s.fates, s.jobs, s.sent);
    assert r.content.Acknowledges?;
    assert Listening.ShutdownAt(s.taken, s.fates, r.cause);
  }

  // ---- Both halves ----

  ghost predicate Heard(host: Loading) {
    host.view.shutdownAck || exists c :: 0 <= c < |host.closers| && host.closers[c].Acknowledged?
  }

  ghost predicate Inv(s: State) {
    Listening.Inv(s.module_)
    && (Heard(s.host) && Unreserved(s.module_.taken) ==> Listening.Settled(s.module_.pc, s.module_.flags))
  }

  /** What arrives raises the acknowledgment signal exactly if it bears the acknowledgment's name, whoever sent it. */
  lemma SignalRaisedIff(host: Loading, m: ApiMessage)
    ensures var now := Arrive(host, m);
            now.closers == host.closers && now.closed == host.closed
            && (now.view.shutdownAck <==> host.view.shutdownAck || BearsAckName(m))
  {
    assert |SHUTDOWN_ACK| == 12 && |READY| == 5;
  }

  lemma CutNeverRaises(h: Header, cut: nat)
    requires cut <= |Encode(h)| <= Frames.MAX_LENGTH
    ensures var d := Decode(ZERO_HEADER, Encode(h)[..cut]);
            d.Decoded? ==> d.header == h
  {
    SmallIsShort(h);
    if cut < |Encode(h)| {
      NoPrefixDecodes(ZERO_HEADER, h, cut);
    } else {
      assert Encode(h)[..cut] == Encode(h);
    }
  }

  lemma ModuleStepKeepsInv(s: State, step: Listening.Step)
    requires Inv(s)
    ensures Inv(Next(s, OfModule(step)))
  {
    Listening.NextKeepsInv(s.module_, step);
    if Heard(s.host) && Unreserved(Listening.Next(s.module_, step).taken) {
      TakenGrow(s.module_, step);
      Listening.SettledStays(s.module_, step);
    }
  }

  lemma TakenGrow(s: Listening.State, step: Listening.Step)
    ensures s.taken <= Listening.Next(s, step).taken
    ensures Unreserved(Listening.Next(s, step).taken) ==> Unreserved(s.taken)
  {
    assert forall k :: 0 <= k < |s.taken| ==> Listening.Next(s, step).taken[k] == s.taken[k];
  }

  lemma PartKeepsInv(s: State, h: Header, id: uint32, cut: nat)
    requires Inv(s)
    requires h.name == SHUTDOWN_ACK && Unreserved(s.module_.taken) ==> Listening.Settled(s.module_.pc, s.module_.flags)
    ensures Inv(s.(host := ArrivePart(s.host, h, id, cut)))
  {
    if cut <= |Encode(h)| <= Frames.MAX_LENGTH {
      SignalRaisedIff(s.host, ApiMessage(id, Encode(h)[..cut]));
      CutNeverRaises(h, cut);
    }
  }

  lemma DeliverKeepsInv(s: State, i: nat, id: uint32, cut: nat)
    requires Inv(s)
    ensures Inv(Next(s, Deliver(i, id, cut)))
  {
    if i < |s.module_.sent| {
      var h := Listening.HeaderOf(s.module_.sent[i]);
      if h.name == SHUTDOWN_ACK && Unreserved(s.module_.taken) {
        AckMeansSettled(s.module_, i);
      }
      PartKeepsInv(s, h, id, cut);
    }
  }

  /** Nor is an acknowledgment ever begun by a module that is not in shutdown. */
  lemma AbortedAckMeansSettled(s: Listening.State, k: nat)
    requires Listening.Inv(s) && Unreserved(s.taken) && k < |s.taken| && Aborts(s, k) != []
    requires Listening.HeaderOf(Aborts(s, k)[0]).name == SHUTDOWN_ACK
    ensures Listening.Settled(s.pc, s.flags)
  {
    AckName(Aborts(s, k)[0]);
    assert s.taken[k].name != SHUTDOWN_ACK;
    assert Listening.MessageOk(k, s.taken, s.fates, s.jobs, s.sent);
    assert Listening.ShutdownAt(s.taken, s.fates, k);
  }

  lemma AbortedKeepsInv(s: State, k: nat, id: uint32, cut: nat)
    requires Inv(s)
    ensures Inv(Next(s, Aborted(k, id, cut)))
  {
    if k < |s.module_.taken| && Aborts(s.module_, k) != [] {
      var h := Listening.HeaderOf(Aborts(s.module_, k)[0]);
      if h.name == SHUTDOWN_ACK && Unreserved(s.module_.taken) {
        AbortedAckMeansSettled(s.module_, k);
      }
      PartKeepsInv(s, h, id, cut);
    }
  }

  lemma HostStepKeepsInv(s: State, step: Step)
    requires Inv(s) && !step.OfModule? && !step.Deliver? && !step.Aborted? && (step.Other? ==> !BearsAckName(step.m))
    ensures Inv(Next(s, step))
  {
    var now := Next(s, step);
    if step.Other? {
      SignalRaisedIff(s.host, step.m);
    }
    if Heard(now.host) {
      if !now.host.view.shutdownAck {
        var c: nat :| c < |now.host.closers| && now.host.closers[c].Acknowledged?;
        assert (c < |s.host.closers| && s.host.closers[c].Acknowledged?) || s.host.view.shutdownAck;
      }
      assert Heard(s.host);
    }
  }

  lemma {:induction false} RunKeepsInv(steps: seq<Step>)
    requires NoForeignAck(steps)
    ensures Inv(Exec(INIT, steps))
  {
    if steps == [] {
      Listening.InitHolds();
    } else {
      var before, step := Exec(INIT, steps[..|steps| - 1]), steps[|steps| - 1];
      RunKeepsInv(steps[..|steps| - 1]);
      match step
      case OfModule(inner) => ModuleStepKeepsInv(before, inner);
      case Deliver(i, id, cut) => DeliverKeepsInv(before, i, id, cut);
      case Aborted(k, id, cut) => AbortedKeepsInv(before, k, id, cut);
      case _ => HostStepKeepsInv(before, step);
    }
  }

  /**
   The handshake: when a call of Close has received its acknowledgment, and no request and no message of the
   application bears that name, the module has entered shutdown, past the point where it could still start a job.
   */
  lemma AcknowledgedMeansShutdown(steps: seq<Step>, c: nat)
    requires c < |Exec(INIT, steps).host.closers| && Exec(INIT, steps).host.closers[c].Acknowledged?
    requires Unreserved(Exec(INIT, steps).module_.taken) && NoForeignAck(steps)
    ensures var m := Exec(INIT, steps).module_;
            m.flags.shutdown && Listening.Settled(m.pc, m.flags)
  {
    RunKeepsInv(steps);
    assert Heard(Exec(INIT, steps).host);
  }

  // ---- A Close that nothing interferes with ----

  /** What Close writes. */
  const SHUTDOWN_REQUEST: Header := Request(SHUTDOWN, Ascii("graceful shutdown"))

  lemma RequestIsGraceful(m: OldMessage)
    requires m.data == Encode(SHUTDOWN_REQUEST)
    ensures Listening.Read(m).decodes && Listening.Read(m).sort.Graceful?
  {
    assert |SHUTDOWN| == 8 && |SHUTDOWN_REQUEST.payload| == 17;
    DecodeOfExactEncode(ZERO_HEADER, SHUTDOWN_REQUEST);
  }

  /** The pass that reads it, then the delivery of what that pass wrote, and the end of the wait. */
  function Reading(m: OldMessage): seq<Step> {
    [OfModule(Listening.Take(m))] + [OfModule(Listening.Advance)] + [OfModule(Listening.Advance)]
  }

  function Acknowledging(m: OldMessage, i: nat, c: nat): seq<Step> {
    Reading(m) + [Deliver(i, m.id, |Encode(Header(SHUTDOWN_ACK, false, ACK, SHUTDOWN_STARTED))|)] + [Receive(c)]
  }

  lemma ReadingRun(s: State, m: OldMessage)
    ensures var checking := Listening.Next(s.module_, Listening.Take(m));
            Exec(s, Reading(m)) ==
            s.(module_ := Listening.Next(Listening.Next(checking, Listening.Advance), Listening.Advance))
  {
    var run := [OfModule(Listening.Take(m))];
    assert [] + run == run;
    ExecSnoc(s, [], OfModule(Listening.Take(m)));
    ExecSnoc(s, run, OfModule(Listening.Advance));
    ExecSnoc(s, run + [OfModule(Listening.Advance)], OfModule(Listening.Advance));
  }

  lemma ListenerIsSound(steps: seq<Step>)
    ensures |Exec(INIT, steps).module_.fates| == |Exec(INIT, steps).module_.taken|
  {
    ModuleRuns(INIT, steps);
    Listening.InitHolds();
    Listening.RunKeepsInv(Listening.INIT, Own(steps));
  }

  lemma AckIsShort()
    ensures var ack := Header(SHUTDOWN_ACK, false, ACK, SHUTDOWN_STARTED);
            |Encode(ack)| <= Frames.MAX_LENGTH && Decode(ZERO_HEADER, Encode(ack)) == Decoded(ack, |Encode(ack)|)
  {
    assert |SHUTDOWN_ACK| == 12 && |SHUTDOWN_STARTED| < 100;
    DecodeOfExactEncode(ZERO_HEADER, Header(SHUTDOWN_ACK, false, ACK, SHUTDOWN_STARTED));
  }

  /**
   Wherever a call of Close waits while the module listens, unforced and not cancelled, reading what Close wrote makes
   the module enter shutdown and start its drain, and the message it writes then acknowledges that call.
   */
  lemma CloseIsAcknowledged(steps: seq<Step>, c: nat, m: OldMessage)
    requires var s := Exec(INIT, steps);
             && c < |s.host.closers| && s.host.closers[c].Waiting?
             && s.module_.pc.Ready? && !s.module_.flags.force && !s.module_.flags.cancelled
    requires m.data == Encode(SHUTDOWN_REQUEST)
    ensures var s := Exec(INIT, steps);
            var now := Exec(s, Acknowledging(m, |s.module_.sent|, c));
            && now.host.closers == s.host.closers[c := Acknowledged] && !now.host.view.shutdownAck
            && now.module_.flags.shutdown && now.module_.drains == s.module_.drains + [Listening.Sleeping]
            && now.module_.jobs == s.module_.jobs && now.module_.pc.Ready?
  {
    var s, ack := Exec(INIT, steps), Header(SHUTDOWN_ACK, false, ACK, SHUTDOWN_STARTED);
    var i, run := |s.module_.sent|, Reading(m);
    ListenerIsSound(steps);
    RequestIsGraceful(m);
    Listening.GracefulPass(s.module_, m);
    ReadingRun(s, m);
    AckIsShort();
    WholeAckEndsWait(Exec(s, run), i, m.id, ack, c);
    ExecSnoc(s, run, Deliver(i, m.id, |Encode(ack)|));
    ExecSnoc(s, run + [Deliver(i, m.id, |Encode(ack)|)], Receive(c));
  }

  // ---- Both hypotheses are needed ----

  lemma ExecSnoc(s: State, steps: seq<Step>, step: Step)
    ensures Exec(s, steps + [step]) == Next(Exec(s, steps), step)
  {
    assert (steps + [step])[..|steps|] == steps;
  }

  /** A call of Close up to its wait. */
  const CLOSING: seq<Step> := [Call] + [Swap(0)] + [Written(0)]

  lemma CloserWaits(s: State)
    requires s.host.closers == [] && !s.host.closed
    ensures Next(Next(Next(s, Call), Swap(0)), Written(0)) == s.(host := Loading(s.host.view, true, [Waiting]))
  {
    assert Next(s, Call) == s.(host := Loading(s.host.view, false, [Calling]));
    assert [Calling][0 := Writing] == [Writing];
    assert Next(s.(host := Loading(s.host.view, false, [Calling])), Swap(0))
           == s.(host := Loading(s.host.view, true, [Writing]));
    assert [Writing][0 := Waiting] == [Waiting];
  }

  lemma ClosingRun()
    ensures Exec(INIT, CLOSING) == INIT.(host := Loading(INIT.host.view, true, [Waiting]))
  {
    CloserWaits(INIT);
    var s := [Call];
    ExecSnoc(INIT, [], Call);
    assert [] + s == s;
    ExecSnoc(INIT, s, Swap(0));
    ExecSnoc(INIT, s + [Swap(0)], Written(0));
  }

  /** A message of the application under the name ends the wait although the module has never heard of a shutdown. */
  lemma ForeignAckMisleads(m: ApiMessage)
    requires BearsAckName(m)
    ensures var run := CLOSING + [Other(m)] + [Receive(0)];
            var s := Exec(INIT, run);
            && Unreserved(s.module_.taken) && |s.host.closers| == 1 && s.host.closers[0].Acknowledged?
            && !s.module_.flags.shutdown
  {
    ClosingRun();
    var s := Exec(INIT, CLOSING);
    SignalRaisedIff(s.host, m);
    ExecSnoc(INIT, CLOSING, Other(m));
    ExecSnoc(INIT, CLOSING + [Other(m)], Receive(0));
  }

  /** A request under the name, and the job that answers it. */
  function Namesake(req: OldMessage, outcome: Outcome): seq<Step> {
    CLOSING + [OfModule(Listening.Take(req))] + [OfModule(Listening.Advance)] + [OfModule(Listening.Advance)]
    + [OfModule(Listening.Advance)] + [OfModule(Listening.OfJob(0, Listening.Begin))]
    + [OfModule(Listening.OfJob(0, Listening.Handle(outcome)))] + [OfModule(Listening.OfJob(0, Listening.WriteBack))]
  }

  /** What the module has sent by then. */
  function Answered(req: OldMessage, outcome: Outcome): seq<Listening.Sent> {
    [Listening.ReadySignal] + [Listening.Reply(0, req.id, Listening.Responds(SHUTDOWN_ACK, outcome))]
  }

  lemma NamesakePass(req: OldMessage)
    requires Listening.Read(req).decodes && Listening.Read(req).name == SHUTDOWN_ACK
    ensures Listening.PassOf(Listening.INIT, req) ==
            Listening.INIT.(taken := [Listening.Read(req)], fates := [Listening.Accepted(0)],
                            jobs := [Listening.Job(0, Listening.Started)])
  {
    assert |SHUTDOWN_ACK| == 12 && |SHUTDOWN| == 8 && |FORCE_SHUTDOWN| == 14 && |REQUEST_READY| == 13;
    var in_ := Listening.Read(req);
    assert in_.sort.Ordinary?;
    var taking := Listening.INIT.(pc := Listening.Checking, taken := [in_], fates := [Listening.Open]);
    assert Listening.Next(Listening.INIT, Listening.Take(req)) == taking;
    assert Listening.Next(taking, Listening.Advance) == taking.(pc := Listening.Deciding);
    assert Listening.Next(taking.(pc := Listening.Deciding), Listening.Advance) == taking.(pc := Listening.Starting);
    assert [Listening.Open][0 := Listening.Accepted(0)] == [Listening.Accepted(0)];
  }

  lemma NamesakeJob(s: Listening.State, req: OldMessage, outcome: Outcome)
    requires s == Listening.INIT.(taken := [Listening.Read(req)], fates := [Listening.Accepted(0)],
                                  jobs := [Listening.Job(0, Listening.Started)])
    requires Listening.Read(req).decodes && Listening.Read(req).name == SHUTDOWN_ACK
    requires !outcome.ForceDown? && !outcome.Draining?
    ensures var now := Listening.Next(Listening.Next(Listening.Next(s, Listening.OfJob(0, Listening.Begin)),
                                                     Listening.OfJob(0, Listening.Handle(outcome))),
                                      Listening.OfJob(0, Listening.WriteBack));
            now.sent == Answered(req, outcome) && !now.flags.shutdown
  {
    var first := Listening.WithPhase(s, 0, Listening.Handling);
    assert Listening.Next(s, Listening.OfJob(0, Listening.Begin)) == first;
    var second := Listening.WithPhase(first, 0, Listening.Replying(outcome));
    assert Listening.Next(first, Listening.OfJob(0, Listening.Handle(outcome))) == second;
  }

  lemma NamesakeRun(req: OldMessage, outcome: Outcome)
    requires Listening.Read(req).decodes && Listening.Read(req).name == SHUTDOWN_ACK
    requires !outcome.ForceDown? && !outcome.Draining?
    ensures var s := Exec(INIT, Namesake(req, outcome));
            && s.host == Loading(INIT.host.view, true, [Waiting])
            && s.module_.sent == Answered(req, outcome) && !s.module_.flags.shutdown
  {
    ClosingRun();
    var s := CLOSING;
    ExecSnoc(INIT, s, OfModule(Listening.Take(req)));
    s := s + [OfModule(Listening.Take(req))];
    ExecSnoc(INIT, s, OfModule(Listening.Advance));
    s := s + [OfModule(Listening.Advance)];
    ExecSnoc(INIT, s, OfModule(Listening.Advance));
    s := s + [OfModule(Listening.Advance)];
    ExecSnoc(INIT, s, OfModule(Listening.Advance));
    s := s + [OfModule(Listening.Advance)];
    NamesakePass(req);
    NamesakeJob(Exec(INIT, s).module_, req, outcome);
    ExecSnoc(INIT, s, OfModule(Listening.OfJob(0, Listening.Begin)));
    s := s + [OfModule(Listening.OfJob(0, Listening.Begin))];
    ExecSnoc(INIT, s, OfModule(Listening.OfJob(0, Listening.Handle(outcome))));
    ExecSnoc(INIT, s + [OfModule(Listening.OfJob(0, Listening.Handle(outcome)))],
        OfModule(Listening.OfJob(0, Listening.WriteBack)));
  }

  /** A service that bears the name does the same: its answer passes for the acknowledgment. */
  lemma NamesakeMisleads(req: OldMessage, outcome: Outcome, size: nat)
    requires Listening.Read(req).decodes && Listening.Read(req).name == SHUTDOWN_ACK
    requires !outcome.ForceDown? && !outcome.Draining?
    requires size == |Encode(Respond(SHUTDOWN_ACK, outcome))| <= Frames.MAX_LENGTH
    ensures var run := Namesake(req, outcome) + [Deliver(1, req.id, size)] + [Receive(0)];
            var s := Exec(INIT, run);
            && NoForeignAck(run) && |s.host.closers| == 1 && s.host.closers[0].Acknowledged?
            && !s.module_.flags.shutdown
  {
    var run, h := Namesake(req, outcome), Respond(SHUTDOWN_ACK, outcome);
    NamesakeRun(req, outcome);
    RespondShape(SHUTDOWN_ACK, outcome);
    SmallIsShort(h);
    WholeAckEndsWait(Exec(INIT, run), 1, req.id, h, 0);
    assert [Waiting][0 := Acknowledged] == [Acknowledged];
    ExecSnoc(INIT, run, Deliver(1, req.id, size));
    ExecSnoc(INIT, run + [Deliver(1, req.id, size)], Receive(0));
    NamesakeIsNoForeigner(req, outcome, size);
  }

  /** Whatever header under the name arrives whole ends the wait, and the signal is taken. */
  lemma WholeAckEndsWait(s: State, i: nat, id: uint32, h: Header, c: nat)
    requires i < |s.module_.sent| && Listening.HeaderOf(s.module_.sent[i]) == h && h.name == SHUTDOWN_ACK
    requires |Encode(h)| <= Frames.MAX_LENGTH && Decode(ZERO_HEADER, Encode(h)) == Decoded(h, |Encode(h)|)
    requires c < |s.host.closers| && s.host.closers[c].Waiting?
    ensures var end := Next(Next(s, Deliver(i, id, |Encode(h)|)), Receive(c));
            && end.module_ == s.module_ && end.host.closers == s.host.closers[c := Acknowledged]
            && !end.host.view.shutdownAck
  {
    var data := Encode(h);
    assert data[..|data|] == data;
    SignalRaisedIff(s.host, ApiMessage(id, data));
    assert Next(s, Deliver(i, id, |data|)) == s.(host := Arrive(s.host, ApiMessage(id, data)));
  }

  lemma NamesakeIsNoForeigner(req: OldMessage, outcome: Outcome, size: nat)
    ensures NoForeignAck(Namesake(req, outcome) + [Deliver(1, req.id, size)] + [Receive(0)])
  {
    var run := Namesake(req, outcome) + [Deliver(1, req.id, size)] + [Receive(0)];
    assert |run| == 12;
    assert forall i :: 0 <= i < |run| ==> !run[i].Other?;
  }

  // ---- What a closed loader can rely on from then on ----

  /** The module's own steps of a run. */
  function Own(steps: seq<Step>): seq<Listening.Step> {
    if steps == [] then []
    else Own(steps[..|steps| - 1]) + if steps[|steps| - 1].OfModule? then [steps[|steps| - 1].step] else []
  }

  lemma {:induction false} ModuleRuns(s: State, steps: seq<Step>)
    ensures Exec(s, steps).module_ == Listening.Exec(s.module_, Own(steps))
  {
    if steps != [] {
      var before, step := steps[..|steps| - 1], steps[|steps| - 1];
      ModuleRuns(s, before);
      if step.OfModule? {
        Listening.ExecSnoc(s.module_, Own(before), step.step);
      } else {
        assert Own(before) + [] == Own(before);
      }
    }
  }

  /**
   After the acknowledgment, and until a force shutdown, every non-control message whose pass is over starts no
   job, and gets its one rejection unless the module's context was cancelled by then.
   */
  lemma NothingStartsAfterClose(steps: seq<Step>, later: seq<Step>, c: nat, k: nat)
    requires c < |Exec(INIT, steps).host.closers| && Exec(INIT, steps).host.closers[c].Acknowledged?
    requires Unreserved(Exec(INIT, steps).module_.taken) && NoForeignAck(steps)
    requires var now := Exec(Exec(INIT, steps), later).module_;
             && |Exec(INIT, steps).module_.taken| <= k < |now.taken| && now.taken[k].sort.Ordinary?
             && !Listening.FateAt(now, k).Open? && !now.flags.force
    ensures var now := Exec(Exec(INIT, steps), later).module_;
            var m := now.taken[k];
            && (forall j :: 0 <= j < |now.jobs| ==> now.jobs[j].origin != k)
            && Listening.FateAt(now, k).Refused?
            && Listening.RepliesTo(now.sent, k) ==
               if Listening.FateAt(now, k).cut then []
               else [Listening.Reply(k, m.id, Listening.Responds(m.name, Draining))]
  {
    AcknowledgedMeansShutdown(steps, c);
    RunKeepsInv(steps);
    var s := Exec(INIT, steps);
    ModuleRuns(s, later);
    Listening.RejectedAfterShutdown(s.module_, Own(later), k);
  }

  /** Of all the calls of Close, whenever they come, at most one gets past the swap. */
  predicate Won(closer: Closer) {
    !closer.Calling? && !closer.Refused?
  }

  ghost predicate OneWinner(host: Loading) {
    && (forall c :: 0 <= c < |host.closers| && Won(host.closers[c]) ==> host.closed)
    && (forall c, d :: 0 <= c < d < |host.closers| ==> !Won(host.closers[c]) || !Won(host.closers[d]))
  }

  /** Only a swap makes a winner, and it needs `closed` to be false. */
  lemma OneWinnerKept(host: Loading, c: nat, step: Step)
    requires OneWinner(host) && c < |host.closers|
    ensures OneWinner(CloserStep(host, c, step))
  {
    var now := CloserStep(host, c, step);
    assert now.closers == host.closers[c := now.closers[c]];
    assert Won(now.closers[c]) ==> Won(host.closers[c]) || !host.closed;
  }

  lemma {:induction false} AtMostOneCloses(steps: seq<Step>)
    ensures OneWinner(Exec(INIT, steps).host)
  {
    if steps != [] {
      var s, step := Exec(INIT, steps[..|steps| - 1]), steps[|steps| - 1];
      AtMostOneCloses(steps[..|steps| - 1]);
      if (step.Swap? || step.Written? || step.WriteFailed? || step.Receive?) && step.c < |s.host.closers| {
        OneWinnerKept(s.host, step.c, step);
      }
    }
  }

  // ---- The loader's side as the object it is ----

  class Closing {
    var closed: bool
    var shutdownAck: bool
    var writes: seq<seq<byte>>
    ghost var loading: Loading

    ghost predicate Valid()
      reads this
    {
      loading.closed == closed && loading.view.shutdownAck == shutdownAck
    }

    method CompareAndSwap() returns (swapped: bool)
      modifies this`closed
      ensures swapped == !old(closed) && closed
    {
      swapped := !closed;
      closed := true;
    }

    /** Close up to its wait: `loaded` says whether there is a multiplexer, `written` whether the write succeeded. */
    method Close(ghost c: nat, loaded: bool, written: bool) returns (err: bool, waits: bool)
      requires Valid() && c < |loading.closers| && loading.closers[c].Calling?
      modifies this
      ensures Valid() && closed && err == old(closed) && waits == (!old(closed) && loaded && written)
      ensures writes == old(writes) + if !old(closed) && loaded then [Encode(SHUTDOWN_REQUEST)] else []
      ensures loading == CloserStep(CloserStep(old(loading), c, Swap(c)), c,
                                    if loaded && written then Written(c) else WriteFailed(c))
      ensures loading.closers[c] == if err then Refused else if waits then Waiting else Abandoned
    {
      var swapped := CompareAndSwap();
      loading := CloserStep(loading, c, Swap(c));
      err, waits := !swapped, swapped && loaded && written;
      if swapped && loaded {
        var shutdownHeader := new HeaderRecord(SHUTDOWN_REQUEST);
        var shutdownData := shutdownHeader.MarshalBinary();
        writes := writes + [shutdownData];
      }
      loading := CloserStep(loading, c, if loaded && written then Written(c) else WriteFailed(c));
    }

    /** The end of the wait. */
    method ReceiveAck(ghost c: nat)
      requires Valid() && c < |loading.closers| && loading.closers[c].Waiting? && shutdownAck
      modifies this`shutdownAck, this`loading
      ensures Valid() && loading == CloserStep(old(loading), c, Receive(c)) && loading.closers[c].Acknowledged?
    {
      shutdownAck := false;
      loading := CloserStep(loading, c, Receive(c));
    }
  }
}
