/** The module as the object its methods update; `view` is the state of the step model it is in. */
module PluginModule {
  import opened Wire
  import opened Codec
  import opened Adapters
  import opened Plugin
  import opened Listening

  /** What an application handler returns. */
  datatype HandlerResult = Critical(text: seq<byte>) | App(payload: seq<byte>, isError: bool)

  type Handler = seq<byte> -> HandlerResult

  function Serve(handler: map<Name, Handler>, h: Header): Outcome {
    if h.name !in handler then NoHandler
    else
      match handler[h.name](h.payload)
      case Critical(text) => CriticalError(text)
      case App(payload, isError) => Answer(payload, isError)
  }

  /** A whole message on the wire. */
  datatype Message = Message(sequence: uint32, data: seq<byte>)

  class Multiplexer {
    var sequence: uint32
    var written: seq<Message>

    constructor ()
      ensures sequence == 0 && written == []
    {
      sequence, written := 0, [];
    }

    method WriteMessage(cancelled: bool, data: seq<byte>) returns (ok: bool)
      modifies this
      ensures ok == !cancelled && sequence == (old(sequence) + 1) % WORD32
      ensures written == old(written) + if cancelled then [] else [Message(sequence, data)]
    {
      sequence := (sequence + 1) % WORD32;
      ok := WriteMessageWithSequence(cancelled, sequence, data);
    }

    method WriteMessageWithSequence(cancelled: bool, id: uint32, data: seq<byte>) returns (ok: bool)
      modifies this`written
      ensures ok == !cancelled && written == old(written) + if cancelled then [] else [Message(id, data)]
    {
      if cancelled {
        assert written == written + [];
        return false;
      }
      written := written + [Message(id, data)];
      return true;
    }
  }

  predicate Carries(w: Message, r: Sent) {
    w.data == Encode(HeaderOf(r)) && (r.Reply? ==> w.sequence == r.id)
  }

  /** What is on the wire is what the step model says was sent. */
  predicate CarriesAll(written: seq<Message>, sent: seq<Sent>) {
    |written| == |sent| && forall i :: 0 <= i < |written| ==> Carries(written[i], sent[i])
  }

  lemma CarriesSnoc(written: seq<Message>, sent: seq<Sent>, w: Message, r: Sent)
    requires CarriesAll(written, sent) && Carries(w, r)
    ensures CarriesAll(written + [w], sent + [r])
  {
  }

  /** The number of jobs still active. */
  function Active(jobs: seq<Job>): nat {
    if jobs == [] then 0 else Active(jobs[..|jobs| - 1]) + if HasEnded(jobs[|jobs| - 1]) then 0 else 1
  }

  lemma {:induction false} ActiveUpdate(jobs: seq<Job>, j: nat, job: Job)
    requires j < |jobs|
    ensures Active(jobs[j := job]) + (if HasEnded(jobs[j]) then 0 else 1)
            == Active(jobs) + (if HasEnded(job) then 0 else 1)
  {
    var last := |jobs| - 1;
    if j == last {
      assert jobs[j := job][..last] == jobs[..last];
    } else {
      ActiveUpdate(jobs[..last], j, job);
      assert jobs[j := job][..last] == jobs[..last][j := job];
    }
  }

  lemma ActiveSnoc(jobs: seq<Job>, job: Job)
    ensures Active(jobs + [job]) == Active(jobs) + if HasEnded(job) then 0 else 1
  {
    assert (jobs + [job])[..|jobs|] == jobs;
  }

  /** The wait group's counter is zero exactly when every job has ended. */
  lemma {:induction false} NoneActiveIff(jobs: seq<Job>)
    ensures Active(jobs) == 0 <==> AllEnded(jobs)
  {
    if jobs != [] {
      var before := jobs[..|jobs| - 1];
      NoneActiveIff(before);
      assert AllEnded(jobs) ==> HasEnded(jobs[|jobs| - 1]);
      if AllEnded(jobs) {
        forall j | 0 <= j < |before| ensures HasEnded(before[j]) {
          assert HasEnded(jobs[j]);
        }
      } else if AllEnded(before) && HasEnded(jobs[|jobs| - 1]) {
        forall j | 0 <= j < |jobs| ensures HasEnded(jobs[j]) {
          assert j < |before| ==> HasEnded(before[j]);
        }
      }
    }
  }

  /** A job that nothing interferes with: its handler's outcome, or none if it is not asked. */
  function JobOf(s: State, j: nat, outcome: Outcome): State {
    Next(Next(Next(Next(s, OfJob(j, Begin)), OfJob(j, Handle(outcome))), OfJob(j, WriteBack)), OfJob(j, Exit))
  }

  /** The goroutine started as number `j` works on the message of the model's job `j`. */
  predicate JobIs(m: OldMessage, j: nat, s: State) {
    j < |s.jobs| && s.jobs[j].origin < |s.taken| && s.taken[s.jobs[j].origin] == Read(m)
  }

  predicate JobsMatch(jobs: seq<OldMessage>, s: State) {
    |jobs| == |s.jobs| && forall j {:trigger JobIs(jobs[j], j, s)} :: 0 <= j < |jobs| ==> JobIs(jobs[j], j, s)
  }

  lemma MatchKept(jobs: seq<OldMessage>, s: State, now: State)
    requires JobsMatch(jobs, s) && |now.jobs| == |s.jobs| && s.taken <= now.taken
    requires forall j :: 0 <= j < |s.jobs| ==> now.jobs[j].origin == s.jobs[j].origin
    ensures JobsMatch(jobs, now)
  {
    forall j | 0 <= j < |jobs| ensures JobIs(jobs[j], j, now) {
      assert JobIs(jobs[j], j, s);
    }
  }

  lemma JobMoves(s: State, j: nat, work: JobAction)
    requires j < |s.jobs| && s.jobs[j].origin < |s.taken|
    ensures var now := Next(s, OfJob(j, work));
            && now.flags == s.flags && now.taken == s.taken && now.drains == s.drains && |now.jobs| == |s.jobs|
            && (!work.WriteBack? || !s.jobs[j].phase.Replying? ==> now.sent == s.sent)
            && now.jobs == s.jobs[j := now.jobs[j]] && now.jobs[j].origin == s.jobs[j].origin
            && (!work.Exit? && !HasEnded(s.jobs[j]) ==> !HasEnded(now.jobs[j]))
  {
    assert s.jobs[j := s.jobs[j]] == s.jobs;
  }

  /** The module's fields in values. */
  datatype Fields = Fields(
    shutdown: bool, force: bool, parent: bool, cancelled: bool, activeJobs: nat, jobs: seq<OldMessage>, drains: nat)

  ghost predicate Agrees(s: State, f: Fields, written: seq<Message>) {
    && s.flags == Flags(f.shutdown, f.force, f.parent, f.cancelled, s.flags.byApp)
    && CarriesAll(written, s.sent)
    && f.activeJobs == Active(s.jobs)
    && JobsMatch(f.jobs, s) && |s.drains| == f.drains
  }

  ghost predicate InStep(s: State, run: seq<Step>, f: Fields, written: seq<Message>) {
    s == Exec(INIT, run) && Agrees(s, f, written)
  }

  /** The beginning of a pass in values: what the flags and the listener are after the first checks. */
  lemma PassBegins(run: seq<Step>, m: OldMessage)
    requires Exec(INIT, run).pc.Ready?
    ensures var s, now, in_ := Exec(INIT, run), Next(Next(Exec(INIT, run), Take(m)), Advance), Read(m);
            && now.jobs == s.jobs && now.drains == s.drains && now.sent == s.sent && s.taken <= now.taken
            && (now.pc.Exited? <==> s.flags.force)
            && now.flags == (if s.flags.force then s.flags.(cancelled := true)
                             else if in_.sort.Graceful? then s.flags.(shutdown := true)
                             else if in_.sort.Forced? then s.flags.(force := true) else s.flags)
            && (!s.flags.force ==> Busy(now) && now.taken[Now(now)] == in_ && now.pc == AfterCheck(in_.sort))
  {
    InitHolds();
    RunKeepsInv(INIT, run);
    var taking := Next(Exec(INIT, run), Take(m));
    assert Busy(taking) && taking.taken[Now(taking)] == Read(m);
  }

  function CheckedFields(f: Fields, in_: Incoming): Fields {
    if f.force then f.(cancelled := true)
    else if in_.sort.Graceful? then f.(shutdown := true)
    else if in_.sort.Forced? then f.(force := true) else f
  }

  /** The checks at the head of a pass, as the loop makes them. */
  lemma CheckedFieldsAre(f: Fields, m: OldMessage, decoded: bool, name: Name)
    requires decoded == Read(m).decodes && name == Read(m).name
    ensures SHUTDOWN != FORCE_SHUTDOWN
    ensures CheckedFields(f, Read(m)) ==
            if f.force then f.(cancelled := true)
            else if decoded && name == SHUTDOWN then f.(shutdown := true)
            else if decoded && name == FORCE_SHUTDOWN then f.(force := true) else f
  {
    SortIs(m);
    assert |SHUTDOWN| == 8 && |FORCE_SHUTDOWN| == 14;
  }

  lemma PassAgrees(run: seq<Step>, m: OldMessage, f: Fields, written: seq<Message>)
    requires Exec(INIT, run).pc.Ready? && Agrees(Exec(INIT, run), f, written)
    ensures Agrees(Next(Next(Exec(INIT, run), Take(m)), Advance), CheckedFields(f, Read(m)), written)
  {
    var s := Exec(INIT, run);
    var now := Next(Next(s, Take(m)), Advance);
    PassBegins(run, m);
    MatchKept(f.jobs, s, now);
  }

  lemma StartAgrees(s: State, m: OldMessage, f: Fields, written: seq<Message>)
    requires Busy(s) && s.pc.Starting? && s.taken[Now(s)] == Read(m) && Agrees(s, f, written)
    ensures Agrees(Next(s, Advance), f.(activeJobs := f.activeJobs + 1, jobs := f.jobs + [m]), written)
  {
    var now, jobs := Next(s, Advance), f.jobs + [m];
    ActiveSnoc(s.jobs, Job(Now(s), Started));
    forall j | 0 <= j < |jobs| ensures JobIs(jobs[j], j, now) {
      assert j < |f.jobs| ==> JobIs(f.jobs[j], j, s);
    }
  }

  lemma JobAgrees(s: State, j: nat, work: JobAction, f: Fields, written: seq<Message>)
    requires Agrees(s, f, written) && j < |s.jobs| && !HasEnded(s.jobs[j])
    requires work.WriteBack? ==> !s.jobs[j].phase.Replying?
    ensures s.jobs[j].origin < |s.taken| && 1 <= f.activeJobs
    ensures var now := Next(s, OfJob(j, work));
            |now.jobs| == |s.jobs|
            && Agrees(now, f.(activeJobs := f.activeJobs - if HasEnded(now.jobs[j]) then 1 else 0), written)
  {
    assert JobIs(f.jobs[j], j, s);
    var now := Next(s, OfJob(j, work));
    JobMoves(s, j, work);
    ActiveUpdate(s.jobs, j, s.jobs[j].(phase := Ended(Dropped)));
    ActiveUpdate(s.jobs, j, now.jobs[j]);
    MatchKept(f.jobs, s, now);
  }

  /** A job up to its write. */
  function Prepared(s: State, j: nat, outcome: Outcome): State {
    Next(Next(s, OfJob(j, Begin)), OfJob(j, Handle(outcome)))
  }

  lemma PreparedPhase(s: State, j: nat, outcome: Outcome)
    requires j < |s.jobs| && s.jobs[j].origin < |s.taken| && s.jobs[j].phase.Started?
    requires !outcome.Draining? && (outcome.ForceDown? ==> s.flags.force)
    ensures var now, m := Prepared(s, j, outcome), s.taken[s.jobs[j].origin];
            && |now.jobs| == |s.jobs| && !HasEnded(Next(s, OfJob(j, Begin)).jobs[j])
            && now.jobs[j].phase == if !m.decodes then Ending(Dropped)
               else Replying(if s.flags.force then ForceDown else outcome)
  {
    JobMoves(s, j, Begin);
    JobMoves(Next(s, OfJob(j, Begin)), j, Handle(outcome));
  }

  function AfterCheck(sort: Class): Listener {
    match sort
    case Graceful => AckingShutdown
    case Forced => AckingForce
    case Readiness => SendingReady
    case Ordinary => Deciding
  }

  /** A reply within a pass that is not the start of a job: what remains is to write it. */
  lemma RejectAgrees(s: State, f: Fields, written: seq<Message>, written': seq<Message>)
    requires Busy(s) && s.pc.Rejecting? && Agrees(s, f, written)
    requires var m := s.taken[Now(s)];
             CarriesAll(written', if s.flags.cancelled then s.sent
                                   else s.sent + [Reply(Now(s), m.id, Responds(m.name, Draining))])
    ensures Agrees(Next(s, Advance), f, written') && Next(s, Advance).pc.Ready?
  {
    MatchKept(f.jobs, s, Next(s, Advance));
  }

  lemma AnswerAgrees(s: State, j: nat, f: Fields, written: seq<Message>, written': seq<Message>)
    requires Agrees(s, f, written) && j < |s.jobs| && s.jobs[j].origin < |s.taken| && s.jobs[j].phase.Replying?
    requires var m := s.taken[s.jobs[j].origin];
             CarriesAll(written', if s.flags.cancelled then s.sent
                                  else s.sent + [Reply(s.jobs[j].origin, m.id,
                                                       Responds(m.name, s.jobs[j].phase.outcome))])
    ensures var now := Next(s, OfJob(j, WriteBack));
            Agrees(now, f, written') && |now.jobs| == |s.jobs| && now.jobs[j].phase.Ending?
  {
    var now := Next(s, OfJob(j, WriteBack));
    JobMoves(s, j, WriteBack);
    ActiveUpdate(s.jobs, j, now.jobs[j]);
    MatchKept(f.jobs, s, now);
  }

  /** The names the listener looks for differ. */
  lemma SortIs(m: OldMessage)
    ensures var in_ := Read(m);
            && (in_.sort.Graceful? <==> in_.decodes && in_.name == SHUTDOWN)
            && (in_.sort.Forced? <==> in_.decodes && in_.name == FORCE_SHUTDOWN)
            && (in_.sort.Readiness? <==> in_.decodes && in_.name == REQUEST_READY)
  {
    assert |SHUTDOWN| == 8 && |FORCE_SHUTDOWN| == 14 && |REQUEST_READY| == 13;
  }

  lemma DecideStep(s: State, f: Fields, written: seq<Message>)
    requires Busy(s) && s.pc.Deciding? && Agrees(s, f, written)
    ensures Next(s, Advance) == s.(pc := if s.flags.shutdown then Rejecting else Starting)
    ensures Agrees(Next(s, Advance), f, written)
  {
    MatchKept(f.jobs, s, Next(s, Advance));
  }

  /** What a pass begins with: a module in graceful shutdown, or one that is forced or cancelled and writes nothing. */
  datatype Before = Before(draining: bool, silent: bool)

  /** What a pass adds to the wire. */
  predicate Writes(was: Before, m: OldMessage, before: seq<Message>, sequence: uint32, written: seq<Message>) {
    var d := Decode(ZERO_HEADER, m.data);
    var name := if d.Decoded? then d.header.name else d.partial.name;
    if was.silent then written == before
    else if d.Decoded? && name == SHUTDOWN then
      written == before + [Message(m.id, Encode(Header(SHUTDOWN_ACK, false, ACK, SHUTDOWN_STARTED)))]
    else if d.Decoded? && name == FORCE_SHUTDOWN then
      written == before + [Message(m.id, Encode(Header(FORCE_SHUTDOWN_ACK, false, ACK, FORCE_STARTED)))]
    else if d.Decoded? && name == REQUEST_READY then
      written == before + [Message(sequence, Encode(Header(READY, false, ACK, READY_TEXT)))]
                        + [Message(m.id, Encode(Header(REQUEST_READY_ACK, false, ACK, READY_SENT)))]
    else if was.draining then
      written == before + [Message(m.id, Encode(Header(name, true, ERROR, UNAVAILABLE_DRAINING)))]
    else written == before
  }

  lemma ExitedStays(s: State)
    requires s.pc.Exited?
    ensures Next(s, Advance) == s
  {
  }

  class Module {
    const multiplexer: Multiplexer
    const handler: map<Name, Handler>
    var shutdown: bool
    var forceShutdown: bool
    var parentDone: bool
    var cancelled: bool
    var activeJobs: nat
    var jobs: seq<OldMessage>
    var drains: nat
    ghost var run: seq<Step>
    ghost var view: State

    /** The fields, and the wire, are what the steps done so far make of them. */
    ghost predicate Valid()
      reads this, multiplexer
    {
      InStep(view, run, Values(), multiplexer.written)
    }

    ghost function Values(): Fields
      reads this
    {
      Fields(shutdown, forceShutdown, parentDone, cancelled, activeJobs, jobs, drains)
    }

    /** The module when it begins to listen: the ready signal is on its way. */
    constructor (multiplexer: Multiplexer, handler: map<Name, Handler>)
      requires multiplexer.written == []
      modifies multiplexer
      ensures Valid() && view == Listening.INIT && this.handler == handler && this.multiplexer == multiplexer
      ensures !shutdown && !forceShutdown && !cancelled && activeJobs == drains == 0 && jobs == []
      ensures multiplexer.sequence == (old(multiplexer.sequence) + 1) % WORD32
      ensures multiplexer.written ==
              [Message(multiplexer.sequence, Encode(Header(READY, false, ACK, READY_TEXT)))]
    {
      this.multiplexer, this.handler := multiplexer, handler;
      shutdown, forceShutdown, parentDone, cancelled := false, false, false, false;
      activeJobs, jobs, drains := 0, [], 0;
      run, view := [], Listening.INIT;
      new;
      var readyHeader := new HeaderRecord(Ack(READY, READY_TEXT));
      var readyData := readyHeader.MarshalBinary();
      var sent := multiplexer.WriteMessage(false, readyData);
    }

    ghost method Do(step: Step)
      requires view == Exec(INIT, run)
      modifies this`run, this`view
      ensures view == Exec(INIT, run) && view == Next(old(view), step) && run == old(run) + [step]
    {
      ExecSnoc(INIT, run, step);
      view := Next(view, step);
      run := run + [step];
    }

    /** Writes a reply; the wire follows what the model sends. */
    method WriteReply(id: uint32, h: Header, ghost r: Sent)
      requires CarriesAll(multiplexer.written, view.sent) && r.Reply? && r.id == id && HeaderOf(r) == h
      modifies multiplexer`written
      ensures CarriesAll(multiplexer.written, if cancelled then view.sent else view.sent + [r])
      ensures multiplexer.written == old(multiplexer.written) + if cancelled then [] else [Message(id, Encode(h))]
    {
      var record := new HeaderRecord(h);
      var data := record.MarshalBinary();
      var ok := multiplexer.WriteMessageWithSequence(cancelled, id, data);
      if !cancelled {
        CarriesSnoc(old(multiplexer.written), view.sent, Message(id, data), r);
      } else {
        assert multiplexer.written == old(multiplexer.written);
      }
    }

    method AckShutdown(m: OldMessage)
      requires Valid() && Busy(view) && view.pc.AckingShutdown? && view.taken[Now(view)] == Read(m)
      modifies this`drains, this`run, this`view, multiplexer`written
      ensures Valid() && view == Next(old(view), Advance) && view.pc.Ready? && drains == old(drains) + 1
      ensures multiplexer.written == old(multiplexer.written) +
              if cancelled then []
              else [Message(m.id, Encode(Header(SHUTDOWN_ACK, false, ACK, SHUTDOWN_STARTED)))]
    {
      WriteReply(m.id, Ack(SHUTDOWN_ACK, SHUTDOWN_STARTED),
                 Reply(Now(view), m.id, Acknowledges(Graceful)));
      drains := drains + 1;
      MatchKept(jobs, view, Next(view, Advance));
      Do(Advance);
    }

    method AckForce(m: OldMessage)
      requires Valid() && Busy(view) && view.pc.AckingForce? && view.taken[Now(view)] == Read(m)
      modifies this`cancelled, this`run, this`view, multiplexer`written
      ensures Valid() && view == Next(old(view), Advance) && view.pc.Exited? && cancelled
      ensures multiplexer.written == old(multiplexer.written) +
              if old(cancelled) then []
              else [Message(m.id, Encode(Header(FORCE_SHUTDOWN_ACK, false, ACK, FORCE_STARTED)))]
    {
      WriteReply(m.id, Ack(FORCE_SHUTDOWN_ACK, FORCE_STARTED),
          Reply(Now(view), m.id, Acknowledges(Forced)));
      cancelled := true;
      MatchKept(jobs, view, Next(view, Advance));
      Do(Advance);
    }

    /** The ready signal goes out under the adapter's own sequence number. */
    method SendReady() returns (ok: bool)
      requires Valid() && Busy(view) && view.pc.SendingReady?
      modifies this`run, this`view, multiplexer
      ensures Valid() && view == Next(old(view), Advance) && ok == !cancelled && view.taken == old(view.taken)
      ensures if ok then Busy(view) && view.pc.AckingReady? else view.pc.Ready?
      ensures multiplexer.sequence == (old(multiplexer.sequence) + 1) % WORD32
      ensures multiplexer.written == old(multiplexer.written) +
              if cancelled then []
              else [Message(multiplexer.sequence, Encode(Header(READY, false, ACK, READY_TEXT)))]
    {
      var readyHeader := new HeaderRecord(Ack(READY, READY_TEXT));
      var readyData := readyHeader.MarshalBinary();
      ok := multiplexer.WriteMessage(cancelled, readyData);
      if ok {
        CarriesSnoc(old(multiplexer.written), view.sent, Message(multiplexer.sequence, readyData), ReadySignal);
      } else {
        assert multiplexer.written == old(multiplexer.written);
      }
      MatchKept(jobs, view, Next(view, Advance));
      Do(Advance);
    }

    method AckReady(m: OldMessage)
      requires Valid() && Busy(view) && view.pc.AckingReady? && view.taken[Now(view)] == Read(m)
      modifies this`run, this`view, multiplexer`written
      ensures Valid() && view == Next(old(view), Advance) && view.pc.Ready?
      ensures multiplexer.written == old(multiplexer.written) +
              if cancelled then []
              else [Message(m.id, Encode(Header(REQUEST_READY_ACK, false, ACK, READY_SENT)))]
    {
      WriteReply(m.id, Ack(REQUEST_READY_ACK, READY_SENT),
                 Reply(Now(view), m.id, Acknowledges(Readiness)));
      MatchKept(jobs, view, Next(view, Advance));
      Do(Advance);
    }

    method Reject(m: OldMessage, name: Name)
      requires Valid() && Busy(view) && view.pc.Rejecting? && view.taken[Now(view)] == Read(m) && name == Read(m).name
      modifies this`run, this`view, multiplexer`written
      ensures Valid() && view == Next(old(view), Advance) && view.pc.Ready?
      ensures multiplexer.written == old(multiplexer.written) +
              if cancelled then []
              else [Message(m.id, Encode(Header(name, true, ERROR, UNAVAILABLE_DRAINING)))]
    {
      ghost var before := multiplexer.written;
      WriteReply(m.id, Header(name, true, ERROR, UNAVAILABLE_DRAINING),
                 Reply(Now(view), m.id, Responds(name, Draining)));
      RejectAgrees(view, Values(), before, multiplexer.written);
      Do(Advance);
    }

    method StartJob(m: OldMessage)
      requires Valid() && Busy(view) && view.pc.Starting? && view.taken[Now(view)] == Read(m)
      modifies this`activeJobs, this`jobs, this`run, this`view
      ensures Valid() && view == Next(old(view), Advance) && view.pc.Ready? && jobs == old(jobs) + [m]
    {
      StartAgrees(view, m, Values(), multiplexer.written);
      activeJobs := activeJobs + 1;
      jobs := jobs + [m];
      Do(Advance);
    }

    method ReadHeader(data: seq<byte>, ghost m: OldMessage) returns (decoded: bool, name: Name)
      requires data == m.data
      ensures decoded == Read(m).decodes && name == Read(m).name
      ensures var d := Decode(ZERO_HEADER, data);
              decoded == d.Decoded? && name == if d.Decoded? then d.header.name else d.partial.name
    {
      var header := new HeaderRecord(ZERO_HEADER);
      decoded := header.UnmarshalBinary(data);
      name := header.name;
    }

    /** The listener takes a message and, unless a force shutdown stops it, finds out what it is. */
    method TakeMessage(m: OldMessage) returns (decoded: bool, name: Name, left: bool)
      requires Valid() && view.pc.Ready?
      modifies this`run, this`view, this`cancelled, this`shutdown, this`forceShutdown
      ensures Valid() && view == Next(Next(old(view), Take(m)), Advance)
      ensures decoded == Read(m).decodes && name == Read(m).name && left == view.pc.Exited?
      ensures var d := Decode(ZERO_HEADER, m.data);
              decoded == d.Decoded? && name == if d.Decoded? then d.header.name else d.partial.name
      ensures !left ==> Busy(view) && view.taken[Now(view)] == Read(m) && view.pc == AfterCheck(Read(m).sort)
      ensures left == old(forceShutdown) && cancelled == (old(cancelled) || left)
      ensures shutdown == (old(shutdown) || (!left && decoded && name == SHUTDOWN))
      ensures forceShutdown == (old(forceShutdown) || (decoded && name == FORCE_SHUTDOWN))
    {
      decoded, name := ReadHeader(m.data, m);
      left := forceShutdown;
      BeginPass(m);
      Obey(m, decoded, name);
    }

    /** The flags a control message raises; a forced listener leaves instead, which cancels its context. */
    method Obey(m: OldMessage, decoded: bool, name: Name)
      requires view == Exec(INIT, run) && Agrees(view, CheckedFields(Values(), Read(m)), multiplexer.written)
      requires decoded == Read(m).decodes && name == Read(m).name
      modifies this`cancelled, this`shutdown, this`forceShutdown
      ensures Valid() && cancelled == (old(cancelled) || old(forceShutdown))
      ensures shutdown == (old(shutdown) || (!old(forceShutdown) && decoded && name == SHUTDOWN))
      ensures forceShutdown == (old(forceShutdown) || (decoded && name == FORCE_SHUTDOWN))
    {
      CheckedFieldsAre(Values(), m, decoded, name);
      if forceShutdown {
        cancelled := true;
      } else if decoded && name == SHUTDOWN {
        shutdown := true;
      } else if decoded && name == FORCE_SHUTDOWN {
        forceShutdown := true;
      }
      assert Values() == CheckedFields(old(Values()), Read(m));
    }

    /** The steps of the model at the head of a pass. */
    ghost method BeginPass(m: OldMessage)
      requires Valid() && view.pc.Ready?
      modifies this`run, this`view
      ensures view == Exec(INIT, run) && view == Next(Next(old(view), Take(m)), Advance)
      ensures Agrees(view, CheckedFields(Values(), Read(m)), multiplexer.written)
      ensures forceShutdown == view.pc.Exited?
      ensures !forceShutdown ==> Busy(view) && view.taken[Now(view)] == Read(m) && view.pc == AfterCheck(Read(m).sort)
    {
      PassBegins(run, m);
      PassAgrees(run, m, Values(), multiplexer.written);
      Do(Take(m));
      Do(Advance);
    }

    ghost method Decide()
      requires Valid() && Busy(view) && view.pc.Deciding?
      modifies this`run, this`view
      ensures Valid() && view == Next(old(view), Advance)
      ensures view == old(view).(pc := if shutdown then Rejecting else Starting)
    {
      DecideStep(view, Values(), multiplexer.written);
      Do(Advance);
    }

    /** The end of a pass over a message that is no control message. */
    method RejectOrStart(m: OldMessage, name: Name)
      requires Valid() && Busy(view) && view.pc.Deciding? && view.taken[Now(view)] == Read(m) && name == Read(m).name
      modifies this`activeJobs, this`jobs, this`run, this`view, multiplexer`written
      ensures Valid() && view == Next(Next(old(view), Advance), Advance) && view.pc.Ready?
      ensures jobs == old(jobs) + if shutdown then [] else [m]
      ensures multiplexer.written ==
              if cancelled || !shutdown then old(multiplexer.written)
              else old(multiplexer.written) + [Message(m.id, Encode(Header(name, true, ERROR, UNAVAILABLE_DRAINING)))]
    {
      Decide();
      if shutdown {
        Reject(m, name);
      } else {
        StartJob(m);
      }
    }

    method AnswerReady(m: OldMessage)
      requires Valid() && Busy(view) && view.pc.SendingReady? && view.taken[Now(view)] == Read(m)
      modifies this`run, this`view, multiplexer
      ensures Valid() && view == Next(Next(old(view), Advance), Advance) && view.pc.Ready?
      ensures multiplexer.sequence == (old(multiplexer.sequence) + 1) % WORD32
      ensures multiplexer.written ==
              if cancelled then old(multiplexer.written)
              else old(multiplexer.written)
                   + [Message(multiplexer.sequence, Encode(Header(READY, false, ACK, READY_TEXT)))]
                   + [Message(m.id, Encode(Header(REQUEST_READY_ACK, false, ACK, READY_SENT)))]
    {
      var ok := SendReady();
      if ok {
        AckReady(m);
      }
    }

    /** What the listener does with a message once it knows what it is; it returns whether the listener is done. */
    method Dispatch(m: OldMessage, decoded: bool, name: Name) returns (done: bool)
      requires Valid() && Busy(view) && view.taken[Now(view)] == Read(m) && view.pc == AfterCheck(Read(m).sort)
      requires decoded == Read(m).decodes && name == Read(m).name
      modifies this`cancelled, this`activeJobs, this`jobs, this`drains, this`run, this`view, multiplexer
      ensures Valid() && view == Next(Next(old(view), Advance), Advance)
      ensures done == view.pc.Exited? && (done || view.pc.Ready?) && done == (decoded && name == FORCE_SHUTDOWN)
      ensures cancelled == (old(cancelled) || done)
      ensures drains == old(drains) + (if decoded && name == SHUTDOWN then 1 else 0)
      ensures jobs == old(jobs) + if shutdown || (decoded && Control(name)) then [] else [m]
      ensures Writes(Before(shutdown, old(cancelled)), m, old(multiplexer.written), multiplexer.sequence,
                     multiplexer.written)
    {
      SortIs(m);
      if decoded && name == SHUTDOWN {
        AckShutdown(m);
      } else if decoded && name == FORCE_SHUTDOWN {
        AckForce(m);
        return true;
      } else if decoded && name == REQUEST_READY {
        AnswerReady(m);
      } else {
        RejectOrStart(m, name);
      }
      return false;
    }

    /** One pass of the loop; it returns whether the listener is done. */
    method Pass(m: OldMessage) returns (done: bool)
      requires Valid() && view.pc.Ready?
      modifies this, multiplexer
      ensures Valid() && view == PassOf(old(view), m)
      ensures done == view.pc.Exited? && (done || view.pc.Ready?)
      ensures var d := Decode(ZERO_HEADER, m.data);
              var name := if d.Decoded? then d.header.name else d.partial.name;
              var obeyed := d.Decoded? && !old(forceShutdown);
              && (shutdown <==> old(shutdown) || (obeyed && name == SHUTDOWN))
              && (forceShutdown <==> old(forceShutdown) || (obeyed && name == FORCE_SHUTDOWN))
              && (cancelled <==> old(cancelled) || forceShutdown)
              && drains == old(drains) + (if obeyed && name == SHUTDOWN then 1 else 0)
              && jobs == old(jobs) + if shutdown || forceShutdown || (d.Decoded? && Control(name)) then [] else [m]
      ensures Writes(Before(old(shutdown), old(forceShutdown || cancelled)), m, old(multiplexer.written),
                     multiplexer.sequence, multiplexer.written)
    {
      var decoded, name, left := TakeMessage(m);
      if left {
        ExitedStays(view);
        return true;
      }
      done := Dispatch(m, decoded, name);
    }

    /** A move of a job that writes nothing and does not end it. */
    ghost method MoveJob(j: nat, work: JobAction)
      requires Valid() && j < |view.jobs| && !HasEnded(view.jobs[j]) && !work.Exit?
      requires work.WriteBack? ==> !view.jobs[j].phase.Replying?
      modifies this`run, this`view
      ensures Valid() && view == Next(old(view), OfJob(j, work)) && |view.jobs| == |old(view.jobs)|
    {
      JobAgrees(view, j, work, Values(), multiplexer.written);
      JobMoves(view, j, work);
      Do(OfJob(j, work));
    }

    /** The deferred end of a job. */
    method JobDone(ghost j: nat)
      requires Valid() && j < |view.jobs| && view.jobs[j].phase.Ending?
      modifies this`activeJobs, this`run, this`view
      ensures Valid() && view == Next(old(view), OfJob(j, Exit)) && activeJobs == old(activeJobs) - 1
    {
      JobAgrees(view, j, Exit, Values(), multiplexer.written);
      Do(OfJob(j, Exit));
      activeJobs := activeJobs - 1;
    }

    /** Writes a job's answer under the id of the message it works on. */
    method SendAnswer(j: nat, m: OldMessage, h: Header)
      requires Valid() && j < |jobs| && jobs[j] == m && view.jobs[j].phase.Replying?
      requires h == Respond(Read(m).name, view.jobs[j].phase.outcome)
      modifies this`run, this`view, multiplexer`written
      ensures Valid() && view == Next(old(view), OfJob(j, WriteBack)) && |view.jobs| == |jobs|
              && view.jobs[j].phase.Ending?
      ensures multiplexer.written == old(multiplexer.written) + if cancelled then [] else [Message(m.id, Encode(h))]
    {
      assert JobIs(jobs[j], j, view);
      ghost var before := multiplexer.written;
      WriteReply(m.id, h, Reply(view.jobs[j].origin, m.id, Responds(Read(m).name, view.jobs[j].phase.outcome)));
      AnswerAgrees(view, j, Values(), before, multiplexer.written);
      Do(OfJob(j, WriteBack));
    }

    /** What the job makes of the message: nothing, the force answer, or the outcome of the handler lookup. */
    method FindAnswer(m: OldMessage) returns (ok: bool, answer: Header, ghost outcome: Outcome)
      ensures ok == Read(m).decodes
      ensures ok ==> answer == Respond(Read(m).name, outcome) && (outcome.ForceDown? <==> forceShutdown)
      ensures !outcome.Draining? && (outcome.ForceDown? ==> forceShutdown)
      ensures ok && !forceShutdown ==> outcome == Serve(handler, Decode(ZERO_HEADER, m.data).header)
      ensures ok ==>
                var h := Decode(ZERO_HEADER, m.data).header;
                if forceShutdown then
                  answer == Header(h.name, true, ERROR, UNAVAILABLE_FORCED)
                else if h.name !in handler then
                  answer == Header(h.name, true, ERROR, NO_HANDLER_FOR + h.name)
                else
                  match handler[h.name](h.payload)
                  case Critical(text) =>
                    answer == Header(h.name, true, ERROR, CRITICAL_ERROR_FOR
                                                          + h.name + COLON + text)
                  case App(payload, isError) =>
                    answer == Header(h.name, isError, if isError then ERROR else RESPONSE, payload)
    {
      var requestHeader := new HeaderRecord(ZERO_HEADER);
      ok := requestHeader.UnmarshalBinary(m.data);
      if !ok {
        answer, outcome := ZERO_HEADER, NoHandler;
        return;
      }
      var name := requestHeader.name;
      var responseHeader := new HeaderRecord(ZERO_HEADER);
      responseHeader.name := name;
      if forceShutdown {
        outcome := ForceDown;
        responseHeader.isError := true;
        responseHeader.messageType := ERROR;
        responseHeader.payload := UNAVAILABLE_FORCED;
      } else if name !in handler {
        outcome := NoHandler;
        responseHeader.isError := true;
        responseHeader.messageType := ERROR;
        responseHeader.payload := NO_HANDLER_FOR + name;
      } else {
        var result := handler[name](requestHeader.payload);
        if result.Critical? {
          outcome := CriticalError(result.text);
          responseHeader.isError := true;
          responseHeader.messageType := ERROR;
          responseHeader.payload := CRITICAL_ERROR_FOR + name + COLON
              + result.text;
        } else {
          outcome := Answer(result.payload, result.isError);
          responseHeader.isError := result.isError;
          if result.isError {
            responseHeader.messageType := ERROR;
          } else {
            responseHeader.messageType := RESPONSE;
          }
          responseHeader.payload := result.payload;
        }
      }
      answer := responseHeader.Value();
    }

    ghost method Prepare(j: nat, m: OldMessage, outcome: Outcome)
      requires Valid() && j < |jobs| && jobs[j] == m && view.jobs[j].phase.Started?
      requires !outcome.Draining? && (outcome.ForceDown? <== forceShutdown && Read(m).decodes)
               && (outcome.ForceDown? ==> forceShutdown)
      modifies this`run, this`view
      ensures Valid() && view == Prepared(old(view), j, outcome) && |view.jobs| == |jobs|
      ensures view.jobs[j].phase == if !Read(m).decodes then Ending(Dropped) else Replying(outcome)
    {
      assert JobIs(jobs[j], j, view);
      PreparedPhase(view, j, outcome);
      MoveJob(j, Begin);
      MoveJob(j, Handle(outcome));
    }

    /** The answer, if there is one, and the deferred end. */
    method FinishJob(j: nat, m: OldMessage, ok: bool, answer: Header)
      requires Valid() && j < |jobs| == |view.jobs| && jobs[j] == m
      requires if ok then view.jobs[j].phase.Replying? && answer == Respond(Read(m).name, view.jobs[j].phase.outcome)
               else view.jobs[j].phase.Ending?
      modifies this`activeJobs, this`run, this`view, multiplexer`written
      ensures Valid() && view == Next(Next(old(view), OfJob(j, WriteBack)), OfJob(j, Exit))
              && activeJobs == old(activeJobs) - 1
      ensures multiplexer.written ==
              old(multiplexer.written) + if !ok || cancelled then [] else [Message(m.id, Encode(answer))]
    {
      if ok {
        SendAnswer(j, m, answer);
      } else {
        MoveJob(j, WriteBack);
      }
      JobDone(j);
    }

    /** The job of message `m`, from its start to the release of the wait group. */
    method ProcessMessage(j: nat, m: OldMessage) returns (ghost outcome: Outcome)
      requires Valid() && j < |jobs| && jobs[j] == m && view.jobs[j].phase.Started?
      modifies this`activeJobs, this`run, this`view, multiplexer`written
      ensures Valid() && view == JobOf(old(view), j, outcome) && activeJobs == old(activeJobs) - 1
      ensures Read(m).decodes ==>
                outcome == if forceShutdown then ForceDown else Serve(handler, Decode(ZERO_HEADER, m.data).header)
      ensures !Decode(ZERO_HEADER, m.data).Decoded? || cancelled ==> multiplexer.written == old(multiplexer.written)
      ensures Decode(ZERO_HEADER, m.data).Decoded? && !cancelled ==>
                var h := Decode(ZERO_HEADER, m.data).header;
                var answer :=
                  if forceShutdown then Header(h.name, true, ERROR, UNAVAILABLE_FORCED)
                  else if h.name !in handler then
                    Header(h.name, true, ERROR, NO_HANDLER_FOR + h.name)
                  else
                    match handler[h.name](h.payload)
                    case Critical(text) =>
                      Header(h.name, true, ERROR,
                             CRITICAL_ERROR_FOR + h.name + COLON + text)
                    case App(payload, isError) =>
                      Header(h.name, isError, if isError then ERROR else RESPONSE, payload);
                multiplexer.written == old(multiplexer.written) + [Message(m.id, Encode(answer))]
    {
      var ok, answer;
      ok, answer, outcome := FindAnswer(m);
      Prepare(j, m, outcome);
      FinishJob(j, m, ok, answer);
    }

    /** The end of the sleep before that goroutine begins to wait. */
    method WakeDrain(d: nat)
      requires Valid() && d < drains
      modifies this`run, this`view
      ensures Valid() && view == Next(old(view), OfDrain(d, Wake)) && drains == old(drains)
      ensures old(view.drains[d].Sleeping?) ==> d < |view.drains| && view.drains[d].Awaiting?
    {
      MatchKept(jobs, view, Next(view, OfDrain(d, Wake)));
      Do(OfDrain(d, Wake));
    }

    /** The caller's context ends. */
    method EndParent()
      requires Valid()
      modifies this`parentDone, this`cancelled, this`run, this`view
      ensures Valid() && view == Next(old(view), ParentCancel) && parentDone && cancelled
    {
      MatchKept(jobs, view, Next(view, ParentCancel));
      parentDone, cancelled := true, true;
      Do(ParentCancel);
    }

    /** The goroutine that waits for the wait group, or for a force shutdown, and cancels the listener's context. */
    method FinishDrain(d: nat)
      requires Valid() && d < drains && view.drains[d].Awaiting? && (activeJobs == 0 || forceShutdown)
      modifies this`cancelled, this`run, this`view
      ensures Valid() && view == Next(Next(old(view), OfDrain(d, SeeQuiet)), OfDrain(d, Cancel)) && view.flags.cancelled
    {
      NoneActiveIff(view.jobs);
      MatchKept(jobs, view, Next(Next(view, OfDrain(d, SeeQuiet)), OfDrain(d, Cancel)));
      Do(OfDrain(d, SeeQuiet));
      Do(OfDrain(d, Cancel));
      cancelled := true;
    }

    /** The application's own shutdown calls. */
    method Shutdown()
      requires Valid()
      modifies this`shutdown, this`run, this`view
      ensures Valid() && view == Next(old(view), AppShutdown) && shutdown
    {
      MatchKept(jobs, view, Next(view, AppShutdown));
      shutdown := true;
      Do(AppShutdown);
    }

    method ForceShutdown()
      requires Valid()
      modifies this`forceShutdown, this`run, this`view
      ensures Valid() && view == Next(old(view), AppForce) && forceShutdown
    {
      MatchKept(jobs, view, Next(view, AppForce));
      forceShutdown := true;
      Do(AppForce);
    }

    /** What the fields say at the end of a graceful shutdown: the wait group is at zero. */
    lemma CancelledMeansIdle()
      requires Valid() && cancelled && !forceShutdown && !parentDone
      ensures activeJobs == 0
    {
      InitHolds();
      RunKeepsInv(INIT, run);
      var d: nat :| d < |view.drains| && SawQuiet(view.drains[d]);
      NoneActiveIff(view.jobs);
    }
  }
}
