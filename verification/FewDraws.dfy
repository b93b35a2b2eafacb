/**
 Correlation without the hypotheses on the window and on the fallback: while fewer than 2^32 ids have been drawn in
 all, every id is free when it is checked, so neither can be violated.
 */
module FewDraws {
  import opened Wire
  import opened Codec
  import opened Plugin
  import opened Correlation
  import Ids

  /** Every draw so far was free at once. */
  predicate FirstTry(call: Call) {
    && (HasTicket(call) ==> 0 < call.ticket)
    && (call.phase.Drawing? || call.phase.Checking? ==> call.phase.attempt == 0)
  }

  ghost predicate AllFirstTry(calls: seq<Call>) {
    forall c {:trigger FirstTry(calls[c])} :: 0 <= c < |calls| ==> FirstTry(calls[c])
  }

  lemma FirstCheckIsFree(s: State, c: nat)
    requires Inv(s) && AllFirstTry(s.calls) && s.draws < WORD32 && c < |s.calls| && s.calls[c].phase.Checking?
    ensures Ids.Free(IdOf(s.calls[c]), s.pending.Keys)
  {
    assert CallOk(s.calls[c], c, s.served, s.draws) && FirstTry(s.calls[c]);
    forall d: nat | d < |s.calls| && InTable(s.calls[d]) ensures IdOf(s.calls[d]) != IdOf(s.calls[c]) {
      assert CallOk(s.calls[d], d, s.served, s.draws) && FirstTry(s.calls[d]);
      TicketIsId(s.calls[d], s.draws);
      TicketIsId(s.calls[c], s.draws);
      assert s.calls[d].phase != s.calls[c].phase;
    }
    TicketIsId(s.calls[c], s.draws);
  }

  lemma TicketIsId(call: Call, draws: nat)
    requires 0 < call.ticket <= draws < WORD32
    ensures IdOf(call) == call.ticket
  {
  }

  lemma CallFirstTry(calls: seq<Call>, c: nat, call: Call)
    requires AllFirstTry(calls) && c < |calls| && FirstTry(call)
    ensures AllFirstTry(calls[c := call])
  {
    var calls' := calls[c := call];
    forall d | 0 <= d < |calls| ensures FirstTry(calls'[d]) {
      assert FirstTry(calls[d]);
    }
  }

  /** At most the one call changed, and it has needed one attempt at most. */
  ghost predicate OnlyMoves(before: seq<Call>, c: nat, after: seq<Call>)
    requires c < |before|
  {
    |after| == |before| && FirstTry(after[c]) && after == before[c := after[c]]
  }

  predicate DrawsOrChecks(step: Step) {
    step.Draw? || step.Check? || step.Fallback?
  }

  lemma EarlyStepFirstTry(s: State, c: nat, step: Step)
    requires c < |s.calls| && FirstTry(s.calls[c]) && DrawsOrChecks(step)
    requires s.calls[c].phase.Checking? ==> Ids.Free(IdOf(s.calls[c]), s.pending.Keys)
    ensures OnlyMoves(s.calls, c, CallStep(s, c, step).calls)
  {
  }

  lemma WriteFirstTry(s: State, c: nat, step: Step)
    requires c < |s.calls| && FirstTry(s.calls[c]) && step.Write?
    ensures OnlyMoves(s.calls, c, CallStep(s, c, step).calls)
  {
  }

  lemma ReceiveFirstTry(s: State, c: nat, step: Step)
    requires c < |s.calls| && FirstTry(s.calls[c]) && step.Receive?
    ensures OnlyMoves(s.calls, c, CallStep(s, c, step).calls)
  {
  }

  lemma LateStepFirstTry(s: State, c: nat, step: Step)
    requires c < |s.calls| && FirstTry(s.calls[c]) && !DrawsOrChecks(step) && !step.Write? && !step.Receive?
    ensures OnlyMoves(s.calls, c, CallStep(s, c, step).calls)
  {
  }

  lemma CallStepFirstTry(s: State, c: nat, step: Step)
    requires Inv(s) && AllFirstTry(s.calls) && s.draws < WORD32 && c < |s.calls|
    ensures AllFirstTry(CallStep(s, c, step).calls)
  {
    assert FirstTry(s.calls[c]);
    if DrawsOrChecks(step) {
      if s.calls[c].phase.Checking? {
        FirstCheckIsFree(s, c);
      }
      EarlyStepFirstTry(s, c, step);
    } else if step.Write? {
      WriteFirstTry(s, c, step);
    } else if step.Receive? {
      ReceiveFirstTry(s, c, step);
    } else {
      LateStepFirstTry(s, c, step);
    }
    CallFirstTry(s.calls, c, CallStep(s, c, step).calls[c]);
  }

  /** The calls are where they were in their lives, with the tickets they had. */
  ghost predicate SameLives(before: State, after: State) {
    && after.draws == before.draws && |after.calls| == |before.calls|
    && forall c {:trigger after.calls[c]} :: 0 <= c < |after.calls| ==>
         after.calls[c].phase == before.calls[c].phase && after.calls[c].ticket == before.calls[c].ticket
  }

  lemma WorkKeepsLives(s: State, t: nat, outcome: Outcome, d: Decoded)
    requires t < |s.flow|
    ensures SameLives(s, WorkOn(s, t, outcome, d))
  {
  }

  lemma SendKeepsLives(s: State, t: nat)
    requires t < |s.flow|
    ensures SameLives(s, TokenStep(s, t, Send(t)))
  {
  }

  lemma TokenStepKeepsLives(s: State, t: nat, step: Step)
    requires t < |s.flow|
    ensures SameLives(s, TokenStep(s, t, step))
  {
    match step
    case Work(_, outcome) => WorkKeepsLives(s, t, outcome, Decode(ZERO_HEADER, s.flow[t].data));
    case Send(_) => SendKeepsLives(s, t);
    case _ =>
  }

  lemma PassKeepsLives(s: State, id: uint32, data: seq<byte>)
    ensures SameLives(s, Pass(s, id, data))
  {
  }

  lemma FirstTryKept(s: State, now: State)
    requires AllFirstTry(s.calls) && SameLives(s, now)
    ensures AllFirstTry(now.calls)
  {
    forall c | 0 <= c < |now.calls| ensures FirstTry(now.calls[c]) {
      assert FirstTry(s.calls[c]);
    }
  }

  predicate OfToken(step: Step) {
    step.Take? || step.Work? || step.Lose? || step.Lookup? || step.Send?
  }

  predicate OfCall(step: Step) {
    !OfToken(step) && !step.Begin? && !step.Stop? && !step.Foreign?
  }

  /** No step but a call's own changes a call's place in its life, or draws. */
  lemma OtherStepKeepsLives(s: State, step: Step)
    requires !OfCall(step) && !step.Begin?
    ensures SameLives(s, Next(s, step))
  {
    match step
    case Stop =>
    case Foreign(id, data) => PassKeepsLives(s, id, data);
    case Take(t) => if t < |s.flow| { TokenStepKeepsLives(s, t, step); }
    case Work(t, _) => if t < |s.flow| { TokenStepKeepsLives(s, t, step); }
    case Lose(t) => if t < |s.flow| { TokenStepKeepsLives(s, t, step); }
    case Lookup(t) => if t < |s.flow| { TokenStepKeepsLives(s, t, step); }
    case Send(t) => if t < |s.flow| { TokenStepKeepsLives(s, t, step); }
  }

  lemma DrawsGrow(s: State, step: Step)
    ensures s.draws <= Next(s, step).draws
  {
    if !OfCall(step) && !step.Begin? {
      OtherStepKeepsLives(s, step);
    }
  }

  /** Then no call ever needs a second attempt, let alone the fallback, and every lookup is within the window. */
  lemma {:induction false} FewDrawsAreOrderly(steps: seq<Step>)
    requires NeverConfused(steps) && Exec(steps).draws < WORD32
    ensures Inv(Exec(steps)) && AllFirstTry(Exec(steps).calls)
  {
    if steps != [] {
      var s, step := Exec(steps[..|steps| - 1]), steps[|steps| - 1];
      DrawsGrow(s, step);
      FewDrawsAreOrderly(steps[..|steps| - 1]);
      StepWithFewDraws(s, step);
    }
  }

  lemma StepWithFewDraws(s: State, step: Step)
    requires Inv(s) && AllFirstTry(s.calls) && s.draws < WORD32 && Unconfused(s, step)
    ensures Inv(Next(s, step)) && AllFirstTry(Next(s, step).calls)
  {
    FewDrawsAreWithinWindow(s);
    if step.Begin? {
      NextKeepsInv(s, step);
      BeginsAtFirst(s, step.name, step.payload);
    } else if !OfCall(step) {
      NextKeepsInv(s, step);
      OtherStepKeepsLives(s, step);
      FirstTryKept(s, Next(s, step));
    } else if step.c < |s.calls| {
      assert FirstTry(s.calls[step.c]);
      CallStepFirstTry(s, step.c, step);
      if !step.Fallback? {
        NextKeepsInv(s, step);
      }
    }
  }

  lemma BeginsAtFirst(s: State, name: Name, payload: seq<byte>)
    requires AllFirstTry(s.calls)
    ensures AllFirstTry(Next(s, Begin(name, payload)).calls)
  {
    var now := Next(s, Begin(name, payload));
    forall c | 0 <= c < |now.calls| ensures FirstTry(now.calls[c]) {
      assert c < |s.calls| ==> FirstTry(s.calls[c]);
    }
  }

  lemma FewDrawsAreWithinWindow(s: State)
    requires s.draws < WORD32
    ensures WithinWindow(s, WORD32)
  {
  }

  /**
   Correlation without the window and without regard to the fallback: in any run that has drawn fewer than 2^32 ids,
   a checked id is free at the first attempt, and calls return what is theirs.
   */
  lemma CorrelatedWithFewDraws(steps: seq<Step>, c: nat)
    requires NeverConfused(steps) && Exec(steps).draws < WORD32 && c < |Exec(steps).calls|
    ensures var s := Exec(steps);
            var call := s.calls[c];
            && call.phase != Drawing(Ids.MAX_ATTEMPTS)
            && (call.phase.Checking? ==> Ids.Free(IdOf(call), s.pending.Keys))
            && call.fills <= 1
            && ((call.phase.Leaving? || call.phase.Returned?) && !call.phase.result.Failure? ==>
                  c in s.served && s.served[c].header == Request(call.name, call.payload)
                  && (match s.served[c].outcome
                      case Answer(p, isError) => call.phase.result == if isError then PluginError(p) else Payload(p)
                      case _ => call.phase.result.PluginError?))
  {
    FewDrawsAreOrderly(steps);
    var s := Exec(steps);
    assert CallOk(s.calls[c], c, s.served, s.draws) && FirstTry(s.calls[c]);
    if s.calls[c].phase.Checking? {
      FirstCheckIsFree(s, c);
    }
  }
}
