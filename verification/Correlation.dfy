/**
 Requests and responses between a loader and a module, over whole messages. Calls, module jobs, lookups
 and sends interleave in any order; any message may be lost, and any request cut short in its writing; any call
 may give up; the loader may stop; and messages that answer no call may come from the module at any time.
 */
module Correlation {
  import opened Wire
  import opened Codec
  import opened Plugin
  import Adapters
  import Frames
  import Ids
  import Loader

  /** The life of a call. The ticket is the number of its draw; its id is the ticket modulo 2^32. */
  datatype Phase =
    | Drawing(attempt: nat)
    | Checking(attempt: nat)
    | Drawn
    | Registered
    | Waiting
    | Leaving(result: CallResult)
    | Returned(result: CallResult)

  /** `fills` counts how often a response was put into the call's channel. */
  datatype Call = Call(name: Name, payload: seq<byte>, ticket: nat, phase: Phase, chan: Loader.Slot, fills: nat)

  /** `AtLoader` is between the lookup of a channel and the send on it. */
  datatype Place = ToModule | AtModule | ToLoader | AtLoader(chan: nat) | Gone

  /** One request message and what becomes of it. No step looks at `origin`; it is who sent it. */
  datatype Token = Token(origin: nat, id: uint32, data: seq<byte>, place: Place)

  /** What the module made of a message's header, whole or in part, and how its handling ended. */
  datatype Served = Served(header: Header, outcome: Outcome)

  datatype State = State(draws: nat, calls: seq<Call>, pending: map<uint32, nat>, flow: seq<Token>,
                         served: map<nat, Served>, readyReceived: bool, stopped: bool)

  /** What a write leaves on the wire: nothing, the whole message, or an aborted part of it. */
  datatype Trace = Nothing | Whole | Part(k: nat)

  datatype Step =
    | Begin(name: Name, payload: seq<byte>)
    | Draw(c: nat)
    | Check(c: nat)
    | Fallback(c: nat)
    | Register(c: nat, closed: bool)
    | Write(c: nat, wire: Trace, ok: bool)
    | Take(t: nat)
    | Work(t: nat, outcome: Outcome)
    | Lose(t: nat)
    | Lookup(t: nat)
    | Send(t: nat)
    | Receive(c: nat)
    | GiveUp(c: nat)
    | Unregister(c: nat)
    | Foreign(id: uint32, data: seq<byte>)
    | Stop

  const INIT: State := State(0, [], map[], [], map[], false, false)

  function IdOf(call: Call): uint32 {
    call.ticket % WORD32
  }

  function WithCall(s: State, c: nat, call: Call): State
    requires c < |s.calls|
  {
    s.(calls := s.calls[c := call])
  }

  function WithToken(s: State, t: nat, tok: Token): State
    requires t < |s.flow|
  {
    s.(flow := s.flow[t := tok])
  }

  /** The message a write delivers to the module, if any. */
  function OnWire(wire: Trace, data: seq<byte>): Option<seq<byte>> {
    match wire
    case Nothing => None
    case Whole => Some(data)
    case Part(k) => if k < |data| then Some(data[..k]) else None
  }

  /** The call side: id generation, registration, write, wait, unregistration. */
  function CallStep(s: State, c: nat, step: Step): State
    requires c < |s.calls|
  {
    var call := s.calls[c];
    match step
    case Draw(_) =>
      if call.phase.Drawing? && call.phase.attempt < Ids.MAX_ATTEMPTS then
        WithCall(s, c, call.(ticket := s.draws + 1, phase := Checking(call.phase.attempt))).(draws := s.draws + 1)
      else s
    case Check(_) =>
      if !call.phase.Checking? then s
      else if Ids.Free(IdOf(call), s.pending.Keys) then WithCall(s, c, call.(phase := Drawn))
      else WithCall(s, c, call.(phase := Drawing(call.phase.attempt + 1)))
    case Fallback(_) =>
      if call.phase == Drawing(Ids.MAX_ATTEMPTS) then WithCall(s, c, call.(ticket := s.draws, phase := Drawn)) else s
    case Register(_, closed) =>
      if !call.phase.Drawn? then s
      else if closed then WithCall(s, c, call.(phase := Returned(Failure)))
      else WithCall(s, c, call.(phase := Registered)).(pending := s.pending[IdOf(call) := c])
    case Write(_, wire, ok) =>
      if !call.phase.Registered? then s
      else
        var part := OnWire(wire, Encode(Request(call.name, call.payload)));
        var moved := WithCall(s, c, call.(phase := if ok && !wire.Part? then Waiting else Leaving(Failure)));
        if part.Some? && |part.value| <= Frames.MAX_LENGTH
        then moved.(flow := s.flow + [Token(c, IdOf(call), part.value, ToModule)]) else moved
    case Receive(_) =>
      if !call.phase.Waiting? then s
      else if call.chan.Holding? then
        WithCall(s, c, call.(phase := Leaving(InterpretData(call.chan.data)), chan := Loader.Empty))
      else if call.chan.Closed? then WithCall(s, c, call.(phase := Leaving(Failure)))
      else s
    case GiveUp(_) =>
      if call.phase.Waiting? then WithCall(s, c, call.(phase := Leaving(Failure))) else s
    case Unregister(_) =>
      if call.phase.Leaving? then
        WithCall(s, c, call.(phase := Returned(call.phase.result))).(pending := s.pending - {IdOf(call)})
      else s
    case _ => s
  }

  /** The module's answer takes the place of the message, unless it is too long to be delivered. */
  function Answer(s: State, t: nat, h: Header, outcome: Outcome): State
    requires t < |s.flow|
  {
    var tok, data := s.flow[t], Encode(Respond(h.name, outcome));
    WithToken(s, t, if |data| <= Frames.MAX_LENGTH then tok.(data := data, place := ToLoader) else tok.(place := Gone))
    .(served := s.served[tok.origin := Served(h, outcome)])
  }

  /**
   A job's step once its message is decoded, as far as it can be: what decodes is answered by the outcome of its
   handling; what does not is dropped, or rejected like anything else by a module in shutdown.
   */
  function WorkOn(s: State, t: nat, outcome: Outcome, d: Decoded): State
    requires t < |s.flow|
  {
    match d
    case Malformed(part) =>
      if outcome.Draining? then Answer(s, t, part, outcome) else WithToken(s, t, s.flow[t].(place := Gone))
    case Decoded(h, _) =>
      if Control(h.name) then WithToken(s, t, s.flow[t].(place := Gone)) else Answer(s, t, h, outcome)
  }

  /** Where the loop's routing looks for a pending channel. */
  predicate ForPending(s: State, id: uint32, data: seq<byte>) {
    var d := Decode(ZERO_HEADER, data);
    && d.Decoded? && !Captured(s.readyReceived, d.header.name)
    && id != 0 && (d.header.messageType == RESPONSE || d.header.messageType == ERROR) && id in s.pending
  }

  /** The flag after the loop has seen a message: the first ready signal raises it. */
  function ReadyAfter(s: State, data: seq<byte>): bool {
    var d := Decode(ZERO_HEADER, data);
    s.readyReceived || (d.Decoded? && d.header.name == READY)
  }

  /** The loop is between a lookup and its send. */
  predicate LoopBusy(s: State) {
    exists u :: 0 <= u < |s.flow| && s.flow[u].place.AtLoader?
  }

  /** The module's job, and the loader's message loop in its two halves. */
  function TokenStep(s: State, t: nat, step: Step): State
    requires t < |s.flow|
  {
    var tok := s.flow[t];
    match step
    case Take(_) => if tok.place.ToModule? then WithToken(s, t, tok.(place := AtModule)) else s
    case Lose(_) => if tok.place.ToModule? || tok.place.ToLoader? then WithToken(s, t, tok.(place := Gone)) else s
    case Work(_, outcome) =>
      if tok.place.AtModule? then WorkOn(s, t, outcome, Decode(ZERO_HEADER, tok.data)) else s
    case Lookup(_) =>
      if !tok.place.ToLoader? || s.stopped || LoopBusy(s) then s
      else if ForPending(s, tok.id, tok.data) then WithToken(s, t, tok.(place := AtLoader(s.pending[tok.id])))
      else WithToken(s, t, tok.(place := Gone)).(readyReceived := ReadyAfter(s, tok.data))
    case Send(_) =>
      if !tok.place.AtLoader? || s.stopped || tok.place.chan >= |s.calls| then s
      else
        var c := tok.place.chan;
        var call := s.calls[c];
        var done := WithToken(s, t, tok.(place := Gone));
        if call.chan.Empty? then
          WithCall(done, c, call.(chan := Loader.Holding(tok.data), fills := call.fills + 1))
        else done
    case _ => s
  }

  /** One whole pass of the loop over a message that answers no call. */
  function Pass(s: State, id: uint32, data: seq<byte>): State {
    if s.stopped || LoopBusy(s) then s
    else if !ForPending(s, id, data) then s.(readyReceived := ReadyAfter(s, data))
    else
      var c := s.pending[id];
      if c < |s.calls| && s.calls[c].chan.Empty?
      then WithCall(s, c, s.calls[c].(chan := Loader.Holding(data), fills := s.calls[c].fills + 1)) else s
  }

  function StopAll(s: State): State {
    s.(calls := seq(|s.calls|, c requires 0 <= c < |s.calls| =>
                  var call := s.calls[c];
                  if IdOf(call) in s.pending && s.pending[IdOf(call)] == c
                  then call.(chan := Loader.CleanedUp(call.chan)) else call),
       pending := map[], stopped := true)
  }

  function Next(s: State, step: Step): State {
    match step
    case Begin(name, payload) => s.(calls := s.calls + [Call(name, payload, 0, Drawing(0), Loader.Empty, 0)])
    case Stop => StopAll(s)
    case Foreign(id, data) => Pass(s, id, data)
    case Take(t) => if t < |s.flow| then TokenStep(s, t, step) else s
    case Work(t, _) => if t < |s.flow| then TokenStep(s, t, step) else s
    case Lose(t) => if t < |s.flow| then TokenStep(s, t, step) else s
    case Lookup(t) => if t < |s.flow| then TokenStep(s, t, step) else s
    case Send(t) => if t < |s.flow| then TokenStep(s, t, step) else s
    case _ => if step.c < |s.calls| then CallStep(s, step.c, step) else s
  }

  function Exec(steps: seq<Step>): State {
    if steps == [] then INIT else Next(Exec(steps[..|steps| - 1]), steps[|steps| - 1])
  }

  // ---- The hypotheses ----

  /** Fewer than `window` ids were drawn since the one of any pending call and of any message still under way. */
  ghost predicate WithinWindow(s: State, window: nat) {
    && (forall id :: id in s.pending && s.pending[id] < |s.calls| ==> s.draws < s.calls[s.pending[id]].ticket + window)
    && (forall t :: (0 <= t < |s.flow| && !s.flow[t].place.Gone? && s.flow[t].origin < |s.calls|) ==>
          s.draws < s.calls[s.flow[t].origin].ticket + window)
  }

  /** No message that answers no call is taken for the response of one. */
  predicate Unconfused(s: State, step: Step) {
    step.Foreign? ==> !ForPending(s, step.id, step.data)
  }

  ghost predicate NeverConfused(steps: seq<Step>) {
    steps == [] ||
    var before, step := steps[..|steps| - 1], steps[|steps| - 1];
    NeverConfused(before) && Unconfused(Exec(before), step)
  }

  /** Nor did a call fall back to an id it had not drawn free, and every lookup happened within the window. */
  ghost predicate Orderly(steps: seq<Step>, window: nat) {
    steps == [] ||
    var before, step := steps[..|steps| - 1], steps[|steps| - 1];
    && Orderly(before, window) && Unconfused(Exec(before), step) && !step.Fallback?
    && (step.Lookup? ==> WithinWindow(Exec(before), window))
  }

  // ---- The invariant ----

  predicate HasTicket(call: Call) {
    !call.phase.Drawing?
  }

  predicate InTable(call: Call) {
    call.phase.Registered? || call.phase.Waiting? || call.phase.Leaving?
  }

  predicate Written(call: Call) {
    call.phase.Waiting? || call.phase.Leaving? || call.phase.Returned?
  }

  predicate Failed(call: Call) {
    (call.phase.Leaving? || call.phase.Returned?) && call.phase.result.Failure?
  }

  /** What the module answered to the message of call `c`. */
  predicate IsAnswer(c: nat, served: map<nat, Served>, data: seq<byte>) {
    c in served && data == Encode(Respond(served[c].header.name, served[c].outcome)) && |data| <= Frames.MAX_LENGTH
  }

  /** The response to call `c`: the answer to its whole request. */
  predicate IsResponse(call: Call, c: nat, served: map<nat, Served>, data: seq<byte>) {
    IsAnswer(c, served, data) && served[c].header == Request(call.name, call.payload)
  }

  /** The rejection, by a module in shutdown, of what a cut write left of a request whose call has failed. */
  predicate IsRejection(call: Call, c: nat, served: map<nat, Served>, data: seq<byte>) {
    && IsAnswer(c, served, data) && Failed(call)
    && served[c].outcome.Draining? && (served[c].header.name == [] || served[c].header.name == call.name)
  }

  /** One or the other, but for requests of 4 GiB and more, whose parts may decode. */
  predicate IsOwn(call: Call, c: nat, served: map<nat, Served>, data: seq<byte>) {
    || IsResponse(call, c, served, data)
    || (IsAnswer(c, served, data) && Failed(call)
        && (Short(Request(call.name, call.payload)) ==> IsRejection(call, c, served, data)))
  }

  predicate ServedOk(call: Call, sv: Served) {
    || sv.header == Request(call.name, call.payload)
    || (Failed(call)
        && (Short(Request(call.name, call.payload)) ==>
              sv.outcome.Draining? && (sv.header.name == [] || sv.header.name == call.name)))
  }

  predicate ResultIsOwn(call: Call, c: nat, served: map<nat, Served>, r: CallResult) {
    r.Failure? ||
    (c in served && served[c].header == Request(call.name, call.payload)
     && r == Interpret(Respond(call.name, served[c].outcome)))
  }

  predicate CallOk(call: Call, c: nat, served: map<nat, Served>, draws: nat) {
    && (HasTicket(call) ==> call.ticket <= draws)
    && call.fills <= 1
    && (!Written(call) ==> call.fills == 0 && c !in served)
    && (c in served ==> ServedOk(call, served[c]))
    && (call.chan.Holding? ==> call.fills == 1 && IsAnswer(c, served, call.chan.data))
    && (call.phase.Leaving? || call.phase.Returned? ==> ResultIsOwn(call, c, served, call.phase.result))
  }

  /** The call's request, or a strict prefix of it if the call has failed. */
  predicate IsRequest(call: Call, data: seq<byte>) {
    var whole := Encode(Request(call.name, call.payload));
    data == whole || (Failed(call) && |data| < |whole| && data == whole[..|data|])
  }

  predicate TokenOk(tok: Token, calls: seq<Call>, served: map<nat, Served>) {
    && tok.origin < |calls|
    && var call := calls[tok.origin];
    && Written(call) && HasTicket(call) && tok.id == IdOf(call)
    && (!tok.place.Gone? ==> call.fills == 0)
    && (tok.place.ToModule? || tok.place.AtModule? ==>
          tok.origin !in served && |tok.data| <= Frames.MAX_LENGTH && IsRequest(call, tok.data))
    && (tok.place.ToLoader? || tok.place.AtLoader? ==> IsAnswer(tok.origin, served, tok.data))
    && (tok.place.AtLoader? ==> tok.place.chan == tok.origin)
  }

  ghost predicate PendingOk(calls: seq<Call>, pending: map<uint32, nat>) {
    forall id :: id in pending ==>
      pending[id] < |calls| && InTable(calls[pending[id]]) && id == IdOf(calls[pending[id]])
  }

  /** Two calls that both drew never drew the same number. */
  ghost predicate TicketsDiffer(calls: seq<Call>) {
    forall c, d | 0 <= c < d < |calls| && HasTicket(calls[c]) && HasTicket(calls[d]) ::
      calls[c].ticket != calls[d].ticket
  }

  ghost predicate OriginsDiffer(flow: seq<Token>) {
    forall t, u :: 0 <= t < u < |flow| ==> flow[t].origin != flow[u].origin
  }

  ghost predicate CallsOk(calls: seq<Call>, served: map<nat, Served>, draws: nat) {
    forall c {:trigger CallOk(calls[c], c, served, draws)} :: 0 <= c < |calls| ==> CallOk(calls[c], c, served, draws)
  }

  ghost predicate FlowOk(flow: seq<Token>, calls: seq<Call>, served: map<nat, Served>) {
    forall t {:trigger TokenOk(flow[t], calls, served)} :: 0 <= t < |flow| ==> TokenOk(flow[t], calls, served)
  }

  ghost predicate Inv(s: State) {
    && (forall c :: c in s.served ==> c < |s.calls|)
    && CallsOk(s.calls, s.served, s.draws) && TicketsDiffer(s.calls) && PendingOk(s.calls, s.pending)
    && FlowOk(s.flow, s.calls, s.served) && OriginsDiffer(s.flow)
  }

  // ---- Steps of a call ----

  /** A call moves on without touching what its token relies on. */
  predicate Moves(before: Call, after: Call) {
    && after.name == before.name && after.payload == before.payload && after.fills == before.fills
    && (Written(before) ==> Written(after)) && (Failed(before) ==> Failed(after))
    && (HasTicket(before) && HasTicket(after) ==> after.ticket == before.ticket)
  }

  lemma MoveKeepsTokens(flow: seq<Token>, calls: seq<Call>, served: map<nat, Served>, c: nat, call: Call)
    requires FlowOk(flow, calls, served) && c < |calls| && Moves(calls[c], call)
    ensures FlowOk(flow, calls[c := call], served)
  {
    forall t | 0 <= t < |flow| ensures TokenOk(flow[t], calls[c := call], served) {
      assert TokenOk(flow[t], calls, served);
    }
  }

  /** One call changes, and is still as it should be. */
  lemma CallKept(calls: seq<Call>, served: map<nat, Served>, draws: nat, draws': nat, c: nat, call: Call)
    requires CallsOk(calls, served, draws) && c < |calls| && CallOk(call, c, served, draws') && draws <= draws'
    ensures CallsOk(calls[c := call], served, draws')
  {
    var calls' := calls[c := call];
    forall d | 0 <= d < |calls| ensures CallOk(calls'[d], d, served, draws') {
      assert CallOk(calls[d], d, served, draws);
    }
  }

  lemma MoveKeepsInv(s: State, c: nat, call: Call)
    requires Inv(s) && c < |s.calls| && Moves(s.calls[c], call) && CallOk(call, c, s.served, s.draws)
    requires HasTicket(call) ==> HasTicket(s.calls[c])
    requires InTable(s.calls[c]) ==> InTable(call)
    ensures Inv(WithCall(s, c, call))
  {
    MoveKeepsTokens(s.flow, s.calls, s.served, c, call);
    CallKept(s.calls, s.served, s.draws, s.draws, c, call);
  }

  lemma DrawKeepsInv(s: State, c: nat)
    requires Inv(s) && c < |s.calls|
    ensures Inv(CallStep(s, c, Draw(c)))
  {
    var call := s.calls[c];
    if call.phase.Drawing? && call.phase.attempt < Ids.MAX_ATTEMPTS {
      var now := call.(ticket := s.draws + 1, phase := Checking(call.phase.attempt));
      var calls := s.calls[c := now];
      assert CallOk(call, c, s.served, s.draws);
      MoveKeepsTokens(s.flow, s.calls, s.served, c, now);
      CallKept(s.calls, s.served, s.draws, s.draws + 1, c, now);
      forall d | 0 <= d < |calls| && d != c && HasTicket(calls[d]) ensures calls[d].ticket <= s.draws {
        assert CallOk(s.calls[d], d, s.served, s.draws);
      }
    }
  }

  lemma CheckKeepsInv(s: State, c: nat)
    requires Inv(s) && c < |s.calls|
    ensures Inv(CallStep(s, c, Check(c)))
  {
    var call := s.calls[c];
    assert CallOk(call, c, s.served, s.draws);
    if call.phase.Checking? {
      if Ids.Free(IdOf(call), s.pending.Keys) {
        MoveKeepsInv(s, c, call.(phase := Drawn));
      } else {
        MoveKeepsInv(s, c, call.(phase := Drawing(call.phase.attempt + 1)));
      }
    }
  }

  lemma RegisterKeepsInv(s: State, c: nat, closed: bool)
    requires Inv(s) && c < |s.calls|
    ensures Inv(CallStep(s, c, Register(c, closed)))
  {
    var call := s.calls[c];
    assert CallOk(call, c, s.served, s.draws);
    if call.phase.Drawn? {
      if closed {
        MoveKeepsInv(s, c, call.(phase := Returned(Failure)));
      } else {
        MoveKeepsInv(s, c, call.(phase := Registered));
      }
    }
  }

  lemma AppendKeepsInv(s: State, tok: Token)
    requires Inv(s) && TokenOk(tok, s.calls, s.served)
    requires forall t :: 0 <= t < |s.flow| ==> s.flow[t].origin != tok.origin
    ensures Inv(s.(flow := s.flow + [tok]))
  {
    var flow := s.flow + [tok];
    forall t | 0 <= t < |flow| ensures TokenOk(flow[t], s.calls, s.served) {
      assert t < |s.flow| ==> TokenOk(s.flow[t], s.calls, s.served);
    }
  }

  /** A call that has written nothing yet has no message under way. */
  lemma NoMessageYet(s: State, c: nat)
    requires FlowOk(s.flow, s.calls, s.served) && c < |s.calls| && !Written(s.calls[c])
    ensures forall t :: 0 <= t < |s.flow| ==> s.flow[t].origin != c
  {
    forall t | 0 <= t < |s.flow| ensures s.flow[t].origin != c {
      assert TokenOk(s.flow[t], s.calls, s.served);
    }
  }

  lemma WriteKeepsInv(s: State, c: nat, wire: Trace, ok: bool)
    requires Inv(s) && c < |s.calls|
    ensures Inv(CallStep(s, c, Write(c, wire, ok)))
  {
    var call := s.calls[c];
    assert CallOk(call, c, s.served, s.draws);
    if call.phase.Registered? {
      var now := call.(phase := if ok && !wire.Part? then Waiting else Leaving(Failure));
      var part := OnWire(wire, Encode(Request(call.name, call.payload)));
      MoveKeepsInv(s, c, now);
      NoMessageYet(s, c);
      if part.Some? && |part.value| <= Frames.MAX_LENGTH {
        AppendKeepsInv(WithCall(s, c, now), Token(c, IdOf(call), part.value, ToModule));
      }
    }
  }

  /** A call that still waits has not failed, so what its channel holds is the response to its whole request. */
  lemma ReceivedIsOwn(call: Call, c: nat, served: map<nat, Served>, draws: nat)
    requires CallOk(call, c, served, draws) && call.phase.Waiting? && call.chan.Holding?
    ensures ResultIsOwn(call, c, served, InterpretData(call.chan.data))
  {
    assert served[c].header == Request(call.name, call.payload);
    SmallIsShort(Respond(call.name, served[c].outcome));
  }

  lemma ReceiveKeepsInv(s: State, c: nat)
    requires Inv(s) && c < |s.calls|
    ensures Inv(CallStep(s, c, Receive(c)))
  {
    var call := s.calls[c];
    assert CallOk(call, c, s.served, s.draws);
    if call.phase.Waiting? {
      if call.chan.Holding? {
        ReceivedIsOwn(call, c, s.served, s.draws);
        MoveKeepsInv(s, c, call.(phase := Leaving(InterpretData(call.chan.data)), chan := Loader.Empty));
      } else if call.chan.Closed? {
        MoveKeepsInv(s, c, call.(phase := Leaving(Failure)));
      }
    }
  }

  lemma LeaveKeepsInv(s: State, c: nat, step: Step)
    requires Inv(s) && c < |s.calls| && (step == GiveUp(c) || step == Unregister(c))
    ensures Inv(CallStep(s, c, step))
  {
    var call := s.calls[c];
    assert CallOk(call, c, s.served, s.draws);
    if step.GiveUp? && call.phase.Waiting? {
      MoveKeepsInv(s, c, call.(phase := Leaving(Failure)));
    } else if step.Unregister? && call.phase.Leaving? {
      var now := call.(phase := Returned(call.phase.result));
      MoveKeepsTokens(s.flow, s.calls, s.served, c, now);
      CallKept(s.calls, s.served, s.draws, s.draws, c, now);
    }
  }

  // ---- Steps of a message ----

  lemma PlaceKeepsInv(s: State, t: nat, tok: Token)
    requires Inv(s) && t < |s.flow| && tok.origin == s.flow[t].origin && TokenOk(tok, s.calls, s.served)
    ensures Inv(WithToken(s, t, tok))
  {
  }

  lemma ServeKeepsInv(s: State, t: nat, tok: Token, sv: Served)
    requires Inv(s) && t < |s.flow| && tok.origin == s.flow[t].origin && tok.origin !in s.served
    requires TokenOk(tok, s.calls, s.served[tok.origin := sv]) && ServedOk(s.calls[tok.origin], sv)
    ensures Inv(WithToken(s, t, tok).(served := s.served[tok.origin := sv]))
  {
    var o, served := tok.origin, s.served[tok.origin := sv];
    assert TokenOk(s.flow[t], s.calls, s.served);
    forall c | 0 <= c < |s.calls| ensures CallOk(s.calls[c], c, served, s.draws) {
      assert CallOk(s.calls[c], c, s.served, s.draws);
    }
    var flow := s.flow[t := tok];
    forall u | 0 <= u < |flow| ensures TokenOk(flow[u], s.calls, served) {
      if u != t {
        assert TokenOk(s.flow[u], s.calls, s.served) && s.flow[u].origin != o;
      }
    }
  }

  lemma AnswerKeepsInv(s: State, t: nat, h: Header, outcome: Outcome)
    requires Inv(s) && t < |s.flow| && s.flow[t].place.AtModule? && s.flow[t].origin < |s.calls|
    requires ServedOk(s.calls[s.flow[t].origin], Served(h, outcome))
    ensures Inv(Answer(s, t, h, outcome))
  {
    var tok, data := s.flow[t], Encode(Respond(h.name, outcome));
    assert TokenOk(tok, s.calls, s.served);
    var after := if |data| <= Frames.MAX_LENGTH then tok.(data := data, place := ToLoader) else tok.(place := Gone);
    ServeKeepsInv(s, t, after, Served(h, outcome));
  }

  /** What the module makes of a request, or of what is left of it. */
  lemma MadeOfRequest(call: Call, data: seq<byte>, outcome: Outcome)
    requires IsRequest(call, data) && |data| <= Frames.MAX_LENGTH
    ensures var d := Decode(ZERO_HEADER, data);
            && (d.Decoded? ==> ServedOk(call, Served(d.header, outcome)))
            && (d.Malformed? && outcome.Draining? ==> ServedOk(call, Served(d.partial, outcome)))
  {
    var h := Request(call.name, call.payload);
    if data == Encode(h) {
      SmallIsShort(h);
    } else if Short(h) {
      NameInPrefix(ZERO_HEADER, h, |data|);
    }
  }

  lemma WorkOnKeepsInv(s: State, t: nat, outcome: Outcome, d: Decoded)
    requires Inv(s) && t < |s.flow| && s.flow[t].place.AtModule? && s.flow[t].origin < |s.calls|
    requires d.Decoded? ==> ServedOk(s.calls[s.flow[t].origin], Served(d.header, outcome))
    requires d.Malformed? && outcome.Draining? ==> ServedOk(s.calls[s.flow[t].origin], Served(d.partial, outcome))
    ensures Inv(WorkOn(s, t, outcome, d))
  {
    var tok, h := s.flow[t], if d.Decoded? then d.header else d.partial;
    assert TokenOk(tok, s.calls, s.served);
    if if d.Decoded? then Control(h.name) else !outcome.Draining? {
      PlaceKeepsInv(s, t, tok.(place := Gone));
    } else {
      AnswerKeepsInv(s, t, h, outcome);
    }
  }

  lemma WorkKeepsInv(s: State, t: nat, outcome: Outcome)
    requires Inv(s) && t < |s.flow|
    ensures Inv(TokenStep(s, t, Work(t, outcome)))
  {
    var tok := s.flow[t];
    assert TokenOk(tok, s.calls, s.served);
    if tok.place.AtModule? {
      MadeOfRequest(s.calls[tok.origin], tok.data, outcome);
      WorkOnKeepsInv(s, t, outcome, Decode(ZERO_HEADER, tok.data));
    }
  }

  /** Two calls that hold tickets less than 2^32 draws old and share an id are the same call. */
  lemma SameIdSameCall(s: State, c: nat, d: nat)
    requires Inv(s) && c < |s.calls| && d < |s.calls| && HasTicket(s.calls[c]) && HasTicket(s.calls[d])
    requires s.draws < s.calls[c].ticket + WORD32 && s.draws < s.calls[d].ticket + WORD32
    requires IdOf(s.calls[c]) == IdOf(s.calls[d])
    ensures c == d
  {
    assert CallOk(s.calls[c], c, s.served, s.draws) && CallOk(s.calls[d], d, s.served, s.draws);
    var a, b := s.calls[c].ticket, s.calls[d].ticket;
    if a < b {
      Ids.DrawsDiffer(a, b);
    } else if b < a {
      Ids.DrawsDiffer(b, a);
    }
  }

  lemma LookupKeepsInv(s: State, t: nat)
    requires Inv(s) && t < |s.flow| && WithinWindow(s, WORD32)
    ensures Inv(TokenStep(s, t, Lookup(t)))
  {
    var tok := s.flow[t];
    assert TokenOk(tok, s.calls, s.served);
    if tok.place.ToLoader? {
      PlaceKeepsInv(s, t, tok.(place := Gone));
      if tok.id in s.pending {
        var c := s.pending[tok.id];
        SameIdSameCall(s, c, tok.origin);
        PlaceKeepsInv(s, t, tok.(place := AtLoader(c)));
      }
    }
  }

  /** Once a call's token is gone its channel may be filled. */
  lemma FillKeepsInv(s: State, t: nat, data: seq<byte>)
    requires Inv(s) && t < |s.flow| && s.flow[t].place.Gone? && s.flow[t].origin < |s.calls|
    requires var c := s.flow[t].origin;
             s.calls[c].chan.Empty? && s.calls[c].fills == 0 && IsAnswer(c, s.served, data)
    ensures var c := s.flow[t].origin;
            Inv(WithCall(s, c, s.calls[c].(chan := Loader.Holding(data), fills := 1)))
  {
    var c := s.flow[t].origin;
    var call := s.calls[c].(chan := Loader.Holding(data), fills := 1);
    var calls := s.calls[c := call];
    assert TokenOk(s.flow[t], s.calls, s.served) && CallOk(s.calls[c], c, s.served, s.draws);
    CallKept(s.calls, s.served, s.draws, s.draws, c, call);
    forall u | 0 <= u < |s.flow| ensures TokenOk(s.flow[u], calls, s.served) {
      assert TokenOk(s.flow[u], s.calls, s.served);
    }
  }

  lemma SendKeepsInv(s: State, t: nat)
    requires Inv(s) && t < |s.flow|
    ensures Inv(TokenStep(s, t, Send(t)))
  {
    var tok := s.flow[t];
    assert TokenOk(tok, s.calls, s.served);
    if tok.place.AtLoader? {
      var done := WithToken(s, t, tok.(place := Gone));
      PlaceKeepsInv(s, t, tok.(place := Gone));
      if s.calls[tok.origin].chan.Empty? {
        FillKeepsInv(done, t, tok.data);
      }
    }
  }

  lemma StopKeepsInv(s: State)
    requires Inv(s)
    ensures Inv(StopAll(s))
  {
    var now := StopAll(s);
    forall c | 0 <= c < |s.calls| ensures CallOk(now.calls[c], c, s.served, s.draws) {
      assert CallOk(s.calls[c], c, s.served, s.draws);
    }
    forall t | 0 <= t < |s.flow| ensures TokenOk(s.flow[t], now.calls, s.served) {
      assert TokenOk(s.flow[t], s.calls, s.served);
    }
  }

  lemma PassKeepsInv(s: State, id: uint32, data: seq<byte>)
    requires Inv(s) && !ForPending(s, id, data)
    ensures Inv(Pass(s, id, data))
  {
  }

  lemma BeginKeepsInv(s: State, name: Name, payload: seq<byte>)
    requires Inv(s)
    ensures Inv(Next(s, Begin(name, payload)))
  {
    var now := Next(s, Begin(name, payload));
    assert forall c :: 0 <= c < |s.calls| ==> now.calls[c] == s.calls[c];
    forall t | 0 <= t < |s.flow| ensures TokenOk(s.flow[t], now.calls, s.served) {
      assert TokenOk(s.flow[t], s.calls, s.served);
    }
  }

  lemma NextKeepsInv(s: State, step: Step)
    requires Inv(s) && Unconfused(s, step) && !step.Fallback? && (step.Lookup? ==> WithinWindow(s, WORD32))
    ensures Inv(Next(s, step))
  {
    match step
    case Begin(name, payload) => BeginKeepsInv(s, name, payload);
    case Stop => StopKeepsInv(s);
    case Draw(c) => if c < |s.calls| { DrawKeepsInv(s, c); }
    case Check(c) => if c < |s.calls| { CheckKeepsInv(s, c); }
    case Register(c, closed) => if c < |s.calls| { RegisterKeepsInv(s, c, closed); }
    case Write(c, wire, ok) => if c < |s.calls| { WriteKeepsInv(s, c, wire, ok); }
    case Foreign(id, data) => PassKeepsInv(s, id, data);
    case Receive(c) => if c < |s.calls| { ReceiveKeepsInv(s, c); }
    case GiveUp(c) => if c < |s.calls| { LeaveKeepsInv(s, c, step); }
    case Unregister(c) => if c < |s.calls| { LeaveKeepsInv(s, c, step); }
    case Take(t) => if t < |s.flow| { MoveTokenKeepsInv(s, t, step); }
    case Lose(t) => if t < |s.flow| { MoveTokenKeepsInv(s, t, step); }
    case Work(t, outcome) => if t < |s.flow| { WorkKeepsInv(s, t, outcome); }
    case Lookup(t) => if t < |s.flow| { LookupKeepsInv(s, t); }
    case Send(t) => if t < |s.flow| { SendKeepsInv(s, t); }
  }

  lemma MoveTokenKeepsInv(s: State, t: nat, step: Step)
    requires Inv(s) && t < |s.flow| && (step.Take? || step.Lose?)
    ensures Inv(TokenStep(s, t, step))
  {
    var tok := s.flow[t];
    assert TokenOk(tok, s.calls, s.served);
    PlaceKeepsInv(s, t, tok.(place := Gone));
    if tok.place.ToModule? {
      PlaceKeepsInv(s, t, tok.(place := AtModule));
    }
  }

  lemma {:induction false} RunKeepsInv(steps: seq<Step>)
    requires Orderly(steps, WORD32)
    ensures Inv(Exec(steps))
  {
    if steps != [] {
      var before := steps[..|steps| - 1];
      RunKeepsInv(before);
      NextKeepsInv(Exec(before), steps[|steps| - 1]);
    }
  }

  // ---- What follows for callers ----

  /**
   Correlation: over every interleaving, a call that ends with a payload or a plugin error ends with what
   the module's handler lookup produced for the very request of that call, decoded from its own message;
   and its channel was filled at most once.
   */
  lemma Correlated(steps: seq<Step>, c: nat)
    requires Orderly(steps, WORD32) && c < |Exec(steps).calls|
    ensures var s := Exec(steps);
            var call := s.calls[c];
            && call.fills <= 1
            && ((call.phase.Leaving? || call.phase.Returned?) && !call.phase.result.Failure? ==>
                  c in s.served && s.served[c].header == Request(call.name, call.payload)
                  && (match s.served[c].outcome
                      case Answer(p, isError) => call.phase.result == if isError then PluginError(p) else Payload(p)
                      case _ => call.phase.result.PluginError?))
  {
    RunKeepsInv(steps);
    var s := Exec(steps);
    assert CallOk(s.calls[c], c, s.served, s.draws);
  }

  /**
   Late responses are harmless: whatever sits in a call's channel, or is about to be put there, is the
   response to that call's own request, also when earlier calls were given up and their ids drawn again, or else the
   rejection of what was left of that request when its write was cut, and then the call has failed already;
   and a response that is about to be sent finds its channel unfilled.
   */
  lemma LateResponsesAreHarmless(steps: seq<Step>, c: nat, t: nat)
    requires Orderly(steps, WORD32) && c < |Exec(steps).calls| && t < |Exec(steps).flow|
    ensures var s := Exec(steps);
            && (s.calls[c].chan.Holding? ==> IsOwn(s.calls[c], c, s.served, s.calls[c].chan.data))
            && (s.flow[t].place == AtLoader(c) ==>
                  s.flow[t].origin == c && IsOwn(s.calls[c], c, s.served, s.flow[t].data)
                  && !s.calls[c].chan.Holding? && s.calls[c].fills == 0)
  {
    RunKeepsInv(steps);
    var s := Exec(steps);
    assert CallOk(s.calls[c], c, s.served, s.draws);
    assert TokenOk(s.flow[t], s.calls, s.served);
  }

  /** A response goes to whichever call is pending under its id: its own, or one whose draw is congruent modulo 2^32. */
  lemma LookupFindsPending(s: State, t: nat)
    requires Inv(s) && t < |s.flow| && s.flow[t].place.ToLoader? && ForPending(s, s.flow[t].id, s.flow[t].data)
    requires !s.stopped && !LoopBusy(s) && s.flow[t].origin < |s.calls|
    ensures var c, o := s.pending[s.flow[t].id], s.flow[t].origin;
            && TokenStep(s, t, Lookup(t)).flow[t].place == AtLoader(c)
            && c < |s.calls| && s.calls[c].ticket % WORD32 == s.calls[o].ticket % WORD32
  {
    var tok := s.flow[t];
    assert TokenOk(tok, s.calls, s.served);
    assert TokenStep(s, t, Lookup(t)) == WithToken(s, t, tok.(place := AtLoader(s.pending[tok.id])));
  }

  // ---- The two halves of the loader's loop are its routing function ----

  /** What the loader's routing function sees of a state; the signals play no part in correlation. */
  ghost function ViewOf(s: State, signals: Loader.View): Loader.View {
    signals.(readyReceived := s.readyReceived,
             pending := map id | id in s.pending && s.pending[id] < |s.calls| :: s.calls[s.pending[id]].chan)
  }

  /** The message may be looked up now. */
  ghost predicate MayLookUp(s: State, t: nat) {
    && t < |s.flow| && s.flow[t].place.ToLoader? && !s.stopped && PendingOk(s.calls, s.pending)
    && !LoopBusy(s)
  }

  lemma LookupFinds(s: State, t: nat)
    requires MayLookUp(s, t) && ForPending(s, s.flow[t].id, s.flow[t].data)
    ensures TokenStep(s, t, Lookup(t)) == WithToken(s, t, s.flow[t].(place := AtLoader(s.pending[s.flow[t].id])))
  {
  }

  lemma LookupDrops(s: State, t: nat)
    requires MayLookUp(s, t) && !ForPending(s, s.flow[t].id, s.flow[t].data)
    ensures TokenStep(s, t, Lookup(t))
         == WithToken(s, t, s.flow[t].(place := Gone)).(readyReceived := TokenStep(s, t, Lookup(t)).readyReceived)
  {
  }

  lemma HandleElsewhere(s: State, t: nat, signals: Loader.View, rs: set<Name>, ms: set<Name>)
    requires MayLookUp(s, t) && !ForPending(s, s.flow[t].id, s.flow[t].data)
    ensures var handled := Loader.Handle(ViewOf(s, signals), rs, ms, Adapters.ApiMessage(s.flow[t].id, s.flow[t].data));
            && handled.view.pending == ViewOf(s, signals).pending
            && handled.view.readyReceived == TokenStep(s, t, Lookup(t)).readyReceived
  {
  }

  lemma HandlePending(s: State, t: nat, signals: Loader.View, rs: set<Name>, ms: set<Name>)
    requires MayLookUp(s, t) && ForPending(s, s.flow[t].id, s.flow[t].data)
    ensures var tok, before := s.flow[t], ViewOf(s, signals);
            var handled := Loader.Handle(before, rs, ms, Adapters.ApiMessage(tok.id, tok.data));
            && handled.view.readyReceived == s.readyReceived
            && handled.view.pending == if s.calls[s.pending[tok.id]].chan.Empty?
                                       then before.pending[tok.id := Loader.Holding(tok.data)] else before.pending
  {
  }

  /** The send that follows a lookup: it fills an empty channel, and does nothing otherwise. */
  lemma SendAfterLookup(s: State, t: nat, c: nat)
    requires t < |s.flow| && c < |s.calls| && !s.stopped
    ensures var found, done := WithToken(s, t, s.flow[t].(place := AtLoader(c))),
            s.flow[t := s.flow[t].(place := Gone)];
            var call := s.calls[c].(chan := Loader.Holding(s.flow[t].data), fills := s.calls[c].fills + 1);
            TokenStep(found, t, Send(t)) ==
            if s.calls[c].chan.Empty? then WithCall(s.(flow := done), c, call) else s.(flow := done)
  {
    var found := WithToken(s, t, s.flow[t].(place := AtLoader(c)));
    assert found.flow[t := found.flow[t].(place := Gone)] == s.flow[t := s.flow[t].(place := Gone)];
  }

  lemma SendAfterDrop(s: State, t: nat, ready: bool)
    requires t < |s.flow|
    ensures var found := WithToken(s, t, s.flow[t].(place := Gone)).(readyReceived := ready);
            TokenStep(found, t, Send(t)) == found
  {
  }

  /** A lookup and its send, with nothing in between. */
  ghost function LookUpAndSend(s: State, t: nat): State
    requires t < |s.flow|
  {
    var found := TokenStep(s, t, Lookup(t));
    if t < |found.flow| then TokenStep(found, t, Send(t)) else found
  }

  /** Together they do to pending channels and the ready flag what one pass of the loop does. */
  lemma LookupThenSendIsHandle(s: State, t: nat, signals: Loader.View, rs: set<Name>, ms: set<Name>)
    requires MayLookUp(s, t)
    ensures var now := LookUpAndSend(s, t);
            var handled := Loader.Handle(ViewOf(s, signals), rs, ms, Adapters.ApiMessage(s.flow[t].id, s.flow[t].data));
            && ViewOf(now, signals).pending == handled.view.pending && now.readyReceived == handled.view.readyReceived
            && now.pending == s.pending
  {
    var tok := s.flow[t];
    if ForPending(s, tok.id, tok.data) {
      PendingCase(s, t, signals, rs, ms);
    } else {
      LookupDrops(s, t);
      SendAfterDrop(s, t, TokenStep(s, t, Lookup(t)).readyReceived);
      HandleElsewhere(s, t, signals, rs, ms);
    }
  }

  /** The state a pending message's lookup and send lead to. */
  ghost function Filled(s: State, t: nat, c: nat): State
    requires t < |s.flow| && c < |s.calls|
  {
    var tok, call := s.flow[t], s.calls[c];
    var done := s.(flow := s.flow[t := tok.(place := Gone)]);
    if call.chan.Empty? then
      WithCall(done, c, call.(chan := Loader.Holding(tok.data), fills := call.fills + 1))
    else done
  }

  lemma PendingIsFilled(s: State, t: nat)
    requires MayLookUp(s, t) && ForPending(s, s.flow[t].id, s.flow[t].data)
    ensures LookUpAndSend(s, t) == Filled(s, t, s.pending[s.flow[t].id])
  {
    LookupFinds(s, t);
    SendAfterLookup(s, t, s.pending[s.flow[t].id]);
  }

  /** Filling the channel of the call pending under an id fills that entry and no other. */
  lemma ViewOfFilled(s: State, t: nat, signals: Loader.View)
    requires t < |s.flow| && PendingOk(s.calls, s.pending) && s.flow[t].id in s.pending
    ensures var id, c, before := s.flow[t].id, s.pending[s.flow[t].id], ViewOf(s, signals).pending;
            ViewOf(Filled(s, t, c), signals).pending ==
            if s.calls[c].chan.Empty? then before[id := Loader.Holding(s.flow[t].data)] else before
  {
  }

  lemma PendingCase(s: State, t: nat, signals: Loader.View, rs: set<Name>, ms: set<Name>)
    requires MayLookUp(s, t) && ForPending(s, s.flow[t].id, s.flow[t].data)
    ensures var now := LookUpAndSend(s, t);
            var handled := Loader.Handle(ViewOf(s, signals), rs, ms, Adapters.ApiMessage(s.flow[t].id, s.flow[t].data));
            && ViewOf(now, signals).pending == handled.view.pending && now.readyReceived == handled.view.readyReceived
            && now.pending == s.pending
  {
    PendingIsFilled(s, t);
    HandlePending(s, t, signals, rs, ms);
    ViewOfFilled(s, t, signals);
  }
}
