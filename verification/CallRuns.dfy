/** Runs of the correlation protocol that do what they should, and runs that show what its hypotheses are for. */
module CallRuns {
  import opened Wire
  import opened Codec
  import opened Plugin
  import opened Correlation
  import Frames
  import Ids
  import Loader

  lemma ExecSnoc(steps: seq<Step>, step: Step)
    ensures Exec(steps + [step]) == Next(Exec(steps), step)
  {
    assert (steps + [step])[..|steps|] == steps;
  }

  /**
    * The steps of one call that nothing interferes with: up to its registration, its write, the filled
    * channel, and the end.
    */
  function Registering(name: Name, payload: seq<byte>): seq<Step> {
    [Begin(name, payload)] + [Draw(0)] + [Check(0)] + [Register(0, false)]
  }

  function Sending(name: Name, payload: seq<byte>): seq<Step> {
    Registering(name, payload) + [Write(0, Whole, true)]
  }

  function Answering(name: Name, payload: seq<byte>, outcome: Outcome): seq<Step> {
    Sending(name, payload) + [Take(0)] + [Work(0, outcome)] + [Lookup(0)] + [Send(0)]
  }

  function Undisturbed(name: Name, payload: seq<byte>, outcome: Outcome): seq<Step> {
    Answering(name, payload, outcome) + [Receive(0)] + [Unregister(0)]
  }

  function FirstCall(name: Name, payload: seq<byte>, phase: Phase): Call {
    Call(name, payload, 1, phase, Loader.Empty, 0)
  }

  lemma RegisteringRun(name: Name, payload: seq<byte>)
    ensures Exec(Registering(name, payload)) ==
            State(1, [FirstCall(name, payload, Registered)], map[1 := 0], [], map[], false, false)
  {
    var s := [Begin(name, payload)];
    ExecSnoc([], s[0]);
    assert [] + s == s;
    assert Exec(s) == State(0, [FirstCall(name, payload, Drawing(0)).(ticket := 0)], map[], [], map[], false, false);
    ExecSnoc(s, Draw(0));
    s := s + [Draw(0)];
    assert Exec(s) == State(1, [FirstCall(name, payload, Checking(0))], map[], [], map[], false, false);
    ExecSnoc(s, Check(0));
    s := s + [Check(0)];
    assert Exec(s) == State(1, [FirstCall(name, payload, Drawn)], map[], [], map[], false, false);
    ExecSnoc(s, Register(0, false));
  }

  lemma WriteOne(name: Name, payload: seq<byte>, wire: Trace, ok: bool, data: seq<byte>)
    requires OnWire(wire, Encode(Request(name, payload))) == Some(data) && |data| <= Frames.MAX_LENGTH
    ensures Next(State(1, [FirstCall(name, payload, Registered)], map[1 := 0], [], map[], false, false),
                 Write(0, wire, ok))
         == OneCall(FirstCall(name, payload, if ok && !wire.Part? then Waiting else Leaving(Failure)),
                    Token(0, 1, data, ToModule), map[])
  {
    var call := FirstCall(name, payload, Registered);
    var now := call.(phase := if ok && !wire.Part? then Waiting else Leaving(Failure));
    assert [call][0 := now] == [now];
  }

  lemma SendingRun(name: Name, payload: seq<byte>)
    requires |Encode(Request(name, payload))| <= Frames.MAX_LENGTH
    ensures Exec(Sending(name, payload)) ==
            OneCall(FirstCall(name, payload, Waiting), Token(0, 1, Encode(Request(name, payload)), ToModule), map[])
  {
    RegisteringRun(name, payload);
    ExecSnoc(Registering(name, payload), Write(0, Whole, true));
    WriteOne(name, payload, Whole, true, Encode(Request(name, payload)));
  }

  /** The only call, registered under id 1, with its message. */
  function OneCall(call: Call, tok: Token, served: map<nat, Served>): State {
    State(1, [call], map[1 := 0], [tok], served, false, false)
  }

  lemma TakeOne(call: Call, tok: Token)
    requires tok.place.ToModule?
    ensures Next(OneCall(call, tok, map[]), Take(0)) == OneCall(call, tok.(place := AtModule), map[])
  {
    assert [tok][0 := tok.(place := AtModule)] == [tok.(place := AtModule)];
  }

  lemma WorkOne(call: Call, tok: Token, h: Header, outcome: Outcome, data: seq<byte>)
    requires tok.place.AtModule? && tok.origin == 0 && Decode(ZERO_HEADER, tok.data) == Decoded(h, |tok.data|)
    requires !Control(h.name) && data == Encode(Respond(h.name, outcome)) && |data| <= Frames.MAX_LENGTH
    ensures Next(OneCall(call, tok, map[]), Work(0, outcome))
         == OneCall(call, tok.(data := data, place := ToLoader), map[0 := Served(h, outcome)])
  {
    assert map[][0 := Served(h, outcome)] == map[0 := Served(h, outcome)];
    assert [tok][0 := tok.(data := data, place := ToLoader)] == [tok.(data := data, place := ToLoader)];
  }

  lemma LookupThenSend(call: Call, tok: Token, h: Header, served: map<nat, Served>)
    requires tok.place.ToLoader? && tok.id == 1 && Decode(ZERO_HEADER, tok.data) == Decoded(h, |tok.data|)
    requires (h.messageType == RESPONSE || h.messageType == ERROR) && !Captured(false, h.name) && call.chan.Empty?
    ensures Next(Next(OneCall(call, tok, served), Lookup(0)), Send(0))
         == OneCall(call.(chan := Loader.Holding(tok.data), fills := call.fills + 1), tok.(place := Gone), served)
  {
    var s := OneCall(call, tok, served);
    var found := tok.(place := AtLoader(0));
    assert [tok][0 := found] == [found];
    assert Next(s, Lookup(0)) == OneCall(call, found, served);
    assert [found][0 := tok.(place := Gone)] == [tok.(place := Gone)];
    var filled := call.(chan := Loader.Holding(tok.data), fills := call.fills + 1);
    assert [call][0 := filled] == [filled];
  }

  lemma ReceiveThenUnregister(call: Call, tok: Token, h: Header, served: map<nat, Served>)
    requires call.phase.Waiting? && call.chan.Holding? && call.ticket == 1
    requires Decode(ZERO_HEADER, call.chan.data) == Decoded(h, |call.chan.data|)
    ensures var s := Next(Next(OneCall(call, tok, served), Receive(0)), Unregister(0));
            s.calls == [call.(phase := Returned(Interpret(h)), chan := Loader.Empty)] && s.pending == map[]
  {
    var left := call.(phase := Leaving(Interpret(h)), chan := Loader.Empty);
    assert [call][0 := left] == [left];
    assert Next(OneCall(call, tok, served), Receive(0)) == OneCall(left, tok, served);
  }

  lemma AnsweringRun(name: Name, payload: seq<byte>, outcome: Outcome)
    requires |Encode(Request(name, payload))| <= Frames.MAX_LENGTH
             && |Encode(Respond(name, outcome))| <= Frames.MAX_LENGTH
    requires !Control(name) && !Captured(false, name)
    ensures var data := Encode(Respond(name, outcome));
            Exec(Answering(name, payload, outcome)) ==
            OneCall(FirstCall(name, payload, Waiting).(chan := Loader.Holding(data), fills := 1),
                    Token(0, 1, data, Gone), map[0 := Served(Request(name, payload), outcome)])
  {
    var request, response := Request(name, payload), Respond(name, outcome);
    SmallIsShort(request);
    SmallIsShort(response);
    RespondShape(name, outcome);
    SendingRun(name, payload);
    var s, call := Sending(name, payload), FirstCall(name, payload, Waiting);
    var tok := Token(0, 1, Encode(request), ToModule);
    ExecSnoc(s, Take(0));
    ExecSnoc(s + [Take(0)], Work(0, outcome));
    TakeOne(call, tok);
    WorkOne(call, tok.(place := AtModule), request, outcome, Encode(response));
    ExecSnoc(s + [Take(0)] + [Work(0, outcome)], Lookup(0));
    ExecSnoc(s + [Take(0)] + [Work(0, outcome)] + [Lookup(0)], Send(0));
    LookupThenSend(call, Token(0, 1, Encode(response), ToLoader), response, map[0 := Served(request, outcome)]);
  }

  /** The promises above are not empty: undisturbed, a call within the size limit returns its handler's answer. */
  lemma UndisturbedCallSucceeds(name: Name, payload: seq<byte>, outcome: Outcome)
    requires |Encode(Request(name, payload))| <= Frames.MAX_LENGTH
             && |Encode(Respond(name, outcome))| <= Frames.MAX_LENGTH
    requires !Control(name) && !Captured(false, name)
    ensures var s := Exec(Undisturbed(name, payload, outcome));
            && |s.calls| == 1 && s.pending == map[] && s.calls[0].phase.Returned?
            && (match outcome
                case Answer(p, isError) => s.calls[0].phase.result == if isError then PluginError(p) else Payload(p)
                case _ => s.calls[0].phase.result.PluginError?)
  {
    var response := Respond(name, outcome);
    var data := Encode(response);
    SmallIsShort(response);
    AnsweringRun(name, payload, outcome);
    var s := Answering(name, payload, outcome);
    ExecSnoc(s, Receive(0));
    ExecSnoc(s + [Receive(0)], Unregister(0));
    ReceiveThenUnregister(FirstCall(name, payload, Waiting).(chan := Loader.Holding(data), fills := 1),
                          Token(0, 1, data, Gone), response, map[0 := Served(Request(name, payload), outcome)]);
  }

  /** A call that draws ids until one is free, with `left` attempts to go and nothing between them. */
  function Probe(s: State, c: nat, left: nat): State
    decreases left
  {
    if c >= |s.calls| || !s.calls[c].phase.Drawing? then s
    else if left == 0 then Next(s, Fallback(c))
    else Probe(Next(Next(s, Draw(c)), Check(c)), c, left - 1)
  }

  lemma ProbeOnce(s: State, c: nat)
    requires c < |s.calls| && s.calls[c].phase.Drawing? && s.calls[c].phase.attempt < Ids.MAX_ATTEMPTS
    ensures var call, id := s.calls[c].(ticket := s.draws + 1), (s.draws + 1) % WORD32;
            Next(Next(s, Draw(c)), Check(c)) ==
            s.(draws := s.draws + 1,
               calls := s.calls[c := call.(phase := if Ids.Free(id, s.pending.Keys) then Drawn
                                                    else Drawing(call.phase.attempt + 1))])
  {
    var checking := s.calls[c].(ticket := s.draws + 1, phase := Checking(s.calls[c].phase.attempt));
    assert Next(s, Draw(c)) == s.(draws := s.draws + 1, calls := s.calls[c := checking]);
  }

  /** The draws and checks of a call that nothing comes between are the loader's generator, its fallback included. */
  lemma {:induction false} ProbingIsGenerate(s: State, c: nat, left: nat)
    requires c < |s.calls| && left <= Ids.MAX_ATTEMPTS && s.calls[c].phase == Drawing(Ids.MAX_ATTEMPTS - left)
    ensures var now := Probe(s, c, left);
            && |now.calls| == |s.calls| && now.calls[c].phase.Drawn?
            && IdOf(now.calls[c]) == Ids.Generate(s.draws % WORD32, s.pending.Keys, left) == now.draws % WORD32
            && now == s.(draws := now.draws, calls := s.calls[c := now.calls[c]])
    decreases left
  {
    if left > 0 {
      ProbeOnce(s, c);
      var next := Next(Next(s, Draw(c)), Check(c));
      assert Ids.Advance(s.draws % WORD32, 1) == (s.draws + 1) % WORD32;
      if next.calls[c].phase.Drawing? {
        ProbingIsGenerate(next, c, left - 1);
        var last := Probe(next, c, left - 1).calls[c];
        assert next.calls[c := last] == s.calls[c := last];
      }
    }
  }

  /** The other ways a call ends without a response: a closed loader, a failed write, a closed channel, a context. */
  lemma CallFails(s: State, c: nat, wire: Trace)
    requires c < |s.calls|
    ensures s.calls[c].phase.Drawn? ==>
              var now := CallStep(s, c, Register(c, true));
              now == s.(calls := s.calls[c := s.calls[c].(phase := Returned(Failure))])
    ensures s.calls[c].phase.Registered? ==>
              |CallStep(s, c, Write(c, wire, false)).calls| == |s.calls|
              && CallStep(s, c, Write(c, wire, false)).calls[c].phase == Leaving(Failure)
    ensures s.calls[c].phase.Waiting? ==>
              && CallStep(s, c, GiveUp(c)) == s.(calls := s.calls[c := s.calls[c].(phase := Leaving(Failure))])
              && (s.calls[c].chan.Closed? ==> CallStep(s, c, Receive(c)) == CallStep(s, c, GiveUp(c)))
  {
  }

  /**
   The loader stops while a call waits: the call fails at once if its channel was empty, and goes on waiting, for its
   context to end, if its response had come but was not taken yet.
   */
  lemma StopEndsWaitIff(s: State, c: nat)
    requires c < |s.calls| && s.calls[c].phase.Waiting?
    requires IdOf(s.calls[c]) in s.pending && s.pending[IdOf(s.calls[c])] == c
    ensures var now := Next(Next(s, Stop), Receive(c));
            && |now.calls| == |s.calls| && now.pending == map[]
            && now.calls[c].phase == (if s.calls[c].chan.Holding? then Waiting else Leaving(Failure))
            && Next(now, GiveUp(c)).calls[c].phase == Leaving(Failure)
  {
  }

  // ---- A request cut in its writing ----

  /** The write is cancelled after `k` bytes, and a module in shutdown rejects what arrives of it. */
  function CutShort(name: Name, payload: seq<byte>, k: nat): seq<Step> {
    Registering(name, payload) + [Write(0, Part(k), false)] + [Take(0)] + [Work(0, Draining)] + [Lookup(0)] + [Send(0)]
  }

  lemma RejectOne(call: Call, tok: Token, part: Header, data: seq<byte>)
    requires tok.place.AtModule? && tok.origin == 0 && Decode(ZERO_HEADER, tok.data) == Malformed(part)
    requires data == Encode(Respond(part.name, Draining)) && |data| <= Frames.MAX_LENGTH
    ensures Next(OneCall(call, tok, map[]), Work(0, Draining))
         == OneCall(call, tok.(data := data, place := ToLoader), map[0 := Served(part, Draining)])
  {
    assert [tok][0 := tok.(data := data, place := ToLoader)] == [tok.(data := data, place := ToLoader)];
  }

  lemma CutRun(name: Name, payload: seq<byte>, k: nat, part: Header, data: seq<byte>)
    requires k < |Encode(Request(name, payload))| && k <= Frames.MAX_LENGTH
    requires Decode(ZERO_HEADER, Encode(Request(name, payload))[..k]) == Malformed(part)
    requires data == Encode(Respond(part.name, Draining)) && |data| <= Frames.MAX_LENGTH
    ensures Exec(Registering(name, payload) + [Write(0, Part(k), false)] + [Take(0)] + [Work(0, Draining)]) ==
            OneCall(FirstCall(name, payload, Leaving(Failure)), Token(0, 1, data, ToLoader),
                    map[0 := Served(part, Draining)])
  {
    var cut := Encode(Request(name, payload))[..k];
    var call, s := FirstCall(name, payload, Leaving(Failure)), Registering(name, payload);
    var tok := Token(0, 1, cut, ToModule);
    RegisteringRun(name, payload);
    ExecSnoc(s, Write(0, Part(k), false));
    WriteOne(name, payload, Part(k), false, cut);
    s := s + [Write(0, Part(k), false)];
    ExecSnoc(s, Take(0));
    TakeOne(call, tok);
    ExecSnoc(s + [Take(0)], Work(0, Draining));
    RejectOne(call, tok.(place := AtModule), part, data);
  }

  /** The rejection gets as far as the call's channel. The call has failed, and does not look at it any more. */
  lemma CutRequestIsRejected(name: Name, payload: seq<byte>, k: nat)
    requires Short(Request(name, payload)) && k < |Encode(Request(name, payload))| && k <= Frames.MAX_LENGTH
    requires |Encode(Respond(name, Draining))| <= Frames.MAX_LENGTH && !Captured(false, name)
    ensures var call := Exec(CutShort(name, payload, k)).calls;
            |call| == 1 && call[0].phase == Leaving(Failure) && call[0].chan.Holding?
            && (call[0].chan.data == Encode(Respond([], Draining))
                || call[0].chan.data == Encode(Respond(name, Draining)))
  {
    var h, cut := Request(name, payload), Encode(Request(name, payload))[..k];
    NameInPrefix(ZERO_HEADER, h, k);
    assert !Captured(false, []);
    var part := Decode(ZERO_HEADER, cut).partial;
    var reply := Respond(part.name, Draining);
    assert |Encode(reply)| <= |Encode(Respond(name, Draining))|;
    SmallIsShort(reply);
    RespondShape(part.name, Draining);
    CutRun(name, payload, k, part, Encode(reply));
    var s := Registering(name, payload) + [Write(0, Part(k), false)] + [Take(0)] + [Work(0, Draining)];
    ExecSnoc(s, Lookup(0));
    ExecSnoc(s + [Lookup(0)], Send(0));
    LookupThenSend(FirstCall(name, payload, Leaving(Failure)), Token(0, 1, Encode(reply), ToLoader), reply,
                   map[0 := Served(part, Draining)]);
  }

  // ---- A message that answers no call ----

  lemma ForeignOne(call: Call, tok: Token, h: Header, data: seq<byte>)
    requires call.phase.Waiting? && call.chan.Empty? && call.ticket == 1 && tok.place.ToModule?
    requires Decode(ZERO_HEADER, data) == Decoded(h, |data|)
    requires (h.messageType == RESPONSE || h.messageType == ERROR) && !Captured(false, h.name)
    ensures var end := Next(Next(OneCall(call, tok, map[]), Foreign(1, data)), Receive(0));
            |end.calls| == 1 && end.calls[0].phase == Leaving(Interpret(h)) && end.served == map[]
  {
    var s, filled := OneCall(call, tok, map[]), call.(chan := Loader.Holding(data), fills := call.fills + 1);
    assert ForPending(s, 1, data) && !LoopBusy(s);
    assert [call][0 := filled] == [filled];
    assert Next(s, Foreign(1, data)) == OneCall(filled, tok, map[]);
  }

  /**
   Why confusion is excluded: any message of type Response or Error that the module sends of its own accord under a
   pending id ends the call with that message's content, although its request was never served.
   */
  lemma ForeignMisleads(name: Name, payload: seq<byte>, h: Header)
    requires |Encode(Request(name, payload))| <= Frames.MAX_LENGTH && Short(h)
    requires (h.messageType == RESPONSE || h.messageType == ERROR) && !Captured(false, h.name)
    ensures var end := Exec(Sending(name, payload) + [Foreign(1, Encode(h))] + [Receive(0)]);
            && |end.calls| == 1 && end.served == map[]
            && end.calls[0].phase == Leaving(if h.isError then PluginError(h.payload) else Payload(h.payload))
  {
    var s := Sending(name, payload);
    SendingRun(name, payload);
    DecodeOfExactEncode(ZERO_HEADER, h);
    ExecSnoc(s, Foreign(1, Encode(h)));
    ExecSnoc(s + [Foreign(1, Encode(h))], Receive(0));
    ForeignOne(FirstCall(name, payload, Waiting), Token(0, 1, Encode(Request(name, payload)), ToModule), h, Encode(h));
  }
}
