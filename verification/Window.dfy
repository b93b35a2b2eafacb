/**
 The window of 2^32 draws is exactly what keeps responses apart: within it every response is looked up for the
 call that asked, and one draw more lets a run put a response into another call's channel.
 */
module Window {
  import opened Wire
  import opened Codec
  import opened Plugin
  import opened Correlation
  import opened CallRuns
  import Frames
  import Loader

  /** If looking up message `t` finds a channel, it is that of the call whose request the message answers. */
  predicate RoutesHome(s: State, t: nat) {
    t < |s.flow| ==>
      var now := TokenStep(s, t, Lookup(t)).flow;
      t < |now| && now[t].place.AtLoader? ==> now[t].place.chan == now[t].origin
  }

  /** A step that is none of those the hypotheses speak of. */
  predicate Plain(step: Step) {
    !step.Fallback? && !step.Lookup? && !step.Foreign?
  }

  predicate AllPlain(more: seq<Step>) {
    forall i :: 0 <= i < |more| ==> Plain(more[i])
  }

  lemma {:induction false} OrderlyAppend(steps: seq<Step>, more: seq<Step>, window: nat)
    requires Orderly(steps, window) && AllPlain(more)
    ensures Orderly(steps + more, window)
  {
    if more == [] {
      assert steps + more == steps;
    } else {
      var before := more[..|more| - 1];
      OrderlyAppend(steps, before, window);
      assert (steps + more)[..|steps + more| - 1] == steps + before;
      assert Plain(more[|more| - 1]);
    }
  }

  /** The run goes on from a state. */
  function From(s: State, more: seq<Step>): State {
    if more == [] then s else Next(From(s, more[..|more| - 1]), more[|more| - 1])
  }

  lemma {:induction false} ExecAppend(steps: seq<Step>, more: seq<Step>)
    ensures Exec(steps + more) == From(Exec(steps), more)
  {
    if more == [] {
      assert steps + more == steps;
    } else {
      ExecAppend(steps, more[..|more| - 1]);
      assert (steps + more)[..|steps + more| - 1] == steps + more[..|more| - 1];
    }
  }

  lemma FromSnoc(s: State, more: seq<Step>, step: Step)
    ensures From(s, more + [step]) == Next(From(s, more), step)
  {
    assert (more + [step])[..|more|] == more;
  }

  lemma FromTwo(s: State, more: seq<Step>, one: Step, two: Step)
    ensures From(s, more + [one] + [two]) == Next(Next(From(s, more), one), two)
  {
    FromSnoc(s, more, one);
    FromSnoc(s, more + [one], two);
  }

  lemma {:induction false} SmallerWindow(steps: seq<Step>, small: nat, large: nat)
    requires Orderly(steps, small) && small <= large
    ensures Orderly(steps, large)
  {
    if steps != [] {
      SmallerWindow(steps[..|steps| - 1], small, large);
    }
  }

  lemma WithinWindowRoutesHome(steps: seq<Step>, t: nat, window: nat)
    requires Orderly(steps + [Lookup(t)], window) && window <= WORD32
    ensures RoutesHome(Exec(steps), t)
  {
    SmallerWindow(steps + [Lookup(t)], window, WORD32);
    assert (steps + [Lookup(t)])[..|steps|] == steps;
    RunKeepsInv(steps);
    var s := Exec(steps);
    if t < |s.flow| {
      LookupKeepsInv(s, t);
      var now := TokenStep(s, t, Lookup(t));
      assert TokenOk(now.flow[t], now.calls, now.served);
    }
  }

  // ---- A call whose context has ended already spends one id and leaves no trace ----

  /** As many calls as draws; the first call's answer is on its way, and nothing is pending. */
  ghost predicate Idle(s: State, first: Call, tok: Token, served: map<nat, Served>) {
    && |s.calls| == s.draws && 0 < s.draws && s.calls[0] == first
    && s.pending == map[] && s.flow == [tok] && s.served == served && !s.readyReceived && !s.stopped
  }

  function With(s: State, draws: nat, call: Call, pending: map<uint32, nat>): State {
    s.(draws := draws, calls := s.calls + [call], pending := pending)
  }

  lemma LastCall(calls: seq<Call>, before: Call, after: Call)
    ensures (calls + [before])[|calls|] == before && (calls + [before])[|calls| := after] == calls + [after]
  {
  }

  lemma DrawFirst(s: State, name: Name, payload: seq<byte>)
    requires s.pending == map[]
    ensures Next(Next(s, Begin(name, payload)), Draw(|s.calls|))
         == With(s, s.draws + 1, Call(name, payload, s.draws + 1, Checking(0), Loader.Empty, 0), map[])
  {
    var call := Call(name, payload, 0, Drawing(0), Loader.Empty, 0);
    assert Next(s, Begin(name, payload)) == With(s, s.draws, call, map[]);
    LastCall(s.calls, call, call.(ticket := s.draws + 1, phase := Checking(0)));
  }

  /** A new call draws its first id. */
  lemma BeginThenDraw(s: State, name: Name, payload: seq<byte>)
    requires s.pending == map[]
    ensures From(s, [] + [Begin(name, payload)] + [Draw(|s.calls|)])
         == With(s, s.draws + 1, Call(name, payload, s.draws + 1, Checking(0), Loader.Empty, 0), map[])
  {
    DrawFirst(s, name, payload);
    FromTwo(s, [], Begin(name, payload), Draw(|s.calls|));
  }

  lemma CheckThenRegister(s: State, more: seq<Step>, draws: nat, call: Call)
    requires From(s, more) == With(s, draws, call, map[]) && call.phase.Checking? && IdOf(call) != 0
    ensures From(s, more + [Check(|s.calls|)] + [Register(|s.calls|, false)])
         == With(s, draws, call.(phase := Registered), map[IdOf(call) := |s.calls|])
  {
    var c, drawn := |s.calls|, call.(phase := Drawn);
    FromTwo(s, more, Check(c), Register(c, false));
    LastCall(s.calls, call, drawn);
    assert Next(With(s, draws, call, map[]), Check(c)) == With(s, draws, drawn, map[]);
    LastCall(s.calls, drawn, call.(phase := Registered));
  }

  lemma WriteThenUnregister(s: State, more: seq<Step>, draws: nat, call: Call)
    requires From(s, more) == With(s, draws, call, map[IdOf(call) := |s.calls|]) && call.phase.Registered?
    ensures From(s, more + [Write(|s.calls|, Nothing, false)] + [Unregister(|s.calls|)])
         == With(s, draws, call.(phase := Returned(Failure)), map[])
  {
    var c, left := |s.calls|, call.(phase := Leaving(Failure));
    FromTwo(s, more, Write(c, Nothing, false), Unregister(c));
    LastCall(s.calls, call, left);
    assert Next(With(s, draws, call, map[IdOf(call) := c]), Write(c, Nothing, false))
        == With(s, draws, left, map[IdOf(call) := c]);
    LastCall(s.calls, left, call.(phase := Returned(Failure)));
    assert map[IdOf(call) := c] - {IdOf(call)} == map[];
  }

  /** The six steps of such a call, the `c`-th. */
  function Spending(c: nat): seq<Step> {
    [] + [Begin([], [])] + [Draw(c)] + [Check(c)] + [Register(c, false)] + [Write(c, Nothing, false)] + [Unregister(c)]
  }

  /** The call it leaves behind. */
  function Spent(draws: nat): Call {
    Call([], [], draws + 1, Returned(Failure), Loader.Empty, 0)
  }

  lemma SpendOne(s: State)
    requires s.pending == map[] && s.draws + 1 < WORD32
    ensures From(s, Spending(|s.calls|)) == With(s, s.draws + 1, Spent(s.draws), map[])
  {
    var c, call := |s.calls|, Call([], [], s.draws + 1, Checking(0), Loader.Empty, 0);
    SmallIdIsTicket(call);
    BeginThenDraw(s, [], []);
    var drawn := [] + [Begin([], [])] + [Draw(c)];
    CheckThenRegister(s, drawn, s.draws + 1, call);
    var registered := drawn + [Check(c)] + [Register(c, false)];
    WriteThenUnregister(s, registered, s.draws + 1, call.(phase := Registered));
  }

  lemma SmallIdIsTicket(call: Call)
    requires call.ticket < WORD32
    ensures IdOf(call) == call.ticket
  {
  }

  lemma IdleKept(s: State, call: Call, first: Call, tok: Token, served: map<nat, Served>)
    requires Idle(s, first, tok, served)
    ensures Idle(With(s, s.draws + 1, call, map[]), first, tok, served)
  {
  }

  lemma SpendingIsPlain(c: nat)
    ensures AllPlain(Spending(c))
  {
    assert |Spending(c)| == 6;
  }

  lemma PlainAppend(a: seq<Step>, b: seq<Step>)
    requires AllPlain(a) && AllPlain(b)
    ensures AllPlain(a + b)
  {
  }

  lemma FromGrows(s: State, a: seq<Step>, t: State, b: seq<Step>, step: Step)
    requires From(s, a) == From(t, b)
    ensures From(s, a + [step]) == From(t, b + [step])
  {
    FromSnoc(s, a, step);
    FromSnoc(t, b, step);
  }

  lemma {:induction false} FromAppend(s: State, a: seq<Step>, b: seq<Step>)
    ensures From(s, a + b) == From(From(s, a), b)
  {
    if b == [] {
      assert a + b == a;
    } else {
      var before, last := b[..|b| - 1], b[|b| - 1];
      assert b == before + [last] && a + b == (a + before) + [last];
      FromAppend(s, a, before);
      FromGrows(s, a + before, From(s, a), before, last);
    }
  }

  lemma SpendMore(s: State, first: Call, tok: Token, served: map<nat, Served>) returns (more: seq<Step>)
    requires Idle(s, first, tok, served) && s.draws + 1 < WORD32
    ensures AllPlain(more) && Idle(From(s, more), first, tok, served) && From(s, more).draws == s.draws + 1
  {
    more := Spending(|s.calls|);
    SpendingIsPlain(|s.calls|);
    SpendOne(s);
    IdleKept(s, Spent(s.draws), first, tok, served);
  }

  /** `n` such calls one after the other. */
  lemma {:induction false} SpendAll(s: State, n: nat, first: Call, tok: Token, served: map<nat, Served>)
      returns (more: seq<Step>)
    requires Idle(s, first, tok, served) && s.draws + n < WORD32
    ensures AllPlain(more) && Idle(From(s, more), first, tok, served) && From(s, more).draws == s.draws + n
  {
    if n == 0 {
      more := [];
    } else {
      var before := SpendAll(s, n - 1, first, tok, served);
      var last := SpendMore(From(s, before), first, tok, served);
      FromAppend(s, before, last);
      PlainAppend(before, last);
      more := before + last;
    }
  }

  // ---- The run that goes wrong ----

  /** A call whose answer is on its way, and which is given up meanwhile. */
  function GivenUp(name: Name, payload: seq<byte>, outcome: Outcome): seq<Step> {
    Sending(name, payload) + [Take(0)] + [Work(0, outcome)] + [GiveUp(0)] + [Unregister(0)]
  }

  lemma GiveUpOne(call: Call, tok: Token, served: map<nat, Served>)
    requires call.phase.Waiting? && call.ticket == 1
    ensures Next(Next(OneCall(call, tok, served), GiveUp(0)), Unregister(0))
         == OneCall(call.(phase := Returned(Failure)), tok, served).(pending := map[])
  {
    var left := call.(phase := Leaving(Failure));
    assert [call][0 := left] == [left];
    assert Next(OneCall(call, tok, served), GiveUp(0)) == OneCall(left, tok, served);
    assert [left][0 := call.(phase := Returned(Failure))] == [call.(phase := Returned(Failure))];
    assert map[1 := 0] - {1} == map[];
  }

  lemma GivenUpRun(name: Name, payload: seq<byte>, outcome: Outcome)
    requires |Encode(Request(name, payload))| <= Frames.MAX_LENGTH
             && |Encode(Respond(name, outcome))| <= Frames.MAX_LENGTH
    requires !Control(name)
    ensures var s := Exec(GivenUp(name, payload, outcome));
            && s.draws == 1
            && Idle(s, FirstCall(name, payload, Returned(Failure)),
                    Token(0, 1, Encode(Respond(name, outcome)), ToLoader),
                    map[0 := Served(Request(name, payload), outcome)])
  {
    var call, h := FirstCall(name, payload, Waiting), Request(name, payload);
    var tok := Token(0, 1, Encode(h), ToModule);
    SmallIsShort(h);
    SendingRun(name, payload);
    var s := Sending(name, payload);
    ExecSnoc(s, Take(0));
    TakeOne(call, tok);
    s := s + [Take(0)];
    ExecSnoc(s, Work(0, outcome));
    WorkOne(call, tok.(place := AtModule), h, outcome, Encode(Respond(name, outcome)));
    s := s + [Work(0, outcome)];
    ExecSnoc(s, GiveUp(0));
    ExecSnoc(s + [GiveUp(0)], Unregister(0));
    GiveUpOne(call, Token(0, 1, Encode(Respond(name, outcome)), ToLoader), map[0 := Served(h, outcome)]);
  }

  lemma GivenUpIsOrderly(name: Name, payload: seq<byte>, outcome: Outcome, window: nat)
    ensures Orderly(GivenUp(name, payload, outcome), window)
  {
    var run := GivenUp(name, payload, outcome);
    assert |run| == 9;
    assert forall i :: 0 <= i < |run| ==> Plain(run[i]);
    OrderlyAppend([], run, window);
    assert [] + run == run;
  }

  /** The call that draws the id again: the draw of zero is passed over. */
  function Redrawing(c: nat, name: Name, payload: seq<byte>): seq<Step> {
    [] + [Begin(name, payload)] + [Draw(c)] + [Check(c)] + [Draw(c)] + [Check(c)] + [Register(c, false)]
    + [Write(c, Whole, true)]
  }

  lemma PassOverZero(s: State, more: seq<Step>, call: Call)
    requires From(s, more) == With(s, WORD32, call, map[]) && s.draws + 1 == WORD32
    requires call.phase == Checking(0) && call.ticket == WORD32
    ensures From(s, more + [Check(|s.calls|)] + [Draw(|s.calls|)])
         == With(s, WORD32 + 1, call.(ticket := WORD32 + 1, phase := Checking(1)), map[])
  {
    var c, again := |s.calls|, call.(phase := Drawing(1));
    FromTwo(s, more, Check(c), Draw(c));
    LastCall(s.calls, call, again);
    assert Next(With(s, WORD32, call, map[]), Check(c)) == With(s, WORD32, again, map[]);
    LastCall(s.calls, again, call.(ticket := WORD32 + 1, phase := Checking(1)));
  }

  lemma WriteLast(s: State, more: seq<Step>, draws: nat, call: Call, pending: map<uint32, nat>)
    requires From(s, more) == With(s, draws, call, pending) && call.phase.Registered?
    requires |Encode(Request(call.name, call.payload))| <= Frames.MAX_LENGTH
    ensures From(s, more + [Write(|s.calls|, Whole, true)])
         == With(s, draws, call.(phase := Waiting), pending)
            .(flow := s.flow + [Token(|s.calls|, IdOf(call), Encode(Request(call.name, call.payload)), ToModule)])
  {
    FromSnoc(s, more, Write(|s.calls|, Whole, true));
    LastCall(s.calls, call, call.(phase := Waiting));
  }

  /** What a redrawn id leaves behind. */
  ghost predicate Redrawn(s: State, first: Call, tok: Token, name: Name, payload: seq<byte>) {
    var c := WORD32 - 1;
    && |s.calls| == WORD32 && s.calls[0] == first && s.draws == WORD32 + 1 && s.pending == map[1 := c]
    && s.calls[c] == Call(name, payload, WORD32 + 1, Waiting, Loader.Empty, 0)
    && s.flow == [tok] + [Token(c, 1, Encode(Request(name, payload)), ToModule)] && c !in s.served
    && !s.readyReceived && !s.stopped
  }

  /** The state the run leads to, as a record. */
  function AfterRedraw(s: State, name: Name, payload: seq<byte>): State {
    With(s, WORD32 + 1, Call(name, payload, WORD32 + 1, Waiting, Loader.Empty, 0), map[1 := |s.calls|])
    .(flow := s.flow + [Token(|s.calls|, 1, Encode(Request(name, payload)), ToModule)])
  }

  lemma Redraw(s: State, name: Name, payload: seq<byte>)
    requires s.pending == map[] && s.draws == WORD32 - 1
    requires |Encode(Request(name, payload))| <= Frames.MAX_LENGTH
    ensures From(s, Redrawing(|s.calls|, name, payload)) == AfterRedraw(s, name, payload)
  {
    var c, call := |s.calls|, Call(name, payload, WORD32, Checking(0), Loader.Empty, 0);
    var drawn := call.(ticket := WORD32 + 1, phase := Checking(1));
    IdAfterZero(drawn);
    BeginThenDraw(s, name, payload);
    var first := [] + [Begin(name, payload)] + [Draw(c)];
    PassOverZero(s, first, call);
    var second := first + [Check(c)] + [Draw(c)];
    CheckThenRegister(s, second, WORD32 + 1, drawn);
    var third := second + [Check(c)] + [Register(c, false)];
    WriteLast(s, third, WORD32 + 1, drawn.(phase := Registered), map[1 := c]);
  }

  lemma IdAfterZero(call: Call)
    requires call.ticket == WORD32 + 1
    ensures IdOf(call) == 1 && IdOf(call.(phase := Registered)) == 1
  {
  }

  lemma RedrawnAfter(s: State, first: Call, tok: Token, served: map<nat, Served>, name: Name, payload: seq<byte>)
    requires Idle(s, first, tok, served) && s.draws == WORD32 - 1 && WORD32 - 1 !in served
    ensures Redrawn(AfterRedraw(s, name, payload), first, tok, name, payload)
  {
  }

  lemma RedrawMore(s: State, first: Call, tok: Token, served: map<nat, Served>, name: Name, payload: seq<byte>)
    returns (more: seq<Step>)
    requires Idle(s, first, tok, served) && s.draws == WORD32 - 1 && WORD32 - 1 !in served
    requires |Encode(Request(name, payload))| <= Frames.MAX_LENGTH
    ensures AllPlain(more) && Redrawn(From(s, more), first, tok, name, payload)
  {
    more := Redrawing(|s.calls|, name, payload);
    assert |more| == 7;
    Redraw(s, name, payload);
    RedrawnAfter(s, first, tok, served, name, payload);
  }

  /** A run of ordinary steps after which a late answer and a new call share an id. */
  lemma LateAnswer(name: Name, payload: seq<byte>, outcome: Outcome, name': Name, payload': seq<byte>, window: nat)
    returns (run: seq<Step>)
    requires |Encode(Request(name, payload))| <= Frames.MAX_LENGTH
             && |Encode(Respond(name, outcome))| <= Frames.MAX_LENGTH
    requires |Encode(Request(name', payload'))| <= Frames.MAX_LENGTH && !Control(name)
    ensures Orderly(run, window)
    ensures Redrawn(Exec(run), FirstCall(name, payload, Returned(Failure)),
                    Token(0, 1, Encode(Respond(name, outcome)), ToLoader), name', payload')
  {
    var given := GivenUp(name, payload, outcome);
    var first := FirstCall(name, payload, Returned(Failure));
    var tok := Token(0, 1, Encode(Respond(name, outcome)), ToLoader);
    var served := map[0 := Served(Request(name, payload), outcome)];
    GivenUpRun(name, payload, outcome);
    GivenUpIsOrderly(name, payload, outcome, window);
    var spending := SpendAll(Exec(given), WORD32 - 2, first, tok, served);
    ExecAppend(given, spending);
    OrderlyAppend(given, spending, window);
    var redrawing := RedrawMore(Exec(given + spending), first, tok, served, name', payload');
    ExecAppend(given + spending, redrawing);
    OrderlyAppend(given + spending, redrawing, window);
    run := given + spending + redrawing;
  }

  /**
   One lookup made 2^32 draws after its call's own: the answer to the first call is put into the channel of the last
   one, which takes it for its own result although the module never saw its request.
   */
  lemma LateAnswerIsMisrouted(name: Name, payload: seq<byte>, outcome: Outcome, name': Name, payload': seq<byte>,
      window: nat)
    returns (run: seq<Step>)
    requires !Control(name) && !Captured(false, name)
    requires |Encode(Request(name, payload))| <= Frames.MAX_LENGTH
             && |Encode(Respond(name, outcome))| <= Frames.MAX_LENGTH
    requires |Encode(Request(name', payload'))| <= Frames.MAX_LENGTH
    ensures var c := WORD32 - 1;
            var s, end := Exec(run), Exec(run + [Lookup(0)] + [Send(0)] + [Receive(c)]);
            && Orderly(run, window) && !RoutesHome(s, 0)
            && (window > WORD32 ==> Orderly(run + [Lookup(0)], window))
            && |end.calls| == WORD32 && end.calls[c].name == name' && end.calls[c].payload == payload'
            && c !in end.served
            && end.calls[c].phase.Leaving?
            && (match outcome
                case Answer(p, isError) => end.calls[c].phase.result == if isError then PluginError(p) else Payload(p)
                case _ => end.calls[c].phase.result.PluginError?)
  {
    var first, response, c := FirstCall(name, payload, Returned(Failure)), Respond(name, outcome), WORD32 - 1;
    var tok := Token(0, 1, Encode(response), ToLoader);
    run := LateAnswer(name, payload, outcome, name', payload', window);
    SmallIsShort(response);
    RespondShape(name, outcome);
    MisroutedLookup(Exec(run), first, tok, response, name', payload');
    MisroutedReceipt(Exec(run), first, tok, response, name', payload');
    ExecSnoc(run, Lookup(0));
    ExecSnoc(run + [Lookup(0)], Send(0));
    ExecSnoc(run + [Lookup(0)] + [Send(0)], Receive(c));
    assert (run + [Lookup(0)])[..|run|] == run;
  }

  lemma MisroutedLookup(s: State, first: Call, tok: Token, h: Header, name': Name, payload': seq<byte>)
    requires Redrawn(s, first, tok, name', payload') && tok.place.ToLoader? && tok.id == 1 && tok.origin == 0
    requires Decode(ZERO_HEADER, tok.data) == Decoded(h, |tok.data|) && first.ticket == 1
    requires (h.messageType == RESPONSE || h.messageType == ERROR) && !Captured(false, h.name)
    ensures Next(s, Lookup(0)) == WithToken(s, 0, tok.(place := AtLoader(WORD32 - 1))) && !RoutesHome(s, 0)
    ensures forall window: nat :: window > WORD32 ==> WithinWindow(s, window)
  {
  }

  lemma MisroutedReceipt(s: State, first: Call, tok: Token, h: Header, name': Name, payload': seq<byte>)
    requires Redrawn(s, first, tok, name', payload') && Decode(ZERO_HEADER, tok.data) == Decoded(h, |tok.data|)
    ensures var c := WORD32 - 1;
            var end := Next(Next(WithToken(s, 0, tok.(place := AtLoader(c))), Send(0)), Receive(c));
            && |end.calls| == WORD32 && end.served == s.served && end.calls[c].name == name'
            && end.calls[c].payload == payload'
            && end.calls[c].phase == Leaving(Interpret(h))
  {
  }

  /**
   The window is exact: that every lookup made with fewer than `window` draws since the calls concerned finds the
   channel of its own call, in all runs, holds if and only if the window is at most 2^32.
   */
  lemma WindowIsExact(window: nat)
    ensures (forall steps: seq<Step>, t: nat :: Orderly(steps + [Lookup(t)], window) ==> RoutesHome(Exec(steps), t))
            <==> window <= WORD32
  {
    if window <= WORD32 {
      forall steps: seq<Step>, t: nat | Orderly(steps + [Lookup(t)], window) ensures RoutesHome(Exec(steps), t) {
        WithinWindowRoutesHome(steps, t, window);
      }
    } else {
      assert |Encode(Request([], []))| == 10 && |Encode(Respond([], Plugin.Answer([], false)))| == 10;
      assert !Control([]) && !Captured(false, []);
      var run := LateAnswerIsMisrouted([], [], Plugin.Answer([], false), [], [], window);
      assert Orderly(run + [Lookup(0)], window) && !RoutesHome(Exec(run), 0);
    }
  }
}
