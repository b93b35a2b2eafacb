/** The module of the correlation protocol, whose job is a single step there, is the module of the listening model. */
module Service {
  import opened Codec
  import opened Adapters
  import Plugin
  import Frames
  import Correlation
  import Listening

  /** The message under way to the module is the one the listener took as number `k`. */
  ghost predicate Takes(s: Correlation.State, t: nat, m: Listening.State, k: nat) {
    && t < |s.flow| && s.flow[t].place.AtModule? && k < |m.taken|
    && m.taken[k] == Listening.Read(OldMessage(s.flow[t].id, s.flow[t].data, COMPLETE_KIND))
  }

  /** What the protocol's one step puts on the wire for a message it answers. */
  lemma WorkAnswers(s: Correlation.State, t: nat, outcome: Plugin.Outcome)
    requires t < |s.flow| && s.flow[t].place.AtModule?
    requires var d := Decode(ZERO_HEADER, s.flow[t].data);
             if d.Decoded? then !Plugin.Control(d.header.name) else outcome.Draining?
    ensures var d := Decode(ZERO_HEADER, s.flow[t].data);
            var name := if d.Decoded? then d.header.name else d.partial.name;
            var data, tok := Encode(Plugin.Respond(name, outcome)), s.flow[t];
            var flow := Correlation.TokenStep(s, t, Correlation.Work(t, outcome)).flow;
            && |flow| == |s.flow|
            && flow[t] == if |data| <= Frames.MAX_LENGTH then tok.(data := data, place := Correlation.ToLoader)
                          else tok.(place := Correlation.Gone)
  {
  }

  /**
   Whatever the listener, its jobs and its shutdown do with a request, or with what is left of one, it is answered at
   most once, and that answer is what the correlation protocol's one step puts on the wire for its outcome: same id,
   same bytes, and lost if it is too long to be delivered. Where there is no answer the protocol loses the message.
   */
  lemma WorkIsWhatTheModuleSends(s: Correlation.State, t: nat, steps: seq<Listening.Step>, k: nat)
    requires Takes(s, t, Listening.Exec(Listening.INIT, steps), k)
    requires Listening.Exec(Listening.INIT, steps).taken[k].sort.Ordinary?
    ensures var rs := Listening.RepliesTo(Listening.Exec(Listening.INIT, steps).sent, k);
            && |rs| <= 1
            && (rs != [] ==>
                  && rs[0].Reply? && rs[0].content.Responds?
                  && var tok := Correlation.TokenStep(s, t, Correlation.Work(t, rs[0].content.outcome)).flow[t];
                  && (tok.place.Gone? <==> |Encode(Listening.HeaderOf(rs[0]))| > Frames.MAX_LENGTH)
                  && (!tok.place.Gone?
                      ==> tok.place.ToLoader? && tok.id == rs[0].id && tok.data == Encode(Listening.HeaderOf(rs[0]))))
  {
    Listening.AtMostOneReply(steps, k);
    var m := Listening.Exec(Listening.INIT, steps).taken[k];
    var rs := Listening.RepliesTo(Listening.Exec(Listening.INIT, steps).sent, k);
    var d := Decode(ZERO_HEADER, s.flow[t].data);
    if d.Decoded? {
      assert d.header.name == m.name && !Plugin.Control(m.name);
    } else {
      assert d.partial.name == m.name;
      Listening.UndecodableReachesNoHandler(steps, k);
    }
    if rs != [] {
      WorkAnswers(s, t, rs[0].content.outcome);
      assert Listening.HeaderOf(rs[0]) == Plugin.Respond(m.name, rs[0].content.outcome);
    }
  }
}
