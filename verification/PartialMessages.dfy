/**
 What becomes of a strictly partial message on either side. The adapters present it as an ordinary message; the
 loader skips it, and no handler of the module is asked about it. It is not altogether without effect: a module in
 graceful shutdown answers it like any other message.
 */
module PartialMessages {
  import opened Wire
  import opened Frames
  import opened Reader
  import opened Writers
  import opened Interleave
  import opened Adapters
  import Codec
  import Plugin
  import Loader
  import Listening

  /** The `i`-th message on the application channel, after any run of any writers. */
  function OnChannel(v: Variant, jobs: seq<Job>, moves: seq<Move>, i: nat): ApiMessage
    requires i < |Run(v, map[], EncodeAll(Exec(jobs, moves).wire), None).events|
  {
    ToApi(Run(v, map[], EncodeAll(Exec(jobs, moves).wire), None).events[i])
  }

  /** That message comes from a writer that was cut before its last chunk. */
  ghost predicate IsPartial(v: Variant, jobs: seq<Job>, headers: seq<Codec.Header>, moves: seq<Move>, i: nat) {
    && AllSendable(jobs) && ClashFree(jobs, moves) && SendsHeaders(jobs, headers)
    && i < |Run(v, map[], EncodeAll(Exec(jobs, moves).wire), None).events|
    && var s := Exec(jobs, moves);
    && i < |s.ended| && s.ended[i] < |jobs| && s.ended[i] < |s.pcs|
    && !AllChunksSent(jobs[s.ended[i]], s.pcs[s.ended[i]])
  }

  lemma PartialIsMalformed(v: Variant, jobs: seq<Job>, headers: seq<Codec.Header>, moves: seq<Move>, i: nat)
    requires IsPartial(v, jobs, headers, moves, i)
    ensures !Codec.Decodes(OnChannel(v, jobs, moves, i).data)
  {
    OnlyWholeMessagesDecode(v, jobs, headers, moves, i);
  }

  /**
    * On the loader's side: no signal, no pending request and no handler is touched, whatever is pending or
    * registered.
    */
  lemma NeverActsOnLoader(v: Variant, jobs: seq<Job>, headers: seq<Codec.Header>, moves: seq<Move>, i: nat,
                          view: Loader.View, rs: set<Codec.Name>, ms: set<Codec.Name>)
    requires IsPartial(v, jobs, headers, moves, i)
    ensures Loader.Handle(view, rs, ms, OnChannel(v, jobs, moves, i)) == Loader.Handled(view, Loader.Skipped)
  {
    PartialIsMalformed(v, jobs, headers, moves, i);
  }

  /** Nor does any error text of any reader. */
  lemma ErrorsNeverActOnLoader(c: Cause, view: Loader.View, rs: set<Codec.Name>, ms: set<Codec.Name>)
    ensures Loader.Handle(view, rs, ms, ToApi(Failed(c))) == Loader.Handled(view, Loader.Skipped)
  {
    ErrorsNeverDecode(c);
  }

  /** The message as the module's wrapper passes it on. */
  function Wrapped(m: ApiMessage): OldMessage {
    OldMessage(m.sequence, m.data, COMPLETE_KIND)
  }

  /**
   On the module's side, in any run that takes it: no job asks a handler about it, and the only answer it can
   get is the rejection of a module in shutdown, exactly if that was written before the context was cancelled.
   */
  lemma NeverReachesHandler(v: Variant, jobs: seq<Job>, headers: seq<Codec.Header>, moves: seq<Move>, i: nat,
                            steps: seq<Listening.Step>, k: nat)
    requires IsPartial(v, jobs, headers, moves, i)
    requires k < |Listening.Exec(Listening.INIT, steps).taken|
    requires Listening.Exec(Listening.INIT, steps).taken[k] == Listening.Read(Wrapped(OnChannel(v, jobs, moves, i)))
    ensures var s := Listening.Exec(Listening.INIT, steps);
            && (forall j :: 0 <= j < |s.jobs| && s.jobs[j].origin == k ==> Listening.AsksNobody(s.jobs[j]))
            && (Listening.RepliesTo(s.sent, k) != [] <==> Listening.FateAt(s, k) == Listening.Refused(false))
  {
    PartialIsMalformed(v, jobs, headers, moves, i);
    Listening.UndecodableReachesNoHandler(steps, k);
  }

  // ---- The one effect it has ----

  /**
   A message that does not decode, taken in a pass nothing interferes with, is answered exactly if the module is in
   graceful shutdown, not forced, and its context still alive; the code looks at the flags without looking at the error.
   */
  lemma UndecodableIsAnsweredIff(s: Listening.State, m: OldMessage)
    requires Listening.Inv(s) && s.pc.Ready? && !Codec.Decodes(m.data)
    ensures var now, k := Listening.PassOf(s, m), |s.taken|;
            && (Listening.RepliesTo(now.sent, k) != [] <==> s.flags.shutdown && !s.flags.force && !s.flags.cancelled)
            && (Listening.RepliesTo(now.sent, k) != [] ==>
                  Listening.RepliesTo(now.sent, k)
                  == [Listening.Reply(k, m.id, Listening.Responds(Listening.Read(m).name, Plugin.Draining))])
  {
    var taking := Listening.Next(s, Listening.Take(m));
    var checked := Listening.Next(taking, Listening.Advance);
    var decided := Listening.Next(checked, Listening.Advance);
    Listening.NextKeepsInv(s, Listening.Take(m));
    Listening.NextKeepsInv(taking, Listening.Advance);
    Listening.NextKeepsInv(checked, Listening.Advance);
    Listening.NextKeepsInv(decided, Listening.Advance);
    var now, k := Listening.PassOf(s, m), |s.taken|;
    FateOfUndecodable(s, m);
    assert Listening.MessageOk(k, now.taken, now.fates, now.jobs, now.sent);
    if now.fates[k].Accepted? {
      assert now.jobs[now.fates[k].job].phase.Started?;
    }
  }

  lemma FateOfUndecodable(s: Listening.State, m: OldMessage)
    requires s.pc.Ready? && |s.fates| == |s.taken| && !Codec.Decodes(m.data)
    ensures var now, k := Listening.PassOf(s, m), |s.taken|;
            && |now.taken| == |now.fates| == k + 1 && now.taken[k] == Listening.Read(m)
            && now.fates[k] == (if s.flags.force then Listening.Left
                                else if s.flags.shutdown then Listening.Refused(s.flags.cancelled)
                                else Listening.Accepted(|s.jobs|))
            && (!s.flags.force && !s.flags.shutdown ==> now.jobs == s.jobs + [Listening.Job(k, Listening.Started)])
  {
    var in_ := Listening.Read(m);
    assert in_.sort.Ordinary?;
    var taking := s.(taken := s.taken + [in_], fates := s.fates + [Listening.Open], pc := Listening.Checking);
    assert Listening.Next(s, Listening.Take(m)) == taking;
    if !s.flags.force {
      assert Listening.Next(taking, Listening.Advance) == taking.(pc := Listening.Deciding);
    }
  }

  /** After a shutdown message, and with no job active, any such message is rejected under its own id. */
  lemma UndecodableIsRejected(shut: OldMessage, part: OldMessage)
    requires Listening.Read(shut).sort.Graceful? && !Codec.Decodes(part.data)
    ensures var s := Listening.PassOf(Listening.PassOf(Listening.INIT, shut), part);
            Listening.RepliesTo(s.sent, 1)
            == [Listening.Reply(1, part.id, Listening.Responds(Listening.Read(part).name, Plugin.Draining))]
  {
    var s := Listening.PassOf(Listening.INIT, shut);
    Listening.ShutdownPass(shut);
    Listening.InitHolds();
    Listening.RunKeepsInv(Listening.INIT, []);
    Listening.NextKeepsInv(Listening.INIT, Listening.Take(shut));
    Listening.NextKeepsInv(Listening.Next(Listening.INIT, Listening.Take(shut)), Listening.Advance);
    Listening.NextKeepsInv(Listening.Next(Listening.Next(Listening.INIT, Listening.Take(shut)), Listening.Advance),
        Listening.Advance);
    UndecodableIsAnsweredIff(s, part);
  }

  /**
    * And that rejection is taken for the response of whatever request is pending under the id, unless its
    * name is captured.
    */
  lemma RejectionReachesPendingCall(part: OldMessage, view: Loader.View, rs: set<Codec.Name>, ms: set<Codec.Name>)
    requires part.id != 0 && part.id in view.pending && view.pending[part.id].Empty?
    requires |Codec.Encode(Plugin.Respond(Listening.Read(part).name, Plugin.Draining))| < WORD32
    ensures var name := Listening.Read(part).name;
            var reply := Listening.Reply(1, part.id, Listening.Responds(name, Plugin.Draining));
            var data := Codec.Encode(Listening.HeaderOf(reply));
            Loader.Handle(view, rs, ms, ApiMessage(part.id, data)).action == Loader.Delivered(part.id)
            <==> !Plugin.Captured(view.readyReceived, name)
  {
    Loader.AnswerIsDeliveredIff(view, rs, ms, part.id, Listening.Read(part).name, Plugin.Draining);
  }
}
