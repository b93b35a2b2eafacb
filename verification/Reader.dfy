/**
 The reader loop shared by the three node types, as a function of the byte stream, and the same
 reader seen one whole frame at a time.
 */
module Reader {
  import opened Wire
  import opened Frames

  /** `Basic` reports a zero-length Data frame of an unknown id; `Counting` readers skip such a frame unseen. */
  datatype Variant = Basic | Counting

  datatype Cause =
    | ContextDone
    | UnexpectedEOF
    | TooLong(length: uint32)
    | AlreadyExists(id: uint32)
    | UnknownFrame(id: uint32)
    | Oversize
    | UnknownKind(kind: byte)

  datatype Event =
    | Complete(id: uint32, data: seq<byte>)
    | Aborted(id: uint32, data: seq<byte>)
    | Failed(cause: Cause)

  /** Partial messages by id. */
  type Pending = map<uint32, seq<byte>>

  datatype Outcome = Outcome(pending: Pending, events: seq<Event>)

  function OnData(v: Variant, p: Pending, f: Frame): Outcome {
    if f.length == 0 && v.Counting? then Outcome(p, [])
    else if f.id !in p then Outcome(p, [Failed(UnknownFrame(f.id))])
    else if f.length == 0 then Outcome(p, [])
    else if |p[f.id]| + f.length > MAX_LENGTH then Outcome(p - {f.id}, [Failed(Oversize)])
    else Outcome(p[f.id := p[f.id] + f.payload], [])
  }

  /** What one frame does to the partial messages and what it emits. */
  function OnFrame(v: Variant, p: Pending, f: Frame): Outcome {
    if f.length > MAX_LENGTH then Outcome(p, [Failed(TooLong(f.length))])
    else if f.kind == START then
      if f.id in p then Outcome(p, [Failed(AlreadyExists(f.id))]) else Outcome(p[f.id := []], [])
    else if f.kind == DATA then OnData(v, p, f)
    else if f.kind == END then
      if f.id in p then Outcome(p - {f.id}, [Complete(f.id, p[f.id])]) else Outcome(p, [Failed(UnknownFrame(f.id))])
    else if f.kind == ABORT then
      if f.id in p then Outcome(p - {f.id}, [Aborted(f.id, p[f.id])]) else Outcome(p, [Failed(UnknownFrame(f.id))])
    else Outcome(p, [Failed(UnknownKind(f.kind))])
  }

  /** Every frame causes at most one event, and this is when it is an error, and which. */
  lemma FrameErrors(v: Variant, p: Pending, f: Frame)
    ensures var es, fits := OnFrame(v, p, f).events, f.length <= MAX_LENGTH;
            && |es| <= 1
            && (es == [Failed(TooLong(f.length))] <==> !fits)
            && (es == [Failed(AlreadyExists(f.id))] <==> fits && f.kind == START && f.id in p)
            && (es == [Failed(UnknownFrame(f.id))] <==>
                  fits && f.id !in p
                  && (f.kind == END || f.kind == ABORT || (f.kind == DATA && (v.Basic? || f.length > 0))))
            && (es == [Failed(Oversize)] <==>
                  fits && f.kind == DATA && f.length > 0 && f.id in p && |p[f.id]| + f.length > MAX_LENGTH)
            && (es == [Failed(UnknownKind(f.kind))] <==>
                  fits && f.kind != START && f.kind != DATA && f.kind != END && f.kind != ABORT)
            && (es != [] && es[0].Failed? ==>
                  es[0].cause in {TooLong(f.length), AlreadyExists(f.id), UnknownFrame(f.id), Oversize,
                                  UnknownKind(f.kind)})
  {
  }

  function ReadFrames(v: Variant, p: Pending, fs: seq<Frame>): Outcome
    decreases |fs|
  {
    if fs == [] then Outcome(p, [])
    else
      var first := OnFrame(v, p, fs[0]);
      var later := ReadFrames(v, first.pending, fs[1..]);
      Outcome(later.pending, first.events + later.events)
  }

  /** One pass of the loop body; `Stop` is the silent return at a clean end of input. */
  datatype Iteration = Stop | Next(outcome: Outcome, rest: seq<byte>)

  function Iterate(v: Variant, p: Pending, b: seq<byte>): (r: Iteration)
    ensures r.Next? ==> |r.rest| < |b|
  {
    if HasFrame(b) then Next(OnFrame(v, p, FirstFrame(b)), b[FrameSize(b)..])
    else if b == [] || |b| == HEADER_SIZE then Stop
    else Next(Outcome(p, [Failed(UnexpectedEOF)]), [])
  }

  /** The same pass once its header has been read. */
  function AfterHeader(v: Variant, p: Pending, kind: byte, id: uint32, length: uint32, rest: seq<byte>): Iteration {
    var n := PayloadSize(kind, length);
    if n <= |rest| then Next(OnFrame(v, p, Frame(kind, id, length, rest[..n])), rest[n..])
    else if rest == [] then Stop
    else Next(Outcome(p, [Failed(UnexpectedEOF)]), [])
  }

  lemma IterateAfterHeader(v: Variant, p: Pending, b: seq<byte>)
    requires |b| >= HEADER_SIZE
    ensures Iterate(v, p, b) == AfterHeader(v, p, HeaderKind(b), HeaderId(b), HeaderLength(b), b[HEADER_SIZE..])
  {
    var rest, n := b[HEADER_SIZE..], PayloadSize(HeaderKind(b), HeaderLength(b));
    if n <= |rest| {
      assert rest[..n] == b[HEADER_SIZE..FrameSize(b)];
      assert rest[n..] == b[FrameSize(b)..];
    }
  }

  /** The whole loop; `Some(k)` cancels the context so that the poll of pass `k` sees it. */
  function Run(v: Variant, p: Pending, b: seq<byte>, cancel: Option<nat>): Outcome
    decreases |b|
  {
    if cancel == Some(0) then Outcome(p, [Failed(ContextDone)])
    else match Iterate(v, p, b)
      case Stop => Outcome(p, [])
      case Next(o, rest) =>
        var later := Run(v, o.pending, rest, if cancel.Some? then Some(cancel.value - 1) else None);
        Outcome(later.pending, o.events + later.events)
  }

  /** `Some(k)` counts the polls that still see the context alive. */
  function Later(cancel: Option<nat>): Option<nat>
    requires cancel != Some(0)
  {
    if cancel.Some? then Some(cancel.value - 1) else None
  }

  /** One pass, and the rest of the run after it. */
  lemma RunStep(v: Variant, p: Pending, b: seq<byte>, cancel: Option<nat>)
    requires cancel != Some(0)
    ensures var it := Iterate(v, p, b);
            var later := if it.Stop? then Outcome(p, []) else Run(v, it.outcome.pending, it.rest, Later(cancel));
            Run(v, p, b, cancel) == Outcome(later.pending, (if it.Stop? then [] else it.outcome.events) + later.events)
  {
  }

  /** What the truncated rest of a stream adds. */
  function TailEvents(tail: seq<byte>): seq<Event> {
    if tail == [] || |tail| == HEADER_SIZE then [] else [Failed(UnexpectedEOF)]
  }

  lemma ReadFramesCons(v: Variant, p: Pending, f: Frame, fs: seq<Frame>)
    ensures var o := OnFrame(v, p, f);
            var later := ReadFrames(v, o.pending, fs);
            ReadFrames(v, p, [f] + fs) == Outcome(later.pending, o.events + later.events)
  {
    assert ([f] + fs)[1..] == fs;
  }

  /** The byte loop is the frame reader on the parsed stream: one pass per frame, then the tail. */
  lemma {:induction false} RunIsReadFrames(v: Variant, p: Pending, b: seq<byte>)
    ensures var s := Parse(b);
            var o := ReadFrames(v, p, s.frames);
            Run(v, p, b, None) == Outcome(o.pending, o.events + TailEvents(s.tail))
    decreases |b|
  {
    if HasFrame(b) {
      var f, rest := FirstFrame(b), b[FrameSize(b)..];
      var o := OnFrame(v, p, f);
      RunIsReadFrames(v, o.pending, rest);
      ReadFramesCons(v, p, f, Parse(rest).frames);
      Regroup(o.events, ReadFrames(v, o.pending, Parse(rest).frames).events, TailEvents(Parse(b).tail));
    } else if b != [] && |b| != HEADER_SIZE {
      assert Run(v, p, [], None) == Outcome(p, []);
    }
  }

  lemma NoFrameInPart(f: Frame, k: nat)
    requires WellFramed(f) && k < |Encode(f)|
    ensures !HasFrame(Encode(f)[..k])
  {
    var b, p := Encode(f), Encode(f)[..k];
    if k >= HEADER_SIZE {
      assert p[1..5] == b[1..5] == BE32(f.id);
      assert p[5..9] == b[5..9] == BE32(f.length);
      BE32RoundTrip(f.id);
      BE32RoundTrip(f.length);
    }
  }

  /**
   A stream that ends within a frame: one more error, unless it ends just after the frame's header, which the reader
   takes for a clean end.
   */
  lemma TruncatedRun(v: Variant, p: Pending, fs: seq<Frame>, f: Frame, k: nat)
    requires AllWellFramed(fs) && WellFramed(f) && 0 < k < |Encode(f)|
    ensures var o := ReadFrames(v, p, fs);
            Run(v, p, EncodeAll(fs) + Encode(f)[..k], None)
            == Outcome(o.pending, o.events + if k == 9 then [] else [Failed(UnexpectedEOF)])
  {
    NoFrameInPart(f, k);
    ParseOfEncode(fs, Encode(f)[..k]);
    RunIsReadFrames(v, p, EncodeAll(fs) + Encode(f)[..k]);
  }

  /** A stream of whole frames, as any sequence of writers leaves it. */
  lemma RunOnEncodedFrames(v: Variant, p: Pending, fs: seq<Frame>)
    requires AllWellFramed(fs)
    ensures Run(v, p, EncodeAll(fs), None) == ReadFrames(v, p, fs)
  {
    ParseOfEncode(fs, []);
    assert EncodeAll(fs) + [] == EncodeAll(fs);
    RunIsReadFrames(v, p, EncodeAll(fs));
    var o := ReadFrames(v, p, fs);
    assert o.events + TailEvents([]) == o.events;
  }

  /** The frames a reader cancelled at pass `k` still takes in. */
  function Taken(fs: seq<Frame>, k: nat): seq<Frame> {
    if k <= |fs| then fs[..k] else fs
  }

  /** What it emits after those. */
  function Closing(s: Parsed, k: nat): seq<Event> {
    (if k <= |s.frames| then [] else TailEvents(s.tail))
    + (if k <= |s.frames| || (k == |s.frames| + 1 && TailEvents(s.tail) != []) then [Failed(ContextDone)] else [])
  }

  lemma TakenStep(b: seq<byte>, k: nat)
    requires HasFrame(b) && k > 0
    ensures var s, later := Parse(b), Parse(b[FrameSize(b)..]);
            Taken(s.frames, k) == [FirstFrame(b)] + Taken(later.frames, k - 1) && Closing(s, k) == Closing(later, k - 1)
  {
    var s, later := Parse(b), Parse(b[FrameSize(b)..]);
    assert s.frames == [FirstFrame(b)] + later.frames;
  }

  lemma CancelledStep(v: Variant, p: Pending, b: seq<byte>, k: nat)
    requires HasFrame(b) && k > 0
    ensures var o := OnFrame(v, p, FirstFrame(b));
            var later := Run(v, o.pending, b[FrameSize(b)..], Some(k - 1));
            Run(v, p, b, Some(k)) == Outcome(later.pending, o.events + later.events)
  {
  }

  lemma CancelledTail(v: Variant, p: Pending, b: seq<byte>, k: nat)
    requires !HasFrame(b)
    ensures Run(v, p, b, Some(k)) == Outcome(p, Closing(Parsed([], b), k))
  {
    if b != [] && |b| != HEADER_SIZE && k > 0 {
      assert Run(v, p, [], Some(k - 1)) == Outcome(p, if k == 1 then [Failed(ContextDone)] else []);
    }
  }

  /** The step of the induction below, with what holds of the rest of the stream as its hypothesis. */
  lemma CancelledCons(v: Variant, p: Pending, b: seq<byte>, k: nat, r: Outcome)
    requires HasFrame(b) && k > 0
    requires var o, later := OnFrame(v, p, FirstFrame(b)), Parse(b[FrameSize(b)..]);
             && r == ReadFrames(v, o.pending, Taken(later.frames, k - 1))
             && Run(v, o.pending, b[FrameSize(b)..], Some(k - 1))
                == Outcome(r.pending, r.events + Closing(later, k - 1))
    ensures var o := ReadFrames(v, p, Taken(Parse(b).frames, k));
            Run(v, p, b, Some(k)) == Outcome(o.pending, o.events + Closing(Parse(b), k))
  {
    var f, later := FirstFrame(b), Parse(b[FrameSize(b)..]);
    var o := OnFrame(v, p, f);
    CancelledStep(v, p, b, k);
    TakenStep(b, k);
    ReadFramesCons(v, p, f, Taken(later.frames, k - 1));
    Regroup(o.events, r.events, Closing(later, k - 1));
  }

  /**
   Cancellation truncates the output at a frame boundary and adds one closing error, unless the
   stream ends before the poll that would see it.
   */
  lemma {:induction false} CancelledRun(v: Variant, p: Pending, b: seq<byte>, k: nat)
    ensures var s := Parse(b);
            var o := ReadFrames(v, p, Taken(s.frames, k));
            Run(v, p, b, Some(k)) == Outcome(o.pending, o.events + Closing(s, k))
    decreases |b|
  {
    if !HasFrame(b) {
      CancelledTail(v, p, b, k);
      assert Taken(Parse(b).frames, k) == [];
    } else if k == 0 {
      assert Taken(Parse(b).frames, 0) == [];
    } else {
      var o, rest := OnFrame(v, p, FirstFrame(b)), b[FrameSize(b)..];
      CancelledRun(v, o.pending, rest, k - 1);
      CancelledCons(v, p, b, k, ReadFrames(v, o.pending, Taken(Parse(rest).frames, k - 1)));
    }
  }

  /**
   The same without the parts it is put together from: seen cancelled after `k` frames, the reader stops there with one
   error; a stream that ends first is read as if there were no context, but that after an error about a truncated rest
   the context is polled once more.
   */
  lemma CancelledWhere(v: Variant, p: Pending, b: seq<byte>, k: nat)
    ensures var s, whole := Parse(b), Run(v, p, b, None);
            if k <= |s.frames| then
              var o := ReadFrames(v, p, s.frames[..k]);
              Run(v, p, b, Some(k)) == Outcome(o.pending, o.events + [Failed(ContextDone)])
            else
              Run(v, p, b, Some(k)) ==
              Outcome(whole.pending,
                      whole.events + if k == |s.frames| + 1 && 0 < |s.tail| && |s.tail| != 9 then [Failed(ContextDone)]
                                     else [])
  {
    var s := Parse(b);
    CancelledRun(v, p, b, k);
    RunIsReadFrames(v, p, b);
    if k > |s.frames| {
      Regroup(ReadFrames(v, p, s.frames).events, TailEvents(s.tail),
              if k == |s.frames| + 1 && TailEvents(s.tail) != [] then [Failed(ContextDone)] else []);
    }
  }

  /** The frames a run takes in, and the errors it closes with; neither depends on the reader. */
  function FramesTaken(b: seq<byte>, cancel: Option<nat>): seq<Frame> {
    if cancel.Some? then Taken(Parse(b).frames, cancel.value) else Parse(b).frames
  }

  function ClosingOf(b: seq<byte>, cancel: Option<nat>): seq<Event> {
    if cancel.Some? then Closing(Parse(b), cancel.value) else TailEvents(Parse(b).tail)
  }

  lemma RunInTwo(v: Variant, p: Pending, b: seq<byte>, cancel: Option<nat>)
    ensures var o := ReadFrames(v, p, FramesTaken(b, cancel));
            Run(v, p, b, cancel) == Outcome(o.pending, o.events + ClosingOf(b, cancel))
  {
    if cancel.Some? {
      CancelledRun(v, p, b, cancel.value);
    } else {
      RunIsReadFrames(v, p, b);
    }
  }

  lemma {:induction false} ReadFramesAppend(v: Variant, p: Pending, a: seq<Frame>, b: seq<Frame>)
    ensures var first := ReadFrames(v, p, a);
            var later := ReadFrames(v, first.pending, b);
            ReadFrames(v, p, a + b) == Outcome(later.pending, first.events + later.events)
    decreases |a|
  {
    if a == [] {
      assert a + b == b;
    } else {
      assert (a + b)[1..] == a[1..] + b;
      ReadFramesAppend(v, OnFrame(v, p, a[0]).pending, a[1..], b);
    }
  }

  lemma ReadFramesSnoc(v: Variant, p: Pending, fs: seq<Frame>, f: Frame)
    ensures var first := ReadFrames(v, p, fs);
            var last := OnFrame(v, first.pending, f);
            ReadFrames(v, p, fs + [f]) == Outcome(last.pending, first.events + last.events)
  {
    ReadFramesAppend(v, p, fs, [f]);
    var q := ReadFrames(v, p, fs).pending;
    assert [f][1..] == [];
    assert ReadFrames(v, q, [f]) == Outcome(OnFrame(v, q, f).pending, OnFrame(v, q, f).events + []);
  }
}
