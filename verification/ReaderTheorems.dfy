/** What holds of the readers on every finite byte stream, whole or truncated, well meant or not. */
module ReaderTheorems {
  import opened Wire
  import opened Frames
  import opened Reader

  predicate Delivers(e: Event) {
    !e.Failed?
  }

  function Deliveries(es: seq<Event>): seq<Event> {
    if es == [] then []
    else (if Delivers(es[0]) then [es[0]] else []) + Deliveries(es[1..])
  }

  lemma {:induction false} DeliveriesAppend(a: seq<Event>, b: seq<Event>)
    ensures Deliveries(a + b) == Deliveries(a) + Deliveries(b)
  {
    if a == [] {
      assert a + b == b;
    } else {
      assert (a + b)[0] == a[0] && (a + b)[1..] == a[1..] + b;
      DeliveriesAppend(a[1..], b);
      Regroup(if Delivers(a[0]) then [a[0]] else [], Deliveries(a[1..]), Deliveries(b));
    }
  }

  // ---- The three readers agree ----

  predicate EmptyData(f: Frame) {
    f.kind == DATA && f.length == 0
  }

  function WithoutEmptyData(fs: seq<Frame>): seq<Frame> {
    if fs == [] then []
    else (if EmptyData(fs[0]) then [] else [fs[0]]) + WithoutEmptyData(fs[1..])
  }

  /** How many zero-length Data frames meet an id that is not pending. */
  function EmptyOrphans(p: Pending, fs: seq<Frame>): nat
    decreases |fs|
  {
    if fs == [] then 0
    else (if EmptyData(fs[0]) && fs[0].id !in p then 1 else 0) + EmptyOrphans(OnFrame(Basic, p, fs[0]).pending, fs[1..])
  }

  /**
    * The counting readers do on a stream exactly what the basic reader does once zero-length Data frames are
    * struck out.
    */
  lemma {:induction false} CountingIsBasicWithoutEmptyData(p: Pending, fs: seq<Frame>)
    ensures ReadFrames(Counting, p, fs) == ReadFrames(Basic, p, WithoutEmptyData(fs))
    decreases |fs|
  {
    if fs != [] {
      var rest := WithoutEmptyData(fs[1..]);
      VariantsAgreeOnFrame(p, fs[0]);
      CountingIsBasicWithoutEmptyData(OnFrame(Counting, p, fs[0]).pending, fs[1..]);
      if EmptyData(fs[0]) {
        assert OnFrame(Counting, p, fs[0]) == Outcome(p, []);
        assert WithoutEmptyData(fs) == rest;
      } else {
        assert WithoutEmptyData(fs)[1..] == rest;
      }
    }
  }

  lemma VariantsAgreeOnFrame(p: Pending, f: Frame)
    ensures var basic, counting := OnFrame(Basic, p, f), OnFrame(Counting, p, f);
            && basic.pending == counting.pending
            && (if EmptyData(f) && f.id !in p then basic.events == [Failed(UnknownFrame(f.id))] && counting.events == []
                else basic.events == counting.events)
  {
  }

  /** The error the basic reader gives for each of those, in order. */
  function OrphanErrors(p: Pending, fs: seq<Frame>): (es: seq<Event>)
    ensures |es| == EmptyOrphans(p, fs)
    decreases |fs|
  {
    if fs == [] then []
    else
      (if EmptyData(fs[0]) && fs[0].id !in p then [Failed(UnknownFrame(fs[0].id))] else [])
      + OrphanErrors(OnFrame(Basic, p, fs[0]).pending, fs[1..])
  }

  /** For each event of the basic reader, in order, whether it comes of such a frame. */
  function OrphanMarks(p: Pending, fs: seq<Frame>): seq<bool>
    decreases |fs|
  {
    if fs == [] then []
    else
      var o := OnFrame(Basic, p, fs[0]);
      seq(|o.events|, _ => EmptyData(fs[0]) && fs[0].id !in p) + OrphanMarks(o.pending, fs[1..])
  }

  function Unmarked(es: seq<Event>, marks: seq<bool>): seq<Event>
    requires |marks| == |es|
  {
    if es == [] then [] else (if marks[0] then [] else [es[0]]) + Unmarked(es[1..], marks[1..])
  }

  function Marked(es: seq<Event>, marks: seq<bool>): seq<Event>
    requires |marks| == |es|
  {
    if es == [] then [] else (if marks[0] then [es[0]] else []) + Marked(es[1..], marks[1..])
  }

  lemma {:induction false} MarksAppend(a: seq<Event>, ma: seq<bool>, b: seq<Event>, mb: seq<bool>)
    requires |ma| == |a| && |mb| == |b|
    ensures Unmarked(a + b, ma + mb) == Unmarked(a, ma) + Unmarked(b, mb)
    ensures Marked(a + b, ma + mb) == Marked(a, ma) + Marked(b, mb)
  {
    if a == [] {
      assert a + b == b && ma + mb == mb;
    } else {
      assert (a + b)[1..] == a[1..] + b && (ma + mb)[1..] == ma[1..] + mb;
      MarksAppend(a[1..], ma[1..], b, mb);
      Regroup(if ma[0] then [] else [a[0]], Unmarked(a[1..], ma[1..]), Unmarked(b, mb));
      Regroup(if ma[0] then [a[0]] else [], Marked(a[1..], ma[1..]), Marked(b, mb));
    }
  }

  lemma {:induction false} NothingMarked(es: seq<Event>, marks: seq<bool>)
    requires |marks| == |es| && forall i :: 0 <= i < |marks| ==> !marks[i]
    ensures Unmarked(es, marks) == es && Marked(es, marks) == []
  {
    if es != [] {
      NothingMarked(es[1..], marks[1..]);
      assert es == [es[0]] + es[1..];
    }
  }

  /** What one frame contributes to the two event lists and to the marks. */
  lemma FrameMarks(p: Pending, f: Frame)
    ensures var basic, counting := OnFrame(Basic, p, f), OnFrame(Counting, p, f);
            var orphan := EmptyData(f) && f.id !in p;
            var marks := seq(|basic.events|, _ => orphan);
            && basic.pending == counting.pending
            && Unmarked(basic.events, marks) == counting.events
            && Marked(basic.events, marks) == if orphan then [Failed(UnknownFrame(f.id))] else []
  {
    var basic := OnFrame(Basic, p, f);
    VariantsAgreeOnFrame(p, f);
    if EmptyData(f) && f.id !in p {
      assert basic.events[1..] == [];
    } else {
      NothingMarked(basic.events, seq(|basic.events|, _ => false));
    }
  }

  /**
    * The counting reader's events are the basic reader's with the marked ones struck out, and those are the
    * orphans' errors.
    */
  lemma {:induction false} MarksOnFrames(p: Pending, fs: seq<Frame>)
    ensures var basic, counting, marks := ReadFrames(Basic, p, fs), ReadFrames(Counting, p, fs), OrphanMarks(p, fs);
            && basic.pending == counting.pending && |marks| == |basic.events|
            && counting.events == Unmarked(basic.events, marks)
            && Marked(basic.events, marks) == OrphanErrors(p, fs)
    decreases |fs|
  {
    if fs != [] {
      var o := OnFrame(Basic, p, fs[0]);
      var orphan := EmptyData(fs[0]) && fs[0].id !in p;
      FrameMarks(p, fs[0]);
      MarksOnFrames(o.pending, fs[1..]);
      MarksAppend(o.events, seq(|o.events|, _ => orphan), ReadFrames(Basic, o.pending, fs[1..]).events,
          OrphanMarks(o.pending, fs[1..]));
    }
  }

  lemma {:induction false} FailuresAreNotDelivered(es: seq<Event>)
    requires forall i :: 0 <= i < |es| ==> es[i].Failed?
    ensures Deliveries(es) == []
  {
    if es != [] {
      FailuresAreNotDelivered(es[1..]);
    }
  }

  lemma {:induction false} OrphanErrorsFail(p: Pending, fs: seq<Frame>)
    ensures forall i :: 0 <= i < |OrphanErrors(p, fs)| ==> OrphanErrors(p, fs)[i].Failed?
    decreases |fs|
  {
    if fs != [] {
      OrphanErrorsFail(OnFrame(Basic, p, fs[0]).pending, fs[1..]);
    }
  }

  /** Striking out failures leaves the deliveries, and strikes out nothing only if nothing is marked. */
  lemma {:induction false} StrikingOut(es: seq<Event>, marks: seq<bool>)
    requires |marks| == |es| && forall i :: 0 <= i < |Marked(es, marks)| ==> Marked(es, marks)[i].Failed?
    ensures Deliveries(Unmarked(es, marks)) == Deliveries(es)
    ensures |es| == |Unmarked(es, marks)| + |Marked(es, marks)|
    ensures Marked(es, marks) == [] ==> Unmarked(es, marks) == es
  {
    if es != [] {
      var rest, left := Marked(es[1..], marks[1..]), Unmarked(es[1..], marks[1..]);
      if marks[0] {
        assert Marked(es, marks) == [es[0]] + rest;
        assert Marked(es, marks)[0] == es[0] && es[0].Failed?;
        assert forall i :: 0 <= i < |rest| ==> rest[i] == Marked(es, marks)[i + 1];
        assert Unmarked(es, marks) == [] + left == left;
        assert Deliveries(es) == [] + Deliveries(es[1..]) == Deliveries(es[1..]);
      } else {
        assert Marked(es, marks) == [] + rest == rest;
        assert es == [es[0]] + es[1..];
        DeliveriesAppend([es[0]], left);
        DeliveriesAppend([es[0]], es[1..]);
      }
      StrikingOut(es[1..], marks[1..]);
    }
  }

  /** The marks of a whole run: a closing error is nobody's orphan. */
  function RunMarks(p: Pending, b: seq<byte>, cancel: Option<nat>): seq<bool> {
    OrphanMarks(p, FramesTaken(b, cancel)) + seq(|ClosingOf(b, cancel)|, _ => false)
  }

  /**
   Reader refinement, on every byte stream and cancelled anywhere or not at all: the same partial messages, and
   the counting reader's events are the basic reader's with exactly the unknown-id errors of the empty orphans
   struck out, each where it stands. So the deliveries agree, and everything does if there are no empty orphans.
   */
  lemma VariantsAgree(p: Pending, b: seq<byte>, cancel: Option<nat>)
    ensures var basic, counting := Run(Basic, p, b, cancel), Run(Counting, p, b, cancel);
            var marks, fs := RunMarks(p, b, cancel), FramesTaken(b, cancel);
            && basic.pending == counting.pending && |marks| == |basic.events|
            && counting.events == Unmarked(basic.events, marks)
            && Marked(basic.events, marks) == OrphanErrors(p, fs)
            && Deliveries(basic.events) == Deliveries(counting.events)
            && |basic.events| == |counting.events| + EmptyOrphans(p, fs)
            && (basic == counting <==> EmptyOrphans(p, fs) == 0)
  {
    var fs, closing := FramesTaken(b, cancel), ClosingOf(b, cancel);
    var es, marks := ReadFrames(Basic, p, fs).events, RunMarks(p, b, cancel);
    RunInTwo(Basic, p, b, cancel);
    RunInTwo(Counting, p, b, cancel);
    MarksOnFrames(p, fs);
    MarksAppend(es, OrphanMarks(p, fs), closing, seq(|closing|, _ => false));
    NothingMarked(closing, seq(|closing|, _ => false));
    assert Marked(es + closing, marks) == OrphanErrors(p, fs) + [] == OrphanErrors(p, fs);
    OrphanErrorsFail(p, fs);
    StrikingOut(es + closing, marks);
  }

  // ---- Isolation between ids ----

  predicate DeliversTo(e: Event, id: uint32) {
    !e.Failed? && e.id == id
  }

  function DeliveriesTo(es: seq<Event>, id: uint32): seq<Event> {
    if es == [] then []
    else (if DeliversTo(es[0], id) then [es[0]] else []) + DeliveriesTo(es[1..], id)
  }

  lemma {:induction false} DeliveriesToAppend(a: seq<Event>, b: seq<Event>, id: uint32)
    ensures DeliveriesTo(a + b, id) == DeliveriesTo(a, id) + DeliveriesTo(b, id)
  {
    if a == [] {
      assert a + b == b;
    } else {
      assert (a + b)[0] == a[0] && (a + b)[1..] == a[1..] + b;
      DeliveriesToAppend(a[1..], b, id);
      Regroup(if DeliversTo(a[0], id) then [a[0]] else [], DeliveriesTo(a[1..], id), DeliveriesTo(b, id));
    }
  }

  /** The frames of one id, in order. */
  function Only(fs: seq<Frame>, id: uint32): seq<Frame> {
    if fs == [] then []
    else (if fs[0].id == id then [fs[0]] else []) + Only(fs[1..], id)
  }

  lemma {:induction false} OnlyAppend(a: seq<Frame>, b: seq<Frame>, id: uint32)
    ensures Only(a + b, id) == Only(a, id) + Only(b, id)
  {
    if a == [] {
      assert a + b == b;
    } else {
      assert (a + b)[0] == a[0] && (a + b)[1..] == a[1..] + b;
      OnlyAppend(a[1..], b, id);
      Regroup(if a[0].id == id then [a[0]] else [], Only(a[1..], id), Only(b, id));
    }
  }

  ghost predicate SameAt(p: Pending, q: Pending, id: uint32) {
    (id in p <==> id in q) && (id in p ==> p[id] == q[id])
  }

  /** A frame acts on its own id only. */
  lemma FrameLocality(v: Variant, p: Pending, q: Pending, f: Frame, id: uint32)
    requires SameAt(p, q, id)
    ensures var o := OnFrame(v, p, f);
            if f.id == id
            then DeliveriesTo(o.events, id) == DeliveriesTo(OnFrame(v, q, f).events, id)
                 && SameAt(o.pending, OnFrame(v, q, f).pending, id)
            else DeliveriesTo(o.events, id) == [] && SameAt(o.pending, p, id)
  {
    var o := OnFrame(v, p, f);
    if f.id != id {
      assert forall e :: e in o.events ==> !DeliversTo(e, id);
    } else if f.kind == DATA || f.kind == START || f.length > MAX_LENGTH {
      assert forall e :: e in o.events ==> e.Failed?;
    } else {
      assert o.events == OnFrame(v, q, f).events;
    }
  }

  lemma {:induction false} IsolationOnFrames(v: Variant, p: Pending, q: Pending, fs: seq<Frame>, id: uint32)
    requires SameAt(p, q, id)
    ensures var all, alone := ReadFrames(v, p, fs), ReadFrames(v, q, Only(fs, id));
            DeliveriesTo(all.events, id) == DeliveriesTo(alone.events, id) && SameAt(all.pending, alone.pending, id)
    decreases |fs|
  {
    if fs != [] {
      var f := fs[0];
      var o := OnFrame(v, p, f);
      FrameLocality(v, p, q, f, id);
      DeliveriesToAppend(o.events, ReadFrames(v, o.pending, fs[1..]).events, id);
      var own := Only(fs[1..], id);
      if f.id == id {
        var alone := OnFrame(v, q, f);
        assert Only(fs, id) == [f] + own && ([f] + own)[1..] == own;
        IsolationOnFrames(v, o.pending, alone.pending, fs[1..], id);
        DeliveriesToAppend(alone.events, ReadFrames(v, alone.pending, own).events, id);
      } else {
        assert Only(fs, id) == own;
        IsolationOnFrames(v, o.pending, q, fs[1..], id);
      }
    }
  }

  /**
   Isolation: on any byte stream the messages of an id, complete or aborted, and what it leaves pending
   depend on the frames of that id alone.
   */
  lemma Isolation(v: Variant, p: Pending, q: Pending, b: seq<byte>, id: uint32)
    requires SameAt(p, q, id)
    ensures var all := Run(v, p, b, None);
            var alone := Run(v, q, EncodeAll(Only(Parse(b).frames, id)), None);
            DeliveriesTo(all.events, id) == DeliveriesTo(alone.events, id) && SameAt(all.pending, alone.pending, id)
  {
    var s := Parse(b);
    ParsedFramesAreWhole(b);
    RunIsReadFrames(v, p, b);
    IsolationOnFrames(v, p, q, s.frames, id);
    DeliveriesToAppend(ReadFrames(v, p, s.frames).events, TailEvents(s.tail), id);
    assert DeliveriesTo(TailEvents(s.tail), id) == [];
    OnlyWellFramed(s.frames, id);
    RunOnEncodedFrames(v, q, Only(s.frames, id));
  }

  lemma {:induction false} OnlyWellFramed(fs: seq<Frame>, id: uint32)
    requires AllWellFramed(fs)
    ensures AllWellFramed(Only(fs, id))
  {
    if fs != [] {
      OnlyWellFramed(fs[1..], id);
    }
  }

  // ---- Size bound ----

  ghost predicate Bounded(p: Pending) {
    forall id :: id in p ==> |p[id]| <= MAX_LENGTH
  }

  ghost predicate BoundedEvents(es: seq<Event>) {
    forall i :: 0 <= i < |es| && Delivers(es[i]) ==> |es[i].data| <= MAX_LENGTH
  }

  lemma BoundedEventsAppend(a: seq<Event>, b: seq<Event>)
    requires BoundedEvents(a) && forall e :: e in b ==> e.Failed?
    ensures BoundedEvents(a + b)
  {
  }

  lemma {:induction false} BoundedFrames(v: Variant, p: Pending, fs: seq<Frame>)
    requires Bounded(p) && AllWellFramed(fs)
    ensures var o := ReadFrames(v, p, fs);
            Bounded(o.pending) && BoundedEvents(o.events)
    decreases |fs|
  {
    if fs != [] {
      BoundedFrames(v, OnFrame(v, p, fs[0]).pending, fs[1..]);
    }
  }

  /** No partial and no delivered message ever exceeds the limit, cancelled or not. */
  lemma SizeBound(v: Variant, p: Pending, b: seq<byte>, cancel: Option<nat>)
    requires Bounded(p)
    ensures var o := Run(v, p, b, cancel);
            Bounded(o.pending) && BoundedEvents(o.events)
  {
    var s := Parse(b);
    ParsedFramesAreWhole(b);
    match cancel
    case None =>
      RunIsReadFrames(v, p, b);
      BoundedFrames(v, p, s.frames);
      BoundedEventsAppend(ReadFrames(v, p, s.frames).events, TailEvents(s.tail));
    case Some(k) =>
      CancelledRun(v, p, b, k);
      assert forall i :: 0 <= i < |Taken(s.frames, k)| ==> Taken(s.frames, k)[i] == s.frames[i];
      BoundedFrames(v, p, Taken(s.frames, k));
      BoundedEventsAppend(ReadFrames(v, p, Taken(s.frames, k)).events, Closing(s, k));
  }

  // ---- Termination and the number of events ----

  lemma {:induction false} FramesFit(fs: seq<Frame>)
    ensures HEADER_SIZE * |fs| <= |EncodeAll(fs)|
  {
    if fs != [] {
      FramesFit(fs[1..]);
    }
  }

  lemma {:induction false} AtMostOneEventEach(v: Variant, p: Pending, fs: seq<Frame>)
    ensures |ReadFrames(v, p, fs).events| <= |fs|
    decreases |fs|
  {
    if fs != [] {
      AtMostOneEventEach(v, OnFrame(v, p, fs[0]).pending, fs[1..]);
    }
  }

  /** Left alone, a reader stops on every finite stream after at most ceil(n / 9) events. */
  lemma EventCount(v: Variant, p: Pending, b: seq<byte>)
    ensures |Run(v, p, b, None).events| <= (|b| + HEADER_SIZE - 1) / HEADER_SIZE
  {
    var s := Parse(b);
    RunIsReadFrames(v, p, b);
    AtMostOneEventEach(v, p, s.frames);
    EncodeOfParse(b);
    FramesFit(s.frames);
  }
}
