/** The two counting nodes: one loop with metrics kept along the way, and two designs of scratch buffers. */
module CountingNodes {
  import opened Wire
  import opened Frames
  import opened Reader
  import opened Buffers
  import opened Conservation
  import opened Nodes

  class Metrics {
    var messagesRead: uint64
    var bytesRead: uint64
    var errorsEncountered: uint64
    var pendingMessages: uint64

    function Value(): Gauges
      reads this
    {
      Gauges(messagesRead, bytesRead, errorsEncountered, pendingMessages)
    }

    constructor ()
      ensures Value() == ZERO_GAUGES
    {
      messagesRead, bytesRead, errorsEncountered, pendingMessages := 0, 0, 0, 0;
    }

    /** The counter updates of the loop body, by what came of a whole frame. */
    method Tally(kind: byte, length: uint32, o: Output, ghost p: Pending, ghost f: Frame)
      requires f.kind == kind && f.length == length
      requires ShowsAll(o, OnFrame(Counting, p, f).events)
      modifies this
      ensures Value() == GaugeFrame(old(Value()), p, f)
    {
      match o
      case Quiet =>
        if kind == START {
          pendingMessages := Plus(pendingMessages, 1);
        } else if length > 0 {
          bytesRead := Plus(bytesRead, length);
        }
      case Delivered(m) =>
        if kind == END {
          messagesRead := Plus(messagesRead, 1);
        }
        pendingMessages := MinusOne(pendingMessages);
      case Reported(Oversize) =>
        pendingMessages := MinusOne(pendingMessages);
      case Reported(UnknownKind(_)) =>
        errorsEncountered := Plus(errorsEncountered, 1);
      case _ =>
    }
  }

  const SMALL_BUFFER: nat := 8 * KB
  const LARGE_BUFFER: nat := 64 * KB

  /** Which buffers a node reads payloads into, and where the source's two loops differ. */
  datatype Design = Pooled | Switching(fastPathThreshold: int)

  /** The capacity a new message starts with. */
  function Capacity(design: Design, length: uint32): nat {
    var limit := match design
      case Pooled => LARGE_BUFFER
      case Switching(threshold) => if length <= threshold % WORD32 then SMALL_BUFFER else LARGE_BUFFER;
    if length < limit then length else limit
  }

  /**
   The loop that `OptimizedNode` and `HybridNode` have in common. A pooled node has one 64 KiB buffer; a
   switching one has a small buffer, and a large one once a length asks for it. Beyond that both use temporary arrays.
   */
  class CountingNode {
    const source: Source
    const table: Assembly
    const metrics: Metrics
    const headerBuf: array<byte>
    const buffer: array<byte>
    var largeBuffer: array?<byte>
    var usingLargeBuffer: bool
    const design: Design
    ghost var Repr: set<object>

    ghost predicate Valid()
      reads this, Repr
    {
      && {this, source, table, metrics, headerBuf, buffer} <= Repr && table.Repr <= Repr && table.Valid()
      && {this, source, metrics, headerBuf, buffer} !! table.Repr
      && headerBuf.Length == HEADER_SIZE
      && (largeBuffer != null ==> largeBuffer in Repr && largeBuffer !in table.Repr)
    }

    constructor (source: Source, design: Design)
      ensures Valid() && fresh(Repr - {source}) && this.source == source && this.design == design
      ensures table.contents == map[] && metrics.Value() == ZERO_GAUGES
    {
      this.source := source;
      this.design := design;
      table := new Assembly();
      metrics := new Metrics();
      headerBuf := new byte[HEADER_SIZE];
      buffer := new byte[if design.Pooled? then LARGE_BUFFER else SMALL_BUFFER];
      largeBuffer := null;
      usingLargeBuffer := false;
      new;
      Repr := {this, source, table, metrics, headerBuf, buffer} + table.Repr;
    }

    /** The payload goes into whichever array is large enough, in any case one that no message owns. */
    method ReadPayload(length: uint32) returns (r: ReadResult, scratch: array<byte>)
      requires Valid() && length > 0
      modifies Repr
      ensures Valid() && Repr == old(Repr) && table.contents == old(table.contents)
              && metrics.Value() == old(metrics.Value())
      ensures (scratch in Repr || fresh(scratch)) && scratch !in table.Repr && length <= scratch.Length
      ensures r == if length <= |old(source.rest)| then Full else if old(source.rest) == [] then Eof else Unexpected
      ensures r == Full ==> scratch[..length] == old(source.rest)[..length] && source.rest == old(source.rest)[length..]
      ensures r != Full ==> source.rest == []
    {
      scratch := buffer;
      if usingLargeBuffer && largeBuffer != null {
        scratch := largeBuffer;
      }
      if length > scratch.Length {
        scratch := new byte[length];
      }
      r := source.ReadFull(scratch, length);
    }

    /** A zero-length frame is skipped unseen. */
    method TakeData(id: uint32, length: uint32) returns (o: Output)
      requires Valid() && length <= MAX_LENGTH
      modifies Repr
      ensures Valid() && fresh(Repr - old(Repr)) && !o.Delivered?
      ensures Refines(AfterHeader(Counting, old(table.contents), DATA, id, length, old(source.rest)),
                      o, table.contents, source.rest, old(table.contents))
      ensures metrics.Value() == old(metrics.Value())
    {
      ghost var f := Frame(DATA, id, length, if length <= |source.rest| then source.rest[..length] else []);
      if length == 0 {
        return Quiet;
      }
      var r, scratch := ReadPayload(length);
      if r == Eof {
        return Stopped;
      }
      if r == Unexpected {
        return Reported(UnexpectedEOF);
      }
      o := table.OnData(id, scratch, length, Counting, f);
      Repr := Repr + table.Repr;
    }

    method TakeStart(id: uint32, length: uint32) returns (o: Output)
      requires Valid() && length <= MAX_LENGTH
      modifies Repr
      ensures Valid() && fresh(Repr - old(Repr)) && !o.Delivered?
      ensures Refines(AfterHeader(Counting, old(table.contents), START, id, length, old(source.rest)),
                      o, table.contents, source.rest, old(table.contents))
      ensures metrics.Value() == old(metrics.Value())
    {
      NothingTaken(source.rest);
      o := table.OnStart(id, Capacity(design, length));
      Repr := Repr + table.Repr;
    }

    method TakeLast(kind: byte, id: uint32, length: uint32) returns (o: Output)
      requires Valid() && length <= MAX_LENGTH && (kind == END || kind == ABORT)
      modifies Repr
      ensures Valid() && fresh(Repr - old(Repr)) && Footprint(o) !! Repr
      ensures Refines(AfterHeader(Counting, old(table.contents), kind, id, length, old(source.rest)),
                      o, table.contents, source.rest, old(table.contents))
      ensures metrics.Value() == old(metrics.Value())
    {
      NothingTaken(source.rest);
      o := table.OnLast(id, if kind == END then COMPLETE else ABORT, Counting, Frame(kind, id, length, []));
      Repr := Repr - Footprint(o);
    }

    /** The first length over 8 KiB, of whatever frame, makes a switching node use its large buffer for good. */
    method SwitchBuffer(length: uint32)
      requires Valid()
      modifies this
      ensures Valid() && fresh(Repr - old(Repr))
    {
      if design.Switching? && !usingLargeBuffer && length > buffer.Length {
        largeBuffer := new byte[LARGE_BUFFER];
        usingLargeBuffer := true;
        Repr := Repr + {largeBuffer};
      }
    }

    method Act(kind: byte, id: uint32, length: uint32) returns (o: Output)
      requires Valid()
      modifies Repr
      ensures Valid() && fresh(Repr - old(Repr)) && Footprint(o) !! Repr
      ensures Refines(AfterHeader(Counting, old(table.contents), kind, id, length, old(source.rest)),
                      o, table.contents, source.rest, old(table.contents))
      ensures metrics.Value() == old(metrics.Value())
    {
      if length > MAX_LENGTH {
        NothingTaken(source.rest);
        return Reported(TooLong(length));
      }
      SwitchBuffer(length);
      if kind == START {
        o := TakeStart(id, length);
      } else if kind == DATA {
        o := TakeData(id, length);
      } else if kind == END || kind == ABORT {
        o := TakeLast(kind, id, length);
      } else {
        NothingTaken(source.rest);
        o := Reported(UnknownKind(kind));
      }
    }

    /** The part of the loop body after the header. */
    method Dispatch(kind: byte, id: uint32, length: uint32) returns (o: Output)
      requires Valid()
      modifies Repr
      ensures Valid() && fresh(Repr - old(Repr)) && Footprint(o) !! Repr
      ensures Refines(AfterHeader(Counting, old(table.contents), kind, id, length, old(source.rest)),
                      o, table.contents, source.rest, old(table.contents))
      ensures metrics.Value() == GaugeAfterHeader(old(metrics.Value()), old(table.contents), kind, id, length,
              old(source.rest))
    {
      ghost var p, rest, n := table.contents, source.rest, PayloadSize(kind, length);
      o := Act(kind, id, length);
      if !o.Stopped? && o != Reported(UnexpectedEOF) {
        metrics.Tally(kind, length, o, p, Frame(kind, id, length, if n <= |rest| then rest[..n] else []));
      }
    }

    /** One pass of the loop. A delivered message is no longer among the objects the node may write to. */
    method Iterate() returns (o: Output)
      requires Valid()
      modifies Repr
      ensures Valid() && fresh(Repr - old(Repr)) && Footprint(o) !! Repr
      ensures Refines(Reader.Iterate(Counting, old(table.contents), old(source.rest)),
                      o, table.contents, source.rest, old(table.contents))
      ensures metrics.Value() == GaugeIterate(old(metrics.Value()), old(table.contents), old(source.rest))
    {
      ghost var b := source.rest;
      var r := source.ReadFull(headerBuf, HEADER_SIZE);
      if r == Eof {
        return Stopped;
      }
      if r == Unexpected {
        return Reported(UnexpectedEOF);
      }
      var kind, id, length := ParseHeader(headerBuf);
      HeaderOfPrefix(b);
      IterateAfterHeader(Counting, table.contents, b);
      GaugeIterateAfterHeader(metrics.Value(), table.contents, b);
      o := Dispatch(kind, id, length);
    }

    /** Poll the context, read one frame, send what it gives; `es` is what was sent. */
    method Pass(cancel: Option<nat>, ch: Channel) returns (more: bool, ghost es: seq<Event>)
      requires Valid() && ch.Valid() && ch.Repr !! Repr
      modifies Repr, ch
      ensures Valid() && fresh(Repr - old(Repr)) && ch.Valid() && ch.Repr !! Repr
      ensures old(ch.items) <= ch.items && ch.log == old(ch.log) + es && (more ==> |source.rest| < |old(source.rest)|)
      ensures more ==> cancel != Some(0)
      ensures var later := if more then Run(Counting, table.contents, source.rest, Later(cancel))
              else Outcome(table.contents, []);
              Run(Counting, old(table.contents), old(source.rest), cancel) == Outcome(later.pending, es + later.events)
      ensures var g := metrics.Value();
              (if more then GaugeRun(g, table.contents, source.rest, Later(cancel)) else g)
              == GaugeRun(old(metrics.Value()), old(table.contents), old(source.rest), cancel)
    {
      if cancel == Some(0) {
        ch.Send(Reported(ContextDone), Failed(ContextDone));
        return false, [Failed(ContextDone)];
      }
      ghost var it := Reader.Iterate(Counting, table.contents, source.rest);
      RunStep(Counting, table.contents, source.rest, cancel);
      var o := Iterate();
      if o.Stopped? {
        return false, [];
      }
      if o.Quiet? {
        return true, [];
      }
      ghost var e := it.outcome.events[0];
      assert it.outcome.events == [e];
      ch.Send(o, e);
      return true, [e];
    }

    /**
     The whole loop. What was on the channel stays on it, object by object, and the channel's own validity, kept
     across every pass, says that no later frame changed a message delivered earlier; what it was sent is what
     the specification emits.
     */
    method ReadMessage(cancel: Option<nat>, ch: Channel)
      requires Valid() && ch.Valid() && ch.Repr !! Repr
      modifies Repr, ch
      ensures Valid() && fresh(Repr - old(Repr)) && ch.Valid() && ch.Repr !! Repr
      ensures var r := Run(Counting, old(table.contents), old(source.rest), cancel);
              old(ch.items) <= ch.items && ch.log == old(ch.log) + r.events && table.contents == r.pending
      ensures metrics.Value() == GaugeRun(old(metrics.Value()), old(table.contents), old(source.rest), cancel)
    {
      ghost var sent: seq<Event> := [];
      var more, left := true, cancel;
      while more
        invariant Valid() && fresh(Repr - old(Repr)) && ch.Valid() && ch.Repr !! Repr
        invariant old(ch.items) <= ch.items && ch.log == old(ch.log) + sent
        invariant var later := if more then Run(Counting, table.contents, source.rest, left)
                  else Outcome(table.contents, []);
                  Run(Counting, old(table.contents), old(source.rest), cancel)
                      == Outcome(later.pending, sent + later.events)
        invariant var g := metrics.Value();
                  (if more then GaugeRun(g, table.contents, source.rest, left) else g)
                  == GaugeRun(old(metrics.Value()), old(table.contents), old(source.rest), cancel)
        decreases more, |source.rest|
      {
        ghost var es;
        more, es := Pass(left, ch);
        left := if more then Later(left) else left;
        ghost var later := if more then Run(Counting, table.contents, source.rest, left)
            else Outcome(table.contents, []);
        Regroup(sent, es, later.events);
        Regroup(old(ch.log), sent, es);
        sent := sent + es;
      }
    }

    /** `Close` between passes forgets every partial message and, if there were any, resets the pending gauge. */
    method Close()
      requires Valid()
      modifies Repr
      ensures Valid() && Repr == old(Repr) && table.contents == map[] && source.rest == old(source.rest)
      ensures metrics.Value() == GaugeClose(old(metrics.Value()), old(table.contents))
    {
      var count := |table.messages|;
      assert |table.messages| == |table.messages.Keys| && |table.contents| == |table.contents.Keys|;
      table.Clear();
      if count > 0 {
        metrics.pendingMessages := 0;
      }
    }
  }
}
