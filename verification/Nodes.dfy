/** The reader halves of the three node types: one pass of each loop, and the loop itself. */
module Nodes {
  import opened Wire
  import opened Frames
  import opened Reader
  import opened Buffers

  const KB: nat := 1024
  const MB: nat := 1024 * 1024

  /** The pass did what the specification says: same end, same output, same partial messages, same rest of input. */
  ghost predicate Refines(it: Iteration, o: Output, now: Pending, rest: seq<byte>, before: Pending)
    reads if o.Delivered? then {o.m, o.m.buf} else {}
  {
    match it
    case Stop => o.Stopped? && now == before && rest == []
    case Next(outcome, left) => !o.Stopped? && ShowsAll(o, outcome.events) && now == outcome.pending && rest == left
  }

  method ParseHeader(temp: array<byte>) returns (kind: byte, id: uint32, length: uint32)
    requires temp.Length >= HEADER_SIZE
    ensures kind == HeaderKind(temp[..HEADER_SIZE]) && id == HeaderId(temp[..HEADER_SIZE])
    ensures length == HeaderLength(temp[..HEADER_SIZE])
  {
    var h := temp[..HEADER_SIZE];
    kind := h[0];
    id := FromBE32(h[1..5]);
    length := FromBE32(h[5..9]);
  }

  /**
   The channel the receiver reads. `log` is what was sent, in values; `Valid` says that the objects on the
   channel still hold exactly that.
   */
  class Channel {
    var items: seq<Output>
    ghost var log: seq<Event>
    ghost var Repr: set<object>

    ghost predicate Valid()
      reads this, Repr
    {
      && this in Repr && |items| == |log|
      && forall i :: 0 <= i < |items| ==>
           && (items[i].Delivered? ==> items[i].m in Repr && items[i].m.buf in Repr)
           && Shows(items[i], log[i])
    }

    constructor ()
      ensures Valid() && fresh(Repr) && items == [] && log == []
    {
      items, log, Repr := [], [], {this};
    }

    method Send(o: Output, ghost e: Event)
      requires Valid() && Shows(o, e)
      modifies this
      ensures Valid() && log == old(log) + [e] && items == old(items) + [o] && Repr == old(Repr) + Footprint(o)
    {
      items, log, Repr := items + [o], log + [e], Repr + Footprint(o);
    }
  }

  /** Reading the header does not depend on what follows it. */
  lemma HeaderOfPrefix(b: seq<byte>)
    requires |b| >= HEADER_SIZE
    ensures var h := b[..HEADER_SIZE];
            HeaderKind(h) == HeaderKind(b) && HeaderId(h) == HeaderId(b) && HeaderLength(h) == HeaderLength(b)
  {
    assert b[..HEADER_SIZE][1..5] == b[1..5];
    assert b[..HEADER_SIZE][5..9] == b[5..9];
  }

  lemma NothingTaken(rest: seq<byte>)
    ensures rest[..0] == [] && rest[0..] == rest
  {
  }

  /**
    * The basic node: one scratch buffer for headers and payloads, replaced by a larger one when a length asks
    * for it.
    */
  class Node {
    const source: Source
    const table: Assembly
    var buffer: array<byte>
    ghost var Repr: set<object>

    ghost predicate Valid()
      reads this, Repr
    {
      && {this, source, table, buffer} <= Repr && table.Repr <= Repr && table.Valid()
      && {this, source, buffer} !! table.Repr
      && buffer.Length >= HEADER_SIZE
    }

    constructor (source: Source)
      ensures Valid() && fresh(Repr - {source}) && this.source == source && table.contents == map[]
    {
      this.source := source;
      table := new Assembly();
      buffer := new byte[MB];
      new;
      Repr := {this, source, table, buffer} + table.Repr;
    }

    /** The payload of a Data frame goes through the scratch buffer. */
    method TakeData(id: uint32, length: uint32) returns (o: Output)
      requires Valid() && length <= MAX_LENGTH && length <= buffer.Length
      modifies Repr
      ensures Valid() && fresh(Repr - old(Repr)) && !o.Delivered?
      ensures Refines(AfterHeader(Basic, old(table.contents), DATA, id, length, old(source.rest)),
                      o, table.contents, source.rest, old(table.contents))
    {
      ghost var f := Frame(DATA, id, length, if length <= |source.rest| then source.rest[..length] else []);
      if length == 0 {
        NothingTaken(source.rest);
        if id !in table.messages {
          return Reported(UnknownFrame(id));
        }
        return Quiet;
      }
      var r := source.ReadFull(buffer, length);
      if r == Eof {
        return Stopped;
      }
      if r == Unexpected {
        return Reported(UnexpectedEOF);
      }
      o := table.OnData(id, buffer, length, Basic, f);
      Repr := Repr + table.Repr;
    }

    method TakeStart(id: uint32, length: uint32) returns (o: Output)
      requires Valid() && length <= MAX_LENGTH
      modifies Repr
      ensures Valid() && fresh(Repr - old(Repr)) && !o.Delivered?
      ensures Refines(AfterHeader(Basic, old(table.contents), START, id, length, old(source.rest)),
                      o, table.contents, source.rest, old(table.contents))
    {
      NothingTaken(source.rest);
      o := table.OnStart(id, if length < MB then length else MB);
      Repr := Repr + table.Repr;
    }

    method TakeLast(kind: byte, id: uint32, length: uint32) returns (o: Output)
      requires Valid() && length <= MAX_LENGTH && (kind == END || kind == ABORT)
      modifies Repr
      ensures Valid() && fresh(Repr - old(Repr)) && Footprint(o) !! Repr
      ensures Refines(AfterHeader(Basic, old(table.contents), kind, id, length, old(source.rest)),
                      o, table.contents, source.rest, old(table.contents))
    {
      NothingTaken(source.rest);
      o := table.OnLast(id, if kind == END then COMPLETE else ABORT, Basic, Frame(kind, id, length, []));
      Repr := Repr - Footprint(o);
    }

    /** The part of the loop body after the header. */
    method Dispatch(kind: byte, id: uint32, length: uint32) returns (o: Output)
      requires Valid()
      modifies Repr
      ensures Valid() && fresh(Repr - old(Repr)) && Footprint(o) !! Repr
      ensures Refines(AfterHeader(Basic, old(table.contents), kind, id, length, old(source.rest)),
                      o, table.contents, source.rest, old(table.contents))
    {
      if length > MAX_LENGTH {
        NothingTaken(source.rest);
        return Reported(TooLong(length));
      }
      if buffer.Length < length {
        buffer := new byte[length];
        Repr := Repr + {buffer};
      }
      if kind == START {
        o := TakeStart(id, length);
      } else if kind == DATA {
        o := TakeData(id, length);
      } else if kind == END || kind == ABORT {
        o := TakeLast(kind, id, length);
      } else {
        NothingTaken(source.rest);
        o := Reported(UnknownKind(kind));
      }
    }

    /** One pass of the loop. A delivered message is no longer among the objects the node may write to. */
    method Iterate() returns (o: Output)
      requires Valid()
      modifies Repr
      ensures Valid() && fresh(Repr - old(Repr)) && Footprint(o) !! Repr
      ensures Refines(Reader.Iterate(Basic, old(table.contents), old(source.rest)),
                      o, table.contents, source.rest, old(table.contents))
    {
      ghost var b := source.rest;
      var r := source.ReadFull(buffer, HEADER_SIZE);
      if r == Eof {
        return Stopped;
      }
      if r == Unexpected {
        return Reported(UnexpectedEOF);
      }
      var kind, id, length := ParseHeader(buffer);
      HeaderOfPrefix(b);
      IterateAfterHeader(Basic, table.contents, b);
      o := Dispatch(kind, id, length);
    }

    /** Poll the context, read one frame, send what it gives; `es` is what was sent. */
    method Pass(cancel: Option<nat>, ch: Channel) returns (more: bool, ghost es: seq<Event>)
      requires Valid() && ch.Valid() && ch.Repr !! Repr
      modifies Repr, ch
      ensures Valid() && fresh(Repr - old(Repr)) && ch.Valid() && ch.Repr !! Repr
      ensures old(ch.items) <= ch.items && ch.log == old(ch.log) + es && (more ==> |source.rest| < |old(source.rest)|)
      ensures more ==> cancel != Some(0)
      ensures var later := if more then Run(Basic, table.contents, source.rest, Later(cancel))
              else Outcome(table.contents, []);
              Run(Basic, old(table.contents), old(source.rest), cancel) == Outcome(later.pending, es + later.events)
    {
      if cancel == Some(0) {
        ch.Send(Reported(ContextDone), Failed(ContextDone));
        return false, [Failed(ContextDone)];
      }
      ghost var it := Reader.Iterate(Basic, table.contents, source.rest);
      RunStep(Basic, table.contents, source.rest, cancel);
      var o := Iterate();
      if o.Stopped? {
        return false, [];
      }
      if o.Quiet? {
        return true, [];
      }
      ghost var e := it.outcome.events[0];
      assert it.outcome.events == [e];
      ch.Send(o, e);
      return true, [e];
    }

    /**
     The whole loop. What was on the channel stays on it, object by object, and the channel's own validity, kept
     across every pass, says that no later frame changed a message delivered earlier; what it was sent is what
     the specification emits.
     */
    method ReadMessage(cancel: Option<nat>, ch: Channel)
      requires Valid() && ch.Valid() && ch.Repr !! Repr
      modifies Repr, ch
      ensures Valid() && fresh(Repr - old(Repr)) && ch.Valid() && ch.Repr !! Repr
      ensures var r := Run(Basic, old(table.contents), old(source.rest), cancel);
              old(ch.items) <= ch.items && ch.log == old(ch.log) + r.events && table.contents == r.pending
    {
      ghost var sent: seq<Event> := [];
      var more, left := true, cancel;
      while more
        invariant Valid() && fresh(Repr - old(Repr)) && ch.Valid() && ch.Repr !! Repr
        invariant old(ch.items) <= ch.items && ch.log == old(ch.log) + sent
        invariant var later := if more then Run(Basic, table.contents, source.rest, left)
                  else Outcome(table.contents, []);
                  Run(Basic, old(table.contents), old(source.rest), cancel)
                      == Outcome(later.pending, sent + later.events)
        decreases more, |source.rest|
      {
        ghost var es;
        more, es := Pass(left, ch);
        left := if more then Later(left) else left;
        ghost var later := if more then Run(Basic, table.contents, source.rest, left) else Outcome(table.contents, []);
        Regroup(sent, es, later.events);
        Regroup(old(ch.log), sent, es);
        sent := sent + es;
      }
    }

    /** `Close` between passes forgets every partial message. */
    method Close()
      requires Valid()
      modifies Repr
      ensures Valid() && Repr == old(Repr) && table.contents == map[] && source.rest == old(source.rest)
    {
      table.Clear();
    }
  }
}
