/** The byte stream, the growing message buffers and the map of partial messages that the readers update in place. */
module Buffers {
  import opened Wire
  import opened Frames
  import opened Reader

  datatype ReadResult = Full | Eof | Unexpected

  /** A finite input stream behind `io.ReadFull`. */
  class Source {
    var rest: seq<byte>

    constructor (b: seq<byte>)
      ensures rest == b
    {
      rest := b;
    }

    /** Fills `buf[..n]`, or takes what is left: end of file if nothing was, an unexpected one otherwise. */
    method ReadFull(buf: array<byte>, n: nat) returns (r: ReadResult)
      requires n <= buf.Length
      modifies this, buf
      ensures n <= |old(rest)| ==> r == Full && buf[..n] == old(rest)[..n] && rest == old(rest)[n..]
      ensures n > |old(rest)| ==> rest == [] && r == (if old(rest) == [] then Eof else Unexpected)
    {
      var c := if n <= |rest| then n else |rest|;
      var taken := rest[..c];
      for i := 0 to c
        invariant buf[..i] == taken[..i]
        invariant rest == old(rest)
      {
        buf[i] := taken[i];
      }
      r := if c == n then Full else if c == 0 then Eof else Unexpected;
      rest := rest[c..];
    }
  }

  /** The type a delivered message is stamped with. */
  const COMPLETE: byte := 5

  /** One pass of a reader stops, stays silent, reports an error, or hands a message over. */
  datatype Output = Stopped | Quiet | Reported(cause: Cause) | Delivered(m: Message)

  /** What the receiver of an output may look at. */
  function Footprint(o: Output): set<object>
    reads if o.Delivered? then {o.m} else {}
  {
    if o.Delivered? then {o.m, o.m.buf} else {}
  }

  /** The output, read off the heap, is this event. */
  ghost predicate Shows(o: Output, e: Event)
    reads if o.Delivered? then {o.m, o.m.buf} else {}
  {
    match o
    case Delivered(m) =>
      m.Valid() && e == if m.kind == COMPLETE then Complete(m.id, m.Data()) else Aborted(m.id, m.Data())
    case Reported(c) => e == Failed(c)
    case _ => false
  }

  ghost predicate ShowsAll(o: Output, es: seq<Event>)
    reads if o.Delivered? then {o.m, o.m.buf} else {}
  {
    if o.Quiet? then es == [] else |es| == 1 && Shows(o, es[0])
  }

  /** Go's `copy(dst[at:], src[:n])` between different arrays. */
  method Copy(src: array<byte>, n: nat, dst: array<byte>, at: nat)
    requires src != dst && n <= src.Length && at + n <= dst.Length
    modifies dst
    ensures dst[..at + n] == old(dst[..at]) + src[..n]
  {
    for i := 0 to n
      invariant dst[..at + i] == old(dst[..at]) + src[..i]
    {
      dst[at + i] := src[i];
    }
  }

  lemma SmallerMap<T>(m: map<uint32, T>, id: uint32)
    requires id in m
    ensures |m - {id}| < |m|
  {
    assert (m - {id}).Keys == m.Keys - {id};
    assert |m| == |m.Keys| && |m - {id}| == |(m - {id}).Keys|;
  }

  /** A message under construction: an id, a type and a byte slice with spare capacity. */
  class Message {
    const id: uint32
    var kind: byte
    var buf: array<byte>
    var len: nat

    ghost predicate Valid()
      reads this
    {
      len <= buf.Length
    }

    ghost function Data(): seq<byte>
      requires Valid()
      reads this, buf
    {
      buf[..len]
    }

    constructor (id: uint32, capacity: nat)
      ensures Valid() && Data() == [] && this.id == id && kind == START && fresh(buf)
    {
      this.id := id;
      kind := START;
      buf := new byte[capacity];
      len := 0;
    }

    /** The half of `append` that needs a larger array: the bytes move to it. */
    method Grow(n: nat)
      requires Valid()
      modifies this`buf
      ensures Valid() && fresh(buf) && len + n <= buf.Length && Data() == old(Data())
    {
      var larger := new byte[2 * (len + n)];
      Copy(buf, len, larger, 0);
      buf := larger;
    }

    /** The half of `append` that copies into the spare capacity. */
    method Put(src: array<byte>, n: nat)
      requires Valid() && n <= src.Length && src != buf && len + n <= buf.Length
      modifies this`len, buf
      ensures Valid() && Data() == old(Data()) + src[..n]
    {
      Copy(src, n, buf, len);
      len := len + n;
    }
  }

  /**
   The map from id to partial message. It owns its messages and their arrays, and no two share one;
   `contents` is what they hold.
   */
  class Assembly {
    var messages: map<uint32, Message>
    ghost var contents: Pending
    ghost var Repr: set<object>

    ghost predicate Valid()
      reads this, Repr
    {
      && this in Repr
      && contents.Keys == messages.Keys
      && (forall id :: id in messages ==>
            var m := messages[id];
            m in Repr && m.buf in Repr && m.id == id && m.Valid() && contents[id] == m.Data())
      && (forall i, j :: i in messages && j in messages && i != j ==> messages[i].buf != messages[j].buf)
    }

    constructor ()
      ensures Valid() && fresh(Repr) && messages == map[] && contents == map[]
    {
      messages := map[];
      contents := map[];
      Repr := {this};
    }

    method Begin(id: uint32, capacity: nat)
      requires Valid() && id !in messages
      modifies this
      ensures Valid() && fresh(Repr - old(Repr))
      ensures contents == old(contents)[id := []]
    {
      var m := new Message(id, capacity);
      messages := messages[id := m];
      contents := contents[id := []];
      Repr := Repr + {m, m.buf};
    }

    method Reserve(id: uint32, n: nat)
      requires Valid() && id in messages
      modifies this, messages[id]
      ensures Valid() && fresh(Repr - old(Repr)) && messages == old(messages) && contents == old(contents)
      ensures messages[id].len + n <= messages[id].buf.Length
    {
      var m := messages[id];
      if m.len + n > m.buf.Length {
        m.Grow(n);
        Repr := Repr + {m.buf};
      }
    }

    method Fill(id: uint32, src: array<byte>, n: nat)
      requires Valid() && id in messages && src !in Repr && n <= src.Length
      requires messages[id].len + n <= messages[id].buf.Length
      modifies this`contents, messages[id], messages[id].buf
      ensures Valid()
      ensures contents == old(contents)[id := old(contents)[id] + src[..n]]
    {
      var m := messages[id];
      m.Put(src, n);
      contents := contents[id := contents[id] + src[..n]];
    }

    /** The bytes are copied: afterwards the scratch array is still not part of any message. */
    method Extend(id: uint32, src: array<byte>, n: nat)
      requires Valid() && id in messages && src !in Repr && n <= src.Length
      modifies Repr
      ensures Valid() && fresh(Repr - old(Repr)) && src !in Repr
      ensures contents == old(contents)[id := old(contents)[id] + src[..n]]
    {
      Reserve(id, n);
      Fill(id, src, n);
    }

    /** The message leaves the map, and with its array leaves what the reader may still write to. */
    method Take(id: uint32) returns (m: Message)
      requires Valid() && id in messages
      modifies this
      ensures Valid() && Repr <= old(Repr)
      ensures m in old(Repr) && m !in Repr && m.buf !in Repr && m.Valid()
      ensures m.id == id && m.Data() == old(contents)[id] && m == old(messages)[id]
      ensures contents == old(contents) - {id}
    {
      m := messages[id];
      messages := messages - {id};
      contents := contents - {id};
      Repr := Repr - {m, m.buf};
    }

    /** A Start frame within the limit. */
    method OnStart(id: uint32, capacity: nat) returns (o: Output)
      requires Valid()
      modifies this
      ensures Valid() && fresh(Repr - old(Repr))
      ensures o == if id in old(contents) then Reported(AlreadyExists(id)) else Quiet
      ensures contents == if id in old(contents) then old(contents) else old(contents)[id := []]
    {
      if id in messages {
        return Reported(AlreadyExists(id));
      }
      Begin(id, capacity);
      return Quiet;
    }

    /** A Data frame whose non-empty payload has been read into `src`. */
    method OnData(id: uint32, src: array<byte>, n: nat, ghost v: Variant, ghost f: Frame) returns (o: Output)
      requires Valid() && src !in Repr && 0 < n <= src.Length
      requires f.kind == DATA && f.id == id && f.length == n <= MAX_LENGTH && f.payload == src[..n]
      modifies Repr
      ensures Valid() && fresh(Repr - old(Repr)) && src !in Repr && !o.Stopped? && !o.Delivered?
      ensures var r := OnFrame(v, old(contents), f);
              contents == r.pending && ShowsAll(o, r.events)
    {
      if id !in messages {
        return Reported(UnknownFrame(id));
      }
      if messages[id].len + n > MAX_LENGTH {
        var _ := Take(id);
        return Reported(Oversize);
      }
      Extend(id, src, n);
      return Quiet;
    }

    /** An End or Abort frame: the message is stamped and handed over. */
    method OnLast(id: uint32, kind: byte, ghost v: Variant, ghost f: Frame) returns (o: Output)
      requires Valid() && f.id == id && f.length <= MAX_LENGTH
      requires (f.kind == END && kind == COMPLETE) || (f.kind == ABORT && kind == ABORT)
      modifies Repr
      ensures Valid() && Repr <= old(Repr) && !o.Stopped? && Footprint(o) !! Repr && Footprint(o) <= old(Repr)
      ensures var r := OnFrame(v, old(contents), f);
              contents == r.pending && ShowsAll(o, r.events)
    {
      if id !in messages {
        return Reported(UnknownFrame(id));
      }
      var m := Take(id);
      m.kind := kind;
      return Delivered(m);
    }

    /** `Close` deletes entry by entry. */
    method Clear()
      requires Valid()
      modifies this
      ensures Valid() && Repr == old(Repr)
      ensures messages == map[] && contents == map[]
    {
      while messages != map[]
        invariant Repr == old(Repr)
        decreases |messages|
      {
        var id :| id in messages;
        SmallerMap(messages, id);
        messages := messages - {id};
      }
      contents := map[];
    }
  }
}
