/** The host side: pending requests and their channels, the id generator, and the message loop. */
module Loader {
  import opened Wire
  import opened Codec
  import opened Adapters
  import opened Plugin
  import Ids

  /** A response channel of capacity one. */
  datatype Slot = Empty | Holding(data: seq<byte>) | Closed

  /** The loader's state in values; the three signals are channels of capacity one as well. */
  datatype View = View(readyReceived: bool, readySignal: bool, shutdownAck: bool, forceShutdownAck: bool,
                       pending: map<uint32, Slot>)

  datatype Action =
    | Skipped
    | Signalled
    | Delivered(id: uint32)
    | Overflowed(id: uint32)
    | ToRequestHandler(header: Header, sequence: uint32)
    | ToMessageHandler(header: Header)

  datatype Handled = Handled(view: View, action: Action)

  predicate IsResponse(v: View, h: Header, sequence: uint32) {
    sequence != 0 && (h.messageType == RESPONSE || h.messageType == ERROR) && sequence in v.pending
  }

  /** The routing order of the message loop. */
  function Handle(v: View, requestHandlers: set<Name>, messageHandlers: set<Name>, m: ApiMessage): Handled {
    match Decode(ZERO_HEADER, m.data)
    case Malformed(_) => Handled(v, Skipped)
    case Decoded(h, _) =>
      if !v.readyReceived && h.name == READY then Handled(v.(readyReceived := true, readySignal := true), Signalled)
      else if h.name == SHUTDOWN_ACK then Handled(v.(shutdownAck := true), Signalled)
      else if h.name == FORCE_SHUTDOWN_ACK then Handled(v.(forceShutdownAck := true), Signalled)
      else if h.name == REQUEST_READY_ACK then Handled(v, Signalled)
      else if IsResponse(v, h, m.sequence) then
        if v.pending[m.sequence].Empty?
        then Handled(v.(pending := v.pending[m.sequence := Holding(m.data)]), Delivered(m.sequence))
        else Handled(v, Overflowed(m.sequence))
      else if h.messageType == REQUEST && m.sequence != 0 && h.name in requestHandlers then
        Handled(v, ToRequestHandler(h, m.sequence))
      else if (h.messageType == NOTIFY || h.messageType == ACK) && h.name in messageHandlers then
        Handled(v, ToMessageHandler(h))
      else Handled(v, Skipped)
  }

  /**
   What a message does, in terms of its header and of what the loader knows: which signal it raises, whose channel it
   fills, and which handler is asked.
   */
  lemma RoutedIff(v: View, rs: set<Name>, ms: set<Name>, m: ApiMessage)
    ensures var r, d := Handle(v, rs, ms, m), Decode(ZERO_HEADER, m.data);
            && (r.view.readySignal <==> v.readySignal || (d.Decoded? && d.header.name == READY && !v.readyReceived))
            && (r.view.readyReceived <==> v.readyReceived || (d.Decoded? && d.header.name == READY))
            && (r.view.shutdownAck <==> v.shutdownAck || (d.Decoded? && d.header.name == SHUTDOWN_ACK))
            && (r.view.forceShutdownAck <==> v.forceShutdownAck || (d.Decoded? && d.header.name == FORCE_SHUTDOWN_ACK))
            && (r.action == Signalled <==>
                  d.Decoded? && ((d.header.name == READY && !v.readyReceived) || d.header.name == SHUTDOWN_ACK
                                 || d.header.name == FORCE_SHUTDOWN_ACK || d.header.name == REQUEST_READY_ACK))
  {
    NamesDiffer();
  }

  /** The same for the messages the loop does not keep for itself: whose channel, which handler, and what it gets. */
  lemma ForwardedIff(v: View, rs: set<Name>, ms: set<Name>, m: ApiMessage)
    ensures var r, d, id := Handle(v, rs, ms, m), Decode(ZERO_HEADER, m.data), m.sequence;
            var h := if d.Decoded? then d.header else d.partial;
            var open := d.Decoded? && r.action != Signalled;
            var response := id != 0 && (h.messageType == RESPONSE || h.messageType == ERROR) && id in v.pending;
            && (r.action == Delivered(id) <==> open && response && v.pending[id].Empty?)
            && (r.action == Overflowed(id) <==> open && response && !v.pending[id].Empty?)
            && (r.action == ToRequestHandler(h, id) <==> open && h.messageType == REQUEST && id != 0 && h.name in rs)
            && (r.action == ToMessageHandler(h) <==>
                  open && (h.messageType == NOTIFY || h.messageType == ACK) && h.name in ms)
            && (open ==> r.action == Skipped || r.action == Delivered(id) || r.action == Overflowed(id)
                         || r.action == ToRequestHandler(h, id) || r.action == ToMessageHandler(h))
            && r.view.pending == if r.action == Delivered(id) then v.pending[id := Holding(m.data)] else v.pending
  {
  }

  lemma NamesDiffer()
    ensures READY != SHUTDOWN_ACK && READY != FORCE_SHUTDOWN_ACK && READY != REQUEST_READY_ACK
    ensures SHUTDOWN_ACK != FORCE_SHUTDOWN_ACK && SHUTDOWN_ACK != REQUEST_READY_ACK
    ensures FORCE_SHUTDOWN_ACK != REQUEST_READY_ACK
  {
    assert |READY| == 5 && |SHUTDOWN_ACK| == 12 && |FORCE_SHUTDOWN_ACK| == 18 && |REQUEST_READY_ACK| == 17;
  }

  /**
   A message reaches the caller waiting under its id exactly when it decodes, is of type Response or Error,
   and its name is not one the loop keeps for itself. In particular the service it names plays no part: any
   such message under a pending id is taken for the response.
   */
  lemma DeliveredIff(v: View, rs: set<Name>, ms: set<Name>, m: ApiMessage)
    requires m.sequence != 0 && m.sequence in v.pending && v.pending[m.sequence].Empty?
    ensures var r := Handle(v, rs, ms, m);
            var d := Decode(ZERO_HEADER, m.data);
            (r.action == Delivered(m.sequence) <==>
               d.Decoded? && (d.header.messageType == RESPONSE || d.header.messageType == ERROR)
               && !Captured(v.readyReceived, d.header.name))
            && (r.action == Delivered(m.sequence) ==> r.view == v.(pending := v.pending[m.sequence := Holding(m.data)]))
  {
  }

  /** A module's answer to a call reaches the caller exactly if the service's name is not captured. */
  lemma AnswerIsDeliveredIff(v: View, rs: set<Name>, ms: set<Name>, id: uint32, name: Name, o: Outcome)
    requires id != 0 && id in v.pending && v.pending[id].Empty? && |Encode(Respond(name, o))| < WORD32
    ensures var data := Encode(Respond(name, o));
            Handle(v, rs, ms, ApiMessage(id, data)).action == Delivered(id) <==> !Captured(v.readyReceived, name)
  {
    SmallIsShort(Respond(name, o));
    DeliveredIff(v, rs, ms, ApiMessage(id, Encode(Respond(name, o))));
  }

  /** What the deferred cleanup leaves: a buffered response is drained, an empty channel is closed. */
  function CleanedUp(s: Slot): Slot {
    match s
    case Holding(_) => Empty
    case Empty => Closed
    case Closed => Closed
  }

  // ---- The loader as the object its methods update ----

  class Chan {
    ghost const home: uint32
    var slot: Slot

    constructor (ghost home: uint32)
      ensures this.home == home && slot == Empty
    {
      this.home := home;
      slot := Empty;
    }
  }

  class Host {
    var requestID: uint32
    var pendingRequests: map<uint32, Chan>
    var readyReceived: bool
    var readySignal: bool
    var shutdownAck: bool
    var forceShutdownAck: bool
    const requestHandlers: set<Name>
    const messageHandlers: set<Name>
    ghost var Repr: set<object>

    ghost predicate Valid()
      reads this, Repr
    {
      && this in Repr
      && forall id :: id in pendingRequests ==> pendingRequests[id] in Repr && pendingRequests[id].home == id
    }

    ghost function Now(): View
      requires Valid()
      reads this, Repr
    {
      View(readyReceived, readySignal, shutdownAck, forceShutdownAck,
           map id | id in pendingRequests :: pendingRequests[id].slot)
    }

    constructor (requestHandlers: set<Name>, messageHandlers: set<Name>)
      ensures Valid() && fresh(Repr) && requestID == 0 && Now() == View(false, false, false, false, map[])
      ensures this.requestHandlers == requestHandlers && this.messageHandlers == messageHandlers
    {
      requestID, pendingRequests := 0, map[];
      readyReceived, readySignal, shutdownAck, forceShutdownAck := false, false, false, false;
      this.requestHandlers, this.messageHandlers := requestHandlers, messageHandlers;
      Repr := {this};
    }

    /** Draws until an id is neither zero nor pending, at most a hundred times. */
    method GenerateRequestID() returns (id: uint32)
      requires Valid()
      modifies this`requestID
      ensures Valid() && Now() == old(Now())
      ensures id == Ids.Generate(old(requestID), pendingRequests.Keys, Ids.MAX_ATTEMPTS) == requestID
    {
      var attempt := 0;
      while attempt < Ids.MAX_ATTEMPTS
        invariant attempt <= Ids.MAX_ATTEMPTS
        invariant Ids.Generate(old(requestID), pendingRequests.Keys, Ids.MAX_ATTEMPTS)
               == Ids.Generate(requestID, pendingRequests.Keys, Ids.MAX_ATTEMPTS - attempt)
      {
        requestID := (requestID + 1) % WORD32;
        attempt := attempt + 1;
        if requestID == 0 {
          continue;
        }
        if requestID !in pendingRequests {
          return requestID;
        }
      }
      return requestID;
    }

    /** The first half of a call: its channel replaces whatever was registered under the id. */
    method Register(id: uint32) returns (ch: Chan)
      requires Valid()
      modifies this
      ensures Valid() && fresh(ch) && ch.slot == Empty && fresh(Repr - old(Repr))
      ensures Now() == old(Now()).(pending := old(Now()).pending[id := Empty]) && id in pendingRequests
              && pendingRequests[id] == ch
      ensures requestID == old(requestID)
    {
      ch := new Chan(id);
      pendingRequests := pendingRequests[id := ch];
      Repr := Repr + {ch};
    }

    /** The deferred half. */
    method Unregister(id: uint32)
      requires Valid()
      modifies this`pendingRequests
      ensures Valid() && Now() == old(Now()).(pending := old(Now()).pending - {id})
    {
      pendingRequests := pendingRequests - {id};
    }

    /** The wait of a call, once: `done` is a context that has ended, `dataFirst` how the select breaks a tie. */
    method Await(ch: Chan, done: bool, dataFirst: bool) returns (r: Option<CallResult>)
      requires Valid() && ch in Repr
      modifies ch
      ensures Valid()
      ensures r == if done && !dataFirst then Some(Failure)
                   else if old(ch.slot).Holding? then Some(InterpretData(old(ch.slot).data))
                   else if old(ch.slot).Closed? || done then Some(Failure) else None
      ensures old(ch.slot).Holding? && !(done && !dataFirst) ==>
                match Decode(ZERO_HEADER, old(ch.slot).data)
                case Malformed(_) => r == Some(Failure)
                case Decoded(h, _) => r == Some(if h.isError then PluginError(h.payload) else Payload(h.payload))
      ensures ch.slot == if (done && !dataFirst) || !old(ch.slot).Holding? then old(ch.slot) else Empty
    {
      if done && !dataFirst {
        return Some(Failure);
      }
      if ch.slot.Holding? {
        var responseHeader := new HeaderRecord(ZERO_HEADER);
        var ok := responseHeader.UnmarshalBinary(ch.slot.data);
        ch.slot := Empty;
        if !ok {
          return Some(Failure);
        }
        if responseHeader.isError {
          return Some(PluginError(responseHeader.payload));
        }
        return Some(Payload(responseHeader.payload));
      }
      if ch.slot.Closed? || done {
        return Some(Failure);
      }
      return None;
    }

    method Route(m: ApiMessage, h: Header) returns (a: Action)
      requires Valid() && Decode(ZERO_HEADER, m.data).Decoded? && h == Decode(ZERO_HEADER, m.data).header
      requires !Captured(readyReceived, h.name)
      modifies Repr
      ensures Valid() && Repr == old(Repr)
      ensures Handled(Now(), a) == Handle(old(Now()), requestHandlers, messageHandlers, m)
    {
      if m.sequence != 0 && (h.messageType == RESPONSE || h.messageType == ERROR) && m.sequence in pendingRequests {
        var responseChan := pendingRequests[m.sequence];
        if responseChan.slot == Empty {
          responseChan.slot := Holding(m.data);
          assert forall id :: id in pendingRequests && id != m.sequence ==> pendingRequests[id] != responseChan;
          assert Now().pending == old(Now()).pending[m.sequence := Holding(m.data)];
          return Delivered(m.sequence);
        }
        return Overflowed(m.sequence);
      }
      if h.messageType == REQUEST && m.sequence != 0 && h.name in requestHandlers {
        return ToRequestHandler(h, m.sequence);
      }
      if (h.messageType == NOTIFY || h.messageType == ACK) && h.name in messageHandlers {
        return ToMessageHandler(h);
      }
      return Skipped;
    }

    /** One pass of the message loop. */
    method HandleMessage(m: ApiMessage) returns (a: Action)
      requires Valid()
      modifies Repr
      ensures Valid() && Repr == old(Repr)
      ensures Handled(Now(), a) == Handle(old(Now()), requestHandlers, messageHandlers, m)
      ensures var d := Decode(ZERO_HEADER, m.data);
              && (readySignal <==>
                    old(readySignal) || (d.Decoded? && d.header.name == READY && !old(readyReceived)))
              && (shutdownAck <==> old(shutdownAck) || (d.Decoded? && d.header.name == SHUTDOWN_ACK))
              && (forceShutdownAck <==> old(forceShutdownAck) || (d.Decoded? && d.header.name == FORCE_SHUTDOWN_ACK))
    {
      RoutedIff(Now(), requestHandlers, messageHandlers, m);
      var header := new HeaderRecord(ZERO_HEADER);
      var ok := header.UnmarshalBinary(m.data);
      assert Now() == old(Now());
      if !ok {
        return Skipped;
      }
      var h := header.Value();
      if !readyReceived && h.name == READY {
        readyReceived := true;
        readySignal := true;
        return Signalled;
      }
      if h.name == SHUTDOWN_ACK {
        shutdownAck := true;
        return Signalled;
      } else if h.name == FORCE_SHUTDOWN_ACK {
        forceShutdownAck := true;
        return Signalled;
      } else if h.name == REQUEST_READY_ACK {
        return Signalled;
      }
      a := Route(m, h);
    }

    /** The deferred cleanup: each channel is drained or closed, and the table emptied. */
    method Cleanup()
      requires Valid()
      modifies Repr
      ensures Valid() && Repr == old(Repr) && pendingRequests == map[]
      ensures forall id | id in old(pendingRequests) ::
                old(pendingRequests)[id].slot == CleanedUp(old(pendingRequests[id].slot))
      ensures forall id | id in old(pendingRequests) ::
                old(pendingRequests)[id].slot == if old(pendingRequests[id].slot.Holding?) then Empty else Closed
    {
      ghost var before := pendingRequests;
      while pendingRequests != map[]
        invariant Repr == old(Repr) && Valid()
        invariant forall id :: id in pendingRequests ==> id in before && pendingRequests[id] == before[id]
        invariant forall id :: id in before ==>
          before[id].slot == if id in pendingRequests then old(pendingRequests[id].slot)
                             else CleanedUp(old(pendingRequests[id].slot))
        decreases pendingRequests.Keys
      {
        var id :| id in pendingRequests;
        var ch := pendingRequests[id];
        if ch.slot.Holding? {
          ch.slot := Empty;
        } else {
          ch.slot := Closed;
        }
        pendingRequests := pendingRequests - {id};
      }
    }
  }
}
