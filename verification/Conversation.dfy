/** A module and a loader at the two ends of a wire that loses nothing: what the one writes, the other's loop takes. */
module Conversation {
  import opened Wire
  import opened Codec
  import opened Adapters
  import opened Plugin
  import opened Loader
  import opened PluginModule

  /** What the loader knows after its loop has taken the messages one by one. */
  function Hear(v: View, rs: set<Name>, ms: set<Name>, written: seq<Message>): View {
    if written == [] then v
    else
      var n := |written| - 1;
      Handle(Hear(v, rs, ms, written[..n]), rs, ms, ApiMessage(written[n].sequence, written[n].data)).view
  }

  /** The message loop on what is on the wire from number `first` on. */
  method Relay(written: seq<Message>, first: nat, host: Host)
    requires host.Valid() && first <= |written|
    modifies host.Repr
    ensures host.Valid() && host.Repr == old(host.Repr)
    ensures host.Now() == Hear(old(host.Now()), host.requestHandlers, host.messageHandlers, written[first..])
  {
    var i := first;
    assert written[first..first] == [];
    while i < |written|
      invariant first <= i <= |written| && host.Valid() && host.Repr == old(host.Repr)
      invariant host.Now() == Hear(old(host.Now()), host.requestHandlers, host.messageHandlers, written[first..i])
    {
      var _ := host.HandleMessage(ApiMessage(written[i].sequence, written[i].data));
      i := i + 1;
      assert written[first..i][..i - 1 - first] == written[first..i - 1];
    }
    assert written[first..|written|] == written[first..];
  }

  /** The loader's three signals. */
  datatype Signals = Signals(ready: bool, shutdownAck: bool, forceShutdownAck: bool)

  function SignalsOf(v: View): Signals {
    Signals(v.readySignal, v.shutdownAck, v.forceShutdownAck)
  }

  /** The signals after a header of this name. */
  function After(v: View, name: Name): Signals {
    Signals(v.readySignal || (name == READY && !v.readyReceived), v.shutdownAck || name == SHUTDOWN_ACK,
            v.forceShutdownAck || name == FORCE_SHUTDOWN_ACK)
  }

  lemma HearOne(v: View, rs: set<Name>, ms: set<Name>, id: uint32, h: Header)
    requires Short(h)
    ensures var now := Hear(v, rs, ms, [Message(id, Encode(h))]);
            SignalsOf(now) == After(v, h.name) && (now.readyReceived <==> v.readyReceived || h.name == READY)
  {
    var w := [Message(id, Encode(h))];
    assert w[..0] == [];
    DecodeOfExactEncode(ZERO_HEADER, h);
    RoutedIff(v, rs, ms, ApiMessage(id, Encode(h)));
  }

  lemma HearSnoc(v: View, rs: set<Name>, ms: set<Name>, w: Message, x: Message)
    ensures Hear(v, rs, ms, [w] + [x]) == Hear(Hear(v, rs, ms, [w]), rs, ms, [x])
  {
    assert ([w] + [x])[..1] == [w];
    assert [x][..0] == [];
  }

  /** The ready signal of a module that begins to listen makes the loader that waits for it ready. */
  method Load(handler: map<Name, Handler>, requestHandlers: set<Name>, messageHandlers: set<Name>)
    returns (module_: Module, host: Host)
    ensures fresh(module_) && fresh(module_.multiplexer) && fresh(host.Repr) && Connected(module_, host)
    ensures module_.view.pc.Ready?
    ensures module_.handler == handler && !module_.shutdown && !module_.forceShutdown && !module_.cancelled
    ensures host.readySignal && host.readyReceived && !host.shutdownAck && !host.forceShutdownAck
  {
    var multiplexer := new Multiplexer();
    module_ := new Module(multiplexer, handler);
    host := new Host(requestHandlers, messageHandlers);
    ghost var h := Header(READY, false, ACK, READY_TEXT);
    NamesAreShort();
    HearOne(host.Now(), requestHandlers, messageHandlers, multiplexer.sequence, h);
    assert multiplexer.written[0..] == multiplexer.written;
    Relay(multiplexer.written, 0, host);
  }

  lemma NamesAreShort()
    ensures |READY| < 100 && |SHUTDOWN_ACK| < 100 && |FORCE_SHUTDOWN_ACK| < 100 && |REQUEST_READY_ACK| < 100
    ensures |READY_TEXT| < 100 && |SHUTDOWN_STARTED| < 100 && |FORCE_STARTED| < 100 && |READY_SENT| < 100
    ensures |UNAVAILABLE_DRAINING| < 100
  {
  }

  lemma NameIsShort(b: seq<byte>)
    ensures var d := Decode(ZERO_HEADER, b);
            |if d.Decoded? then d.header.name else d.partial.name| < WORD32
  {
  }

  /** A header written after `before`, and nothing else, is what the loader hears. */
  lemma HearNext(v: View, rs: set<Name>, ms: set<Name>, before: seq<Message>, id: uint32, h: Header)
    requires Short(h)
    ensures var now := Hear(v, rs, ms, (before + [Message(id, Encode(h))])[|before|..]);
            SignalsOf(now) == After(v, h.name) && (now.readyReceived <==> v.readyReceived || h.name == READY)
  {
    var w := [Message(id, Encode(h))];
    assert (before + w)[|before|..] == w;
    HearOne(v, rs, ms, id, h);
  }

  /** The answer to a request for the ready signal: the signal, and an acknowledgment the loader does not act on. */
  lemma HearReady(v: View, rs: set<Name>, ms: set<Name>, before: seq<Message>, ready: Message, ack: Message)
    requires ready.data == Encode(Header(READY, false, ACK, READY_TEXT))
    requires ack.data == Encode(Header(REQUEST_READY_ACK, false, ACK, READY_SENT))
    ensures var now := Hear(v, rs, ms, (before + [ready] + [ack])[|before|..]);
            SignalsOf(now) == After(v, READY)
  {
    NamesAreShort();
    NamesDiffer();
    assert (before + [ready] + [ack])[|before|..] == [ready] + [ack];
    HearSnoc(v, rs, ms, ready, ack);
    HearOne(v, rs, ms, ready.sequence, Header(READY, false, ACK, READY_TEXT));
    HearOne(Hear(v, rs, ms, [ready]), rs, ms, ack.sequence, Header(REQUEST_READY_ACK, false, ACK, READY_SENT));
  }

  /** What the module's listener says to a message of this name, if anything, when no force shutdown is on. */
  predicate Says(said: Name, control: Name, m: OldMessage, was: Before) {
    var d := Decode(ZERO_HEADER, m.data);
    if d.Decoded? && Control(d.header.name) then d.header.name == control
    else was.draining && said == (if d.Decoded? then d.header.name else d.partial.name)
  }

  /**
   The signals raised by a message: an acknowledgment by a shutdown message, the other one by a force shutdown, and the
   ready signal by a request for it; and each by the refusal of a message of that very name. Nothing else raises one.
   */
  function Raised(was: Before, m: OldMessage, v: View): Signals {
    Signals(v.readySignal || (!was.silent && !v.readyReceived && Says(READY, REQUEST_READY, m, was)),
            v.shutdownAck || (!was.silent && Says(SHUTDOWN_ACK, SHUTDOWN, m, was)),
            v.forceShutdownAck || (!was.silent && Says(FORCE_SHUTDOWN_ACK, FORCE_SHUTDOWN, m, was)))
  }

  lemma HeardControl(was: Before, m: OldMessage, before: seq<Message>, sequence: uint32, written: seq<Message>, v: View,
                     rs: set<Name>, ms: set<Name>)
    requires Writes(was, m, before, sequence, written)
    requires !was.silent && Decode(ZERO_HEADER, m.data).Decoded? && Control(Decode(ZERO_HEADER, m.data).header.name)
    ensures before <= written && SignalsOf(Hear(v, rs, ms, written[|before|..])) == Raised(was, m, v)
  {
    var name := Decode(ZERO_HEADER, m.data).header.name;
    ControlNamesDiffer();
    NamesDiffer();
    NamesAreShort();
    if name == SHUTDOWN {
      HearNext(v, rs, ms, before, m.id, Header(SHUTDOWN_ACK, false, ACK, SHUTDOWN_STARTED));
    } else if name == FORCE_SHUTDOWN {
      HearNext(v, rs, ms, before, m.id, Header(FORCE_SHUTDOWN_ACK, false, ACK, FORCE_STARTED));
    } else {
      HearReady(v, rs, ms, before, Message(sequence, Encode(Header(READY, false, ACK, READY_TEXT))),
                Message(m.id, Encode(Header(REQUEST_READY_ACK, false, ACK, READY_SENT))));
    }
  }

  lemma HeardOf(was: Before, m: OldMessage, before: seq<Message>, sequence: uint32, written: seq<Message>, v: View,
                rs: set<Name>, ms: set<Name>)
    requires Writes(was, m, before, sequence, written)
    ensures before <= written && SignalsOf(Hear(v, rs, ms, written[|before|..])) == Raised(was, m, v)
  {
    var d := Decode(ZERO_HEADER, m.data);
    if !was.silent && d.Decoded? && Control(d.header.name) {
      HeardControl(was, m, before, sequence, written, v, rs, ms);
    } else if !was.silent && was.draining {
      NameIsShort(m.data);
      NamesAreShort();
      HearNext(v, rs, ms, before, m.id,
               Header(if d.Decoded? then d.header.name else d.partial.name, true, ERROR, UNAVAILABLE_DRAINING));
    } else {
      assert written[|before|..] == [];
    }
  }

  /** Both ends, each with its own objects. */
  ghost predicate Connected(module_: Module, host: Host)
    reads module_, module_.multiplexer, host, host.Repr
  {
    module_.Valid() && host.Valid() && module_ !in host.Repr && module_.multiplexer !in host.Repr
  }

  /** What the module wrote from number `first` on reaches the loader. */
  method Deliver(module_: Module, host: Host, first: nat)
    requires Connected(module_, host) && first <= |module_.multiplexer.written|
    modifies host.Repr
    ensures Connected(module_, host)
    ensures host.Now() == Hear(old(host.Now()), host.requestHandlers, host.messageHandlers,
                               module_.multiplexer.written[first..])
  {
    Relay(module_.multiplexer.written, first, host);
  }

  /**
   One pass of the module's listener, and the loader's loop on what it wrote. A shutdown message raises the loader's
   acknowledgment signal, a force shutdown the other one, and a request for it the ready signal; a module in shutdown
   raises one too by refusing a message of that name, and nothing else does.
   */
  method PassHeard(module_: Module, host: Host, m: OldMessage) returns (done: bool)
    requires Connected(module_, host) && module_.view.pc.Ready?
    modifies module_, module_.multiplexer, host.Repr
    ensures Connected(module_, host) && (done || module_.view.pc.Ready?)
    ensures SignalsOf(host.Now()) ==
            Raised(Before(old(module_.shutdown), old(module_.forceShutdown || module_.cancelled)), m, old(host.Now()))
  {
    var first := |module_.multiplexer.written|;
    ghost var before, v := module_.multiplexer.written, host.Now();
    ghost var was := Before(module_.shutdown, module_.forceShutdown || module_.cancelled);
    done := module_.Pass(m);
    ghost var written, sequence := module_.multiplexer.written, module_.multiplexer.sequence;
    assert host.Now() == v;
    Deliver(module_, host, first);
    ghost var now := host.Now();
    assert now == Hear(v, host.requestHandlers, host.messageHandlers, written[|before|..]);
    HeardOf(was, m, before, sequence, written, v, host.requestHandlers, host.messageHandlers);
    assert SignalsOf(now) == Raised(was, m, v);
  }

  lemma ControlNamesDiffer()
    ensures SHUTDOWN != FORCE_SHUTDOWN && SHUTDOWN != REQUEST_READY && FORCE_SHUTDOWN != REQUEST_READY
  {
    assert |SHUTDOWN| == 8 && |FORCE_SHUTDOWN| == 14 && |REQUEST_READY| == 13;
  }
}
