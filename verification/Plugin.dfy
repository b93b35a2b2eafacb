/** The names both sides of the plugin protocol reserve, and the answers a module gives. */
module Plugin {
  import opened Wire
  import opened Codec
  import opened Adapters

  const READY: Name := Ascii("ready")
  const SHUTDOWN: Name := Ascii("shutdown")
  const FORCE_SHUTDOWN: Name := Ascii("force_shutdown")
  const REQUEST_READY: Name := Ascii("request_ready")
  const SHUTDOWN_ACK: Name := Ascii("shutdown_ack")
  const FORCE_SHUTDOWN_ACK: Name := Ascii("force_shutdown_ack")
  const REQUEST_READY_ACK: Name := Ascii("request_ready_ack")

  // The texts of signals, acknowledgments and refusals.
  const READY_TEXT: seq<byte> := Ascii("ready")
  const SHUTDOWN_STARTED: seq<byte> := Ascii("graceful shutdown started, waiting for jobs to complete")
  const FORCE_STARTED: seq<byte> := Ascii("force shutting down")
  const READY_SENT: seq<byte> := Ascii("ready signal sent in response to request")
  const UNAVAILABLE_FORCED: seq<byte> := Ascii("service unavailable: force shutdown")
  const UNAVAILABLE_DRAINING: seq<byte> := Ascii("service unavailable: graceful shutdown in progress")
  const NO_HANDLER_FOR: seq<byte> := Ascii("no handler registered for service: ")
  const CRITICAL_ERROR_FOR: seq<byte> := Ascii("critical internal error processing request for ")
  const COLON: seq<byte> := Ascii(": ")

  /** Names the module's listener acts on itself. */
  predicate Control(name: Name) {
    name == SHUTDOWN || name == FORCE_SHUTDOWN || name == REQUEST_READY
  }

  /** Names the loader's message loop keeps for itself; `ready` only until it has seen one. */
  predicate Captured(readyReceived: bool, name: Name) {
    (!readyReceived && name == READY) || name == SHUTDOWN_ACK || name == FORCE_SHUTDOWN_ACK || name == REQUEST_READY_ACK
  }

  /** How a request ends on the module's side. */
  datatype Outcome =
    | NoHandler
    | CriticalError(text: seq<byte>)
    | Answer(payload: seq<byte>, isError: bool)
    | ForceDown
    | Draining

  /** The header the module answers a request for service `name` with. */
  function Respond(name: Name, o: Outcome): Header {
    match o
    case NoHandler => Header(name, true, ERROR, NO_HANDLER_FOR + name)
    case CriticalError(text) =>
      Header(name, true, ERROR, CRITICAL_ERROR_FOR + name + COLON + text)
    case Answer(payload, isError) => Header(name, isError, if isError then ERROR else RESPONSE, payload)
    case ForceDown => Header(name, true, ERROR, UNAVAILABLE_FORCED)
    case Draining => Header(name, true, ERROR, UNAVAILABLE_DRAINING)
  }

  lemma RespondShape(name: Name, o: Outcome)
    ensures var h := Respond(name, o);
            h.name == name && (h.messageType == RESPONSE || h.messageType == ERROR)
            && (h.isError <==> h.messageType == ERROR)
  {
  }

  /** What a caller makes of a response header. */
  datatype CallResult = Payload(data: seq<byte>) | PluginError(text: seq<byte>) | Failure

  function Interpret(h: Header): CallResult {
    if h.isError then PluginError(h.payload) else Payload(h.payload)
  }

  function InterpretData(data: seq<byte>): CallResult {
    match Decode(ZERO_HEADER, data)
    case Decoded(h, _) => Interpret(h)
    case Malformed(_) => Failure
  }

  /**
   What a caller makes of the bytes of an answer: the handler's payload, as a result or as a plugin error as the
   handler said, and a plugin error with its text for everything else.
   */
  lemma ResultOfAnswer(name: Name, o: Outcome)
    requires |Encode(Respond(name, o))| < WORD32
    ensures InterpretData(Encode(Respond(name, o))) ==
            (match o
             case Answer(payload, isError) => if isError then PluginError(payload) else Payload(payload)
             case NoHandler => PluginError(NO_HANDLER_FOR + name)
             case CriticalError(text) =>
               PluginError(CRITICAL_ERROR_FOR + name + COLON + text)
             case ForceDown => PluginError(UNAVAILABLE_FORCED)
             case Draining => PluginError(UNAVAILABLE_DRAINING))
  {
    SmallIsShort(Respond(name, o));
  }

  function Request(name: Name, payload: seq<byte>): Header {
    Header(name, false, REQUEST, payload)
  }

  function Ack(name: Name, payload: seq<byte>): Header {
    Header(name, false, ACK, payload)
  }

  /** A message small enough for the multiplexer to deliver has lengths that fit its header. */
  lemma SmallIsShort(h: Header)
    requires |Encode(h)| < WORD32
    ensures Short(h) && Decode(ZERO_HEADER, Encode(h)) == Decoded(h, |Encode(h)|)
  {
    DecodeOfExactEncode(ZERO_HEADER, h);
  }
}
