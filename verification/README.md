# plugin.go: a verified model of its multiplexer and plugin protocol

A host process loads a plugin process and talks to it over one pair of byte streams. This project models
the three layers of that conversation and proves what each layer promises the next.

* **Frames.** `Node`, `OptimizedNode` and `HybridNode` cut messages into `Start, Data*, End` or
  `Start, Data*, Abort` frames with a nine-byte header, any number of writers interleave their frames on one
  stream, and a single reader loop rebuilds the messages in a map from id to partial message.
  `Frames` is the wire format, `Reader` the loop as a function of the byte stream, `Writers` and
  `Interleave` the writers as scripts and as interleaved steps with a program counter and a cancellation
  point each. `Buffers`, `Nodes`, `CountingNodes` and `Senders` are the imperative readers and writers (growing
  arrays, scratch buffers, counters), each proved against those functions.
* **Headers.** `Codec` is the binary header. The adapters (`Adapters`) drop the event type, so only the header codec
  tells an aborted message or an error text from a whole one. `PartialMessages` follows such a message to either side:
  the loader skips it and no handler of the module is asked about it, but a module in graceful shutdown answers it with
  the rejection it gives to any message, under the message's id.
* **Requests.** `Ids`, `Loader` and `Correlation` follow a `Call` from its id to its result, over every
  interleaving of calls, jobs, losses, cancelled writes and messages of the module's own; `CallRuns` holds single runs
  of that protocol, `Window` shows how many draws apart ids must lie for it, and `FewDraws` that this is no concern to a
  loader that has drawn fewer than 2^32. `Listening` is the module's listener, its jobs, its drain goroutines and its
  shutdown flags as interleaving steps; `PluginModule` is the same as an object, each method tied to those steps;
  `Service` says that a job of the one protocol is the module of the other, `Conversation` joins the two objects by a
  wire, and `Handshake` puts a closing loader and a listening module together.

`ReaderTheorems`, `Oversize` and `Conservation` hold the properties of the readers. Every claim is about all
inputs, all streams or all runs. Where the code meets a promise only under a condition, the condition is stated and
shown to be the exact one: `Interleave.ErrorFreeIffClashFree`, `Adapters.DecodesIffAllChunksSent`,
`Codec.RoundTripIffShort`, `Ids.GeneratedIdIsFreeIff`, `Loader.DeliveredIff`, `Window.WindowIsExact`,
`Listening.RejectionIsWrittenIff`, `Listening.DrainCancelsIff`, `PartialMessages.UndecodableIsAnsweredIff`,
`Loader.RoutedIff`, `Loader.ForwardedIff`, `Handshake.SignalRaisedIff`.

Hypotheses that the code does not enforce by itself, and that appear as such: ids in flight together on one stream are
distinct (`Interleave.ClashFree`; `Interleave.SharedIdSplices` shows two messages spliced under one id, and
`Ids.CountersMeet` why a loader's two counters can produce that); fewer than 2^32 ids are drawn while a response is on its
way and no call takes the generator's fallback (`Correlation.Orderly`; `Window.LateAnswerIsMisrouted` is the run that
goes wrong one draw later, and `FewDraws.CorrelatedWithFewDraws` needs neither while fewer than 2^32 ids have been drawn
in all); no message that the module sends of its own accord, under the adapter's numbers, would be taken for the response
to the request pending under its id (`Correlation.Unconfused`; `CallRuns.ForeignMisleads`); no request and no message of the application bears the name of the shutdown acknowledgment
(`Handshake.Unreserved`, `Handshake.NoForeignAck`; `Handshake.NamesakeMisleads` and `Handshake.ForeignAckMisleads` show a
Close acknowledged by a module that is not in shutdown).

## Model

| member | source | states |
|---|---|---|
| Frames.ParseOfEncode | lib/multiplexer/node.go:206-247 | Framing is unambiguous: the bytes of any list of frames, as the writers lay them out, parse back to exactly those frames, whatever truncated rest follows |
| Frames.EncodeOfParse | lib/multiplexer/node.go:76-162 | Parsing loses nothing: on every byte stream the frames found and the truncated rest re-encode to the stream |
| Frames.FirstOfEncode | lib/multiplexer/hybrid_node.go:122-145 | A frame in front of anything is read back as that frame, with nothing taken from what follows, for all 32-bit ids and all payloads within the limit |
| Frames.WireLayout | lib/multiplexer/node.go:206-229 | On the wire a frame is its kind, its id and its length, both most significant byte first, and its payload |
| Wire.BE32Value | lib/multiplexer/node.go:219-226 | What each of the four bytes of a 32-bit field is worth |
| Reader.RunIsReadFrames | lib/multiplexer/hybrid_node.go:246-448 | The byte loop, on any stream, does what reading its frames one by one does, and adds only the error of a truncated rest |
| Reader.CancelledRun | lib/multiplexer/hybrid_node.go:248-254 | A context cancelled at any poll cuts the output at a frame boundary and adds one closing error, unless the stream ends before that poll |
| Reader.CancelledWhere | lib/multiplexer/hybrid_node.go:248-254 | Seen cancelled after k whole frames it has read exactly those and adds one error; a stream that ends before that poll is read as if there were no context, but for one more poll after a truncated rest |
| Reader.TruncatedRun | lib/multiplexer/hybrid_node.go:256-274 | A stream that ends within a frame is read up to that frame and adds one error, except just after the header of a frame with a payload, which is taken for a clean end |
| Reader.FrameErrors | lib/multiplexer/node.go:100-199 | Exactly which frames are an error, and which error, in which state; every frame causes at most one event |
| ReaderTheorems.VariantsAgree | lib/multiplexer/node.go:127-178 | On every stream, cancelled anywhere or not at all: the same partial messages; the counting readers' events are the basic reader's with exactly the unknown-id errors of zero-length Data frames of unknown ids struck out, each where it stands; so the deliveries agree, and everything does exactly if there are no such frames |
| ReaderTheorems.CountingIsBasicWithoutEmptyData | lib/multiplexer/optimized_node.go:248-318 | The counting readers do exactly what the basic one does once zero-length Data frames are struck out |
| ReaderTheorems.Isolation | lib/multiplexer/hybrid_node.go:288-446 | On every stream the deliveries of an id, and what stays pending under it, are those of reading only that id's frames |
| ReaderTheorems.SizeBound | lib/multiplexer/hybrid_node.go:354-362 | No partial and no delivered message ever holds more than 10 MiB, on any stream, cancelled or not |
| ReaderTheorems.EventCount | lib/multiplexer/node.go:70-84 | Left alone, a reader of n bytes stops after at most ceil(n/9) events |
| Oversize.OversizeAlone | lib/multiplexer/hybrid_node.go:276-280 | A message over the limit sent to its end by any writer yields errors only and leaves nothing behind; aborted on the way it is never delivered Complete |
| Oversize.OversizeThenReuse | lib/multiplexer/node.go:155-161 | In any traffic, after an over-limit message its id works again: the next message under it is delivered whole and is the only delivery |
| Oversize.OversizeJobs | lib/multiplexer/node.go:249-298 | The messages of all three writers meet the hypotheses of the two lemmas above |
| Writers.ChunksCover | lib/multiplexer/hybrid_node.go:187-207 | Data payloads are non-empty, no longer than the chunk size, and concatenate to the message |
| Writers.WriterEquivalence | lib/multiplexer/hybrid_node.go:150-225 | Any message within the limit, sent by any writer at any threshold and flag, is read by either reader as one Complete event with its exact bytes |
| Writers.CancelledWriter | lib/multiplexer/optimized_node.go:117-175 | A writer of n chunks whose context is cancelled at poll p is read as the whole message if p is at least n + 2 (hybrid: n + 3), as nothing if it is the hybrid and p is 0, and else as one Abort with exactly the chunks between the polls it passed |
| Writers.DataFrameCounts | lib/multiplexer/optimized_node.go:60-71 | Every writer sends ceil(len / size) Data frames, with size 1, 4, 16 or 64 KiB at the thresholds 4 KiB, 64 KiB and 1 MiB, or 1 KiB for the basic writer and the fast path; the adaptive ones never send more than the 1 KiB writer |
| Interleave.EndToEnd | lib/multiplexer/hybrid_node.go:94-448 | For any number of writers, any interleaving and any cancellations, with distinct ids in flight: one event per terminated message and no error, the exact bytes or whole chunks, and exactly the unterminated messages pending with the bytes sent so far |
| Interleave.EndedIsWireOrder | lib/multiplexer/hybrid_node.go:404-439 | The events come out in the order of the End and Abort frames on the wire |
| Interleave.WireProjects | lib/multiplexer/hybrid_node.go:94-148 | In every run a writer's own frames are the script it would have sent alone, up to its program counter |
| Interleave.EveryPcIsReached | lib/multiplexer/hybrid_node.go:150-225 | From any run a writer that has not begun can come to any point of its script and end there, so every cancellation is among the runs |
| Interleave.ErrorFreeIffClashFree | lib/multiplexer/hybrid_node.go:289-298 | The reader reports no error exactly if no message started under an id still in flight |
| Interleave.SharedIdSplices | lib/multiplexer/api.go:90-93 | Two writers sharing an id make the reader deliver a message that neither of them sent |
| Buffers.Source.ReadFull | lib/multiplexer/hybrid_node.go:257-266 | A full read takes exactly the bytes asked for; a short one tells a clean end from a truncated one and empties the stream |
| Buffers.Assembly.OnData | lib/multiplexer/node.go:144-163 | Appending a payload changes the partial messages as the frame specification says, copies the bytes, and leaves the scratch buffer outside every message |
| Buffers.Assembly.OnLast | lib/multiplexer/node.go:165-193 | A finished message leaves the map with its array, out of reach of whatever the reader writes later, and shows the specified event |
| Nodes.Node.Iterate | lib/multiplexer/node.go:76-199 | One pass of the basic loop has the specified output, partial messages and rest of input, and the delivered message is no longer writable by the node |
| Nodes.Node.ReadMessage | lib/multiplexer/node.go:54-204 | The basic loop terminates, sends exactly the specified events, keeps what was on the channel object by object, and no message it delivered earlier was changed by a later frame |
| CountingNodes.CountingNode.Dispatch | lib/multiplexer/optimized_node.go:225-362 | After the header, the counting loop body has the specified output, partial messages, counters and rest of input in either design, and hands delivered messages out of its reach |
| CountingNodes.CountingNode.ReadMessage | lib/multiplexer/hybrid_node.go:227-452 | The loop that `OptimizedNode` and `HybridNode` share terminates, sends exactly the specified events, keeps what was on the channel object by object and unchanged, whichever buffers their designs send a payload through, and its counters end as the gauge specification says |
| CountingNodes.CountingNode.Iterate | lib/multiplexer/hybrid_node.go:256-447 | One pass of the counting loop has the specified output, partial messages, counters and rest of input, and hands delivered messages out of its reach |
| CountingNodes.CountingNode.Close | lib/multiplexer/hybrid_node.go:471-485 | Closing between passes empties the map, sets the pending gauge as specified and leaves the input alone |
| Nodes.Node.Close | lib/multiplexer/node.go:307-317 | Closing between passes forgets every partial message and leaves the input alone |
| Conservation.BooksBalance | lib/multiplexer/hybrid_node.go:289-439 | Over any frames and closes: pending gauge = map size; accepted starts = completed + aborted + dropped + closed + pending; bytes read = delivered + discarded + pending, and errors = frames of unknown kinds, modulo 2^64 |
| Conservation.FreshBooksBalance | lib/multiplexer/hybrid_node.go:289-439 | A real node: starting empty with its counters at zero, its books balance after any frames and closes |
| Conservation.EveryRunBalances | lib/multiplexer/optimized_node.go:226-355 | The same after every run of a counting reader on any bytes, cancelled anywhere or not at all |
| Senders.WriteFrame | lib/multiplexer/node.go:206-247 | Header bytes assigned in place plus payload are the encoding of the frame; a length of 2^32 or more is refused with nothing written |
| Senders.BasicSender.WriteMessageWithSequence | lib/multiplexer/node.go:249-298 | The slicing loop writes Start with the length announced, 1 KiB pieces of the data and End, and delivers, exactly if its context is alive at poll n + 1; otherwise Abort after as many pieces as polls passed; that is the script the other theorems speak of |
| Senders.OptimizedSender.WriteMessageWithSequence | lib/multiplexer/optimized_node.go:117-175 | The same for the offset loop, with adaptive pieces and polls before them, and the bytes and messages written are counted |
| Senders.HybridSender.WriteMessageWithSequence | lib/multiplexer/hybrid_node.go:150-225 | The same for both paths of the hybrid writer, which polls once more and writes nothing at all if cancelled then |
| Codec.DecodeOfEncode | lib/plugin/module_types.go:99-142 | Decoding an encoding gives back the header whatever the receiver held before, and ignores trailing bytes |
| Codec.RoundTripIffShort | lib/plugin/module_types.go:54-96 | The round trip succeeds exactly for names and payloads shorter than 2^32 |
| Codec.NoPrefixDecodes | lib/plugin/module_types.go:99-142 | No strict prefix of an encoding decodes |
| Codec.FieldsInPrefix | lib/plugin/module_types.go:99-142 | What the receiver of a strict prefix holds: the fields that arrived whole, and the part of the payload that did, padded with zeros |
| Codec.EncodeOfDecode | lib/plugin/module_types.go:120-139 | Re-encoding whatever decoded gives the consumed bytes, except that an error byte other than 1 becomes 0 |
| Codec.TextNeverDecodes | lib/plugin/module_types.go:103-112 | A text under 16 MiB that does not begin with a zero byte never decodes and leaves the receiver as it was |
| Codec.HeaderRecord.MarshalBinary | lib/plugin/module_types.go:54-96 | The step-by-step writer produces the specified encoding |
| Codec.HeaderRecord.UnmarshalBinary | lib/plugin/module_types.go:99-142 | The step-by-step reader accepts exactly what the specification accepts and leaves the fields it filled before a failure |
| Adapters.ForwardApi | lib/multiplexer/api.go:99-117 | Every event is forwarded in order: whole and aborted messages with their id and bytes, errors under id 0, the event type dropped |
| Adapters.ForwardOld | lib/plugin/module_compat.go:78-98 | Every message is forwarded in order and stamped Complete, whatever it was |
| Adapters.ErrorsNeverDecode | lib/multiplexer/hybrid_node.go:250-281 | No error text of any reader is ever taken for a header |
| Adapters.DecimalReads | lib/multiplexer/hybrid_node.go:272-281 | The decimal digits in an error text read as the number they stand for |
| Adapters.DecodesIffAllChunksSent | lib/multiplexer/hybrid_node.go:187-216 | A writer's message decodes exactly if all its chunks were written before its End or Abort, and then to the header it was made from |
| Adapters.OnlyWholeMessagesDecode | lib/multiplexer/api.go:99-117 | From the writers' frames through bytes, reader and adapter: a message on the application channel bears its writer's id and decodes exactly if that writer sent all chunks, to the header it sent |
| PartialMessages.NeverActsOnLoader | lib/plugin/message_processing.go:43-49 | A message of a writer cut before its last chunk changes nothing at the loader: no signal, no pending request and no handler, whatever is pending or registered |
| PartialMessages.ErrorsNeverActOnLoader | lib/plugin/message_processing.go:43-49 | No error text of any reader changes anything at the loader |
| PartialMessages.NeverReachesHandler | lib/plugin/module_processing.go:181-189 | In any run of the module that takes such a message no job asks a handler about it, and it is answered exactly if it was refused with the listener's context alive |
| Listening.UndecodableReachesNoHandler | lib/plugin/module_processing.go:185-189 | In any run, no job asks a handler about a message that does not decode; it is answered exactly if it was refused with the context alive, and then by the rejection under its own id |
| PartialMessages.UndecodableIsAnsweredIff | lib/plugin/module_processing.go:131-144 | A message that does not decode is answered exactly if the module is in graceful shutdown, not forced, with its context alive when the pass begins: the flags are looked at, the decode error is not |
| PartialMessages.UndecodableIsRejected | lib/plugin/module_processing.go:131-144 | After a shutdown message any such message gets the rejection under its own id |
| PartialMessages.RejectionReachesPendingCall | lib/plugin/message_processing.go:88-109 | That rejection is taken for the response of whatever request is pending under the id, exactly if its name is not captured |
| Ids.GeneratedIdIsFirstFree | lib/plugin/utils.go:12-34 | From any counter value, across wrap-around, with at most 98 pending requests the generator returns the first non-zero, non-pending id after the counter |
| Ids.GeneratedIdIsFreeIff | lib/plugin/utils.go:15-33 | With any number pending, the returned id is usable exactly if one of the next hundred is; the fallback never is |
| Ids.DrawsDiffer | lib/plugin/utils.go:16-16 | Fewer than 2^32 draws never repeat an id |
| Ids.CountersMeet | lib/multiplexer/api.go:90-93 | A loader's call counter and the adapter's own counter give the n-th call and the n-th other message the same id |
| Loader.Host.GenerateRequestID | lib/plugin/utils.go:12-34 | The probing loop returns the specified id, leaves the counter there and touches no pending request |
| Loader.Host.Register | lib/plugin/communication.go:45-48 | A call's fresh, empty channel is what is pending under its id, and every other entry stays |
| Loader.Host.Unregister | lib/plugin/communication.go:50-54 | Exactly the call's own entry disappears |
| Loader.Host.Await | lib/plugin/communication.go:60-81 | A wait yields the payload of a response whose error flag is clear, a plugin error with the payload if it is set, a failure for bytes that do not decode, a closed channel or an ended context, and consumes only what it used |
| Loader.Host.HandleMessage | lib/plugin/message_processing.go:43-152 | One pass of the message loop changes signals and pending channels, and routes, as the specification says; the ready signal goes up exactly on the first message called ready, the acknowledgment signals exactly on messages of their names |
| Loader.Host.Cleanup | lib/plugin/message_processing.go:12-27 | The deferred cleanup empties the table, drains a buffered response and closes every other channel |
| Loader.RoutedIff | lib/plugin/message_processing.go:43-86 | For any message and any state of the loader: which signal goes up, and exactly which messages the loop keeps for itself |
| Loader.ForwardedIff | lib/plugin/message_processing.go:88-150 | For any other message: exactly when it fills a channel, finds it full, asks a request handler, goes to a message handler or is skipped, and that only the first changes the table |
| Loader.DeliveredIff | lib/plugin/message_processing.go:88-109 | A message reaches the caller pending under its id exactly if it decodes, is of type Response or Error and bears no name the loop keeps for itself; the service name plays no part |
| Loader.AnswerIsDeliveredIff | lib/plugin/message_processing.go:53-86 | A module's answer to a call reaches its caller exactly if the service is not called ready (before the ready signal) or like an acknowledgment |
| Plugin.ResultOfAnswer | lib/plugin/communication.go:60-77 | What a caller makes of the bytes of every answer: the handler's payload or its plugin error, and a plugin error with its text for a missing handler, a critical error and both kinds of shutdown |
| Correlation.Correlated | lib/plugin/communication.go:15-82 | Over every interleaving, requests cut in their writing included, a call that returns anything but a failure returns, for that very request, the handler's payload, as a result or as a plugin error as the handler said, or a plugin error if no handler answered; and its channel was filled at most once |
| Correlation.LateResponsesAreHarmless | lib/plugin/message_processing.go:88-109 | What is in a call's channel or about to be put there is the response to that call, or, when its write was cut and it has failed, the module's rejection of what arrived of its request (for a request of 4 GiB or more, whose parts may decode: some answer to it); also after other calls were given up and their ids drawn again |
| Correlation.LookupFindsPending | lib/plugin/message_processing.go:94-98 | A message of type Response or Error goes to whichever call is pending under its id, its own or one whose draw is congruent modulo 2^32 |
| Correlation.LookupThenSendIsHandle | lib/plugin/message_processing.go:43-109 | The protocol's lookup and send, uninterrupted, do to pending channels and the ready flag exactly what one pass of the loader's loop does |
| Window.WindowIsExact | lib/plugin/utils.go:16-28 | That every lookup made with fewer than n draws since the calls concerned finds its own call's channel, in all runs, holds if and only if n is at most 2^32 |
| Window.LateAnswerIsMisrouted | lib/plugin/message_processing.go:88-109 | A run of ordinary steps and 2^32 draws, for any services and payloads in range, at whose end a call takes the answer to another request for its own result |
| Service.WorkIsWhatTheModuleSends | lib/plugin/module_processing.go:181-249 | Whatever listener, jobs and shutdown do with a request, or with what a cut write left of one, it is answered at most once, with the id and bytes the correlation protocol's job step puts on the wire for that outcome |
| CallRuns.UndisturbedCallSucceeds | lib/plugin/communication.go:34-73 | A call within the size limit that nothing interferes with returns its handler's payload, as a result or as a plugin error as the handler said, or a plugin error if no handler answered, and leaves nothing pending |
| CallRuns.ProbingIsGenerate | lib/plugin/utils.go:12-34 | The protocol's draws and checks, with nothing between them, are the loader's generator, its fallback included |
| CallRuns.StopEndsWaitIff | lib/plugin/message_processing.go:12-27 | When the message loop ends, a waiting call fails at once exactly if its response had not come; else its response is drained and it waits for a context to end |
| CallRuns.CutRequestIsRejected | lib/plugin/module_processing.go:131-144 | A request cut after any number of bytes, read by a module in shutdown, has its rejection put into the call's own channel after the call has failed |
| CallRuns.ForeignMisleads | lib/plugin/module_communication.go:48-62 | Any message of type Response or Error that the module sends under a pending id ends the call with that message's content, though its request was never served |
| FewDraws.CorrelatedWithFewDraws | lib/plugin/utils.go:12-34 | In any run with fewer than 2^32 draws, no call tries a second id or comes to the fallback, and calls return what is theirs, as above |
| Correlation.RunKeepsInv | lib/plugin/communication.go:42-81 | What every step keeps: pending entries name live calls by their ids, each request is served once, each channel is filled at most once |
| Listening.AtMostOneReply | lib/plugin/module_processing.go:181-249 | In any run every message gets at most one reply, under its own id: the acknowledgment, the rejection, or the outcome of the one job started for it |
| Listening.GracefulDrain | lib/plugin/module_processing.go:73-94 | When the listener's context is cancelled with no force and the caller's context alive, no job is active and every job's message has had its one reply written, or none if its header did not decode |
| Listening.DrainCancelsIff | lib/plugin/module_processing.go:73-94 | A drain, left to itself, cancels the listener's context exactly if all jobs have ended or a shutdown was forced |
| Listening.LeavesIff | lib/plugin/module_processing.go:27-40 | A listener between two passes leaves, once its monitor has run, exactly if its context was cancelled, the shutdown forced or the caller's context ended |
| Listening.TakenBeforeShutdownIsAccepted | lib/plugin/module_processing.go:131-155 | Every ordinary message whose pass ended before the first shutdown message had a job started for it |
| Listening.ActiveJobsShrink | lib/plugin/module_processing.go:132-149 | From the shutdown message on, no job is started and an ended one stays ended, over any further run |
| Listening.RejectedAfterShutdown | lib/plugin/module_processing.go:131-144 | From then on and before a force shutdown a non-control message starts no job and gets exactly one rejection with its id, unless it is one whose rejection the cancelled context cut off |
| Listening.RejectionIsWrittenIff | lib/plugin/module_processing.go:140-142 | A rejection is written exactly if the listener's context is not cancelled when the pass comes to write it |
| Listening.LateRejectionIsLost | lib/plugin/module_processing.go:157-174 | After a completed drain the loop can still take a message, and then refuses it in silence, whatever it is |
| Listening.RunKeepsInv | lib/plugin/module_processing.go:42-177 | What every step keeps: all replies are accounted for by the messages' fates, drains imply shutdown, a drain that saw quiet means no active job, refusals have a cause |
| PluginModule.Module.Pass | lib/plugin/module_processing.go:44-155 | One pass of the loop takes the object through exactly the steps of the model; the flags, drains and jobs change, and exactly the acknowledgment, ready signal or rejection of that message goes out under its id, as the name in its header and the flags at its beginning say |
| PluginModule.Module.ProcessMessage | lib/plugin/module_processing.go:181-249 | A job asks the handler of the request's name for the request's payload and writes, under the request's id, the handler's payload with its error flag and type, or an error for a missing handler, a critical error or a forced shutdown, or nothing if the request does not decode or the context is cancelled; it takes the model's steps and releases the wait group once |
| PluginModule.Module.FindAnswer | lib/plugin/module_processing.go:185-237 | The response header, filled field by field, is what that handler said or the error, and there is none exactly if the request does not decode |
| PluginModule.Module.WakeDrain | lib/plugin/module_processing.go:73-76 | The sleep before the wait ends: the drain awaits the wait group from then on, as the model's drain does |
| PluginModule.Module.FinishDrain | lib/plugin/module_processing.go:78-93 | A drain that finds the wait group at zero, or a force shutdown, cancels the context, as the model's drain does |
| PluginModule.Module.CancelledMeansIdle | lib/plugin/module_processing.go:80-93 | In the object's fields: cancelled, not forced, caller's context alive means the wait group is at zero |
| PluginModule.NoneActiveIff | lib/plugin/module_processing.go:147-153 | The wait group's counter is zero exactly if every started job has ended |
| PluginModule.Multiplexer.WriteMessage | lib/multiplexer/api.go:90-93 | An unnumbered message goes out under the adapter's next number, which is used up even if the context is cancelled |
| Conversation.Load | lib/plugin/utils.go:36-43 | The ready signal a new module writes makes the loader that waits for it ready |
| Conversation.PassHeard | lib/plugin/message_processing.go:43-86 | One pass of the module, and the loader's loop on what it wrote: a shutdown message raises the shutdown acknowledgment, a force shutdown the other, a request for it the ready signal, and a module in shutdown raises one too by refusing a message of that very name; nothing else does |
| Handshake.AcknowledgedMeansShutdown | lib/plugin/lifecycle.go:82-100 | When any call of Close has received its acknowledgment, and no request and no message of the application bears its name, the module is in shutdown and past the point where it could start a job, whatever else is on the wire, cut short or not, and though the acknowledgment itself had been aborted at any point of its writing |
| Handshake.CloseIsAcknowledged | lib/plugin/lifecycle.go:75-100 | Conversely, wherever a call of Close waits while the module listens, unforced and not cancelled, reading what Close wrote makes the module enter shutdown and start a drain, and the message it writes then acknowledges that very call |
| Handshake.SignalRaisedIff | lib/plugin/message_processing.go:65-73 | A message raises the acknowledgment signal exactly if it decodes under the acknowledgment's name, whoever sent it |
| Handshake.ForeignAckMisleads | lib/plugin/module_communication.go:31-45 | One message of the application under that name ends the wait of Close although the module is not in shutdown |
| Handshake.NamesakeMisleads | lib/plugin/module_processing.go:209-246 | So does the answer of a service that bears the name |
| Handshake.NothingStartsAfterClose | lib/plugin/lifecycle.go:82-100 | After that acknowledgment and before a force shutdown, every non-control message starts no job and gets its one rejection unless the context had cut it off |
| Handshake.AckMeansSettled | lib/plugin/module_processing.go:58-70 | An acknowledgment is only ever written by a module that is already in shutdown |
| Handshake.AbortedAckMeansSettled | lib/plugin/module_processing.go:58-70 | Nor is one ever begun, whatever becomes of its writing, by a module that is not |
| Handshake.AtMostOneCloses | lib/plugin/lifecycle.go:75-78 | Of all calls of Close, in any interleaving, at most one gets past the compare-and-swap |
| Handshake.Closing.Close | lib/plugin/lifecycle.go:75-101 | The winning call writes the shutdown message once and waits exactly if that write succeeded; every other call fails without writing |

## Left out

- Operating-system I/O: forking, pipes, and `Write` calls that fail or are short; the stream is a byte sequence with successful writes, and the source's "incomplete header" and "incomplete data" branches, which `io.ReadFull` makes unreachable, have no counterpart.
- Real time: the 100 ms sleep, the five-second wait, ready retries and the deadlines of Close and ForceClose; cancellation is a step that may come at any poll. No liveness is claimed: after its input channel closes, `Listen` keeps looping.
- Senders.SendSlices and the other writer methods run alone: interleaving by the writer lock is modelled in `Interleave`, whose `WireProjects` says each writer's share of the wire is the script these methods write.
- Buffer pools and capacities: a pooled buffer is a buffer; only that it is never shared with a message is modelled.
- Go's memory model: races on the adapter's `sequence`, on the metrics, and a node's `Close` inside a reader pass.
- JSON, Protobuf and generic adapters, handler registration maps and built-in log handlers, `MessageType.String`, and everything under `example/`: thin wrappers or demonstrations.
- `Module.SendRequest`, which always returns an error, and `wrapOptimizedNode`'s empty reader channel: unfinished stubs. `OptimizedNode`'s own loop is modelled instead.
- `WriteMessage` of the three node types: the atomic counter in front of the sequenced write; the adapter's own counter is modelled in `PluginModule.Multiplexer`.
- Correlation.Correlated: messages of the module that answer no call are looked up and sent in one step (`Correlation.Foreign`), and the numbers they bear are any numbers; that none hits a pending id as a response is a hypothesis on the run.
- Correlation.LateResponsesAreHarmless: promises nothing about arrival. A routed response may still be drained by the loader's cleanup, despite the comment there; `Loader.Host.Cleanup` says so.
- Correlation: a module job is one step from its decoding to its write; its parts are in `Listening`, and `Service.WorkIsWhatTheModuleSends` ties the two. The runs themselves are not merged into one machine.
- Listening.RejectedAfterShutdown: the rejection is not unconditional, because the code writes it with the listener's context; `Listening.LateRejectionIsLost` gives the run in which it is lost.
- Listening: a whole message is written or not in one step, placed at the write's last poll. What a cut write leaves on the wire is not in `sent`: it may still arrive, in part or whole, which `Handshake.Aborted` lets it do, and `PartialMessages` covers the parts. One `Listen` per module.
- Listening.GracefulDrain: a module-side promise only; the host kills the process after its acknowledgment, so nothing is said about replies reaching the host.
- Conversation: the wire between the two objects is lossless and in order; losses, cuts and interleavings are in `Correlation` and `Handshake`.
- Handshake: `ForceClose`, process monitoring beyond the flag it sets, and the order of cancel, process close and goroutine wait after the acknowledgment.
- Loader.Host.HandleMessage: request and message handlers are named as the action taken; what they do, and the host's own answers to module requests, are outside.
- The routing text at `protocol.md` lines 259-277 sends Error messages to message handlers; the code routes only Notify and Ack there, and the model follows the code.
