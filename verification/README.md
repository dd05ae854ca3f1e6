# cppdap: a verified model of its protocol engine

This project models the hard parts of cppdap, a C++ implementation of an endpoint of the Debug
Adapter Protocol, and proves what they are for. It is layered as the library is:

| files | layer |
|---|---|
| `Framing`, `ContentStream`, `StringBuffer` | the header/content framing: a pure parse and print of byte streams, the buffered reader that refines it, an in-memory stream |
| `Threads`, `RWMutex`, `Socket`, `Chan`, `Pipe`, `PipeReader` | the concurrency primitives, with explicit mutex, condition variable, spurious wake-ups and any number of threads; a pipe under the reader |
| `Options`, `Serialization`, `RoundTrip`, `Decoding`, `Serializer` | typed values to and from JSON trees, driven by run-time type descriptors |
| `FrameWire` | any number of threads sending through one session's send lock into a byte pipe |
| `Messages`, `Endpoint`, `Session`, `Sessions`, `ByteSessions` | messages, one endpoint against any peer, two endpoints over message queues, two endpoints over byte pipes |
| `Emitter` | the depth-first type emitter of the protocol generator |
| `AnyStorage` | the small-buffer storage of `any` |

Concurrent code is a state machine whose steps are critical sections, with theorems over all its
runs; beside it stands a class whose methods are those critical sections, proved to take exactly
those steps. Loops over data are methods proved against the pure functions the theorems are about.

The top of the tower is `ByteSessions.EndToEnd`. Two sessions exchange bytes through pipes; on each
side any number of threads send requests, events and responses, with header and body as two separate
writes; pipes may close at any moment; receiving and dispatching are threads of their own. In every
schedule, as long as no registration has been refused because its 32-bit number was still in use, a
response handler is called only with the result that the peer's handler produced for the very request
it was registered for, from the arguments that were sent, and each promise is set at most once. The
proof goes by refinement: byte runs are message-queue runs (`BytesRefineMessages`), because frames
never interleave (`FrameWire`), because printed frames read back wherever the stream is cut
(`Framing`), and because encoding round-trips (`RoundTrip`).

Where the code falls short of what its comments or its users may expect, the model follows the code.
Each of these has its exact condition proved, except where the entry says otherwise:

- `include/dap/serialization.h:132-133` says that of several calls of `serialize` on one serializer
  the last is stored. In a struct field, whose removal flag is never lowered again, an absent optional
  erases the member whatever is serialized next, so the last one wins only if it is absent as well
  (`AfterAbsentIff`); after a value that is there it wins, whatever that was, exactly if it replaces the
  slot or is absent (`LastFieldWinsIff`): an object is merged into an object already there, and a null
  leaves what was there. Elsewhere nobody reads the flag, and an absent optional, too, leaves what was
  there (`LastOneWinsIff`).
- `src/session.cpp:410` calls the body of an event optional. A missing body is accepted only for an
  event type without any field (`BodilessEventIff`).
- An optional whose element type also decodes from a null or a missing member does not come back
  absent (`RoundTripIff`).
- In close mode an empty message makes the next header bad (`RoundTripCloseIff`); a `StringBuffer`
  to which an empty message was written reports an early end of stream (`StringBuffer.Read`).
- Two types of one name share an entry of `seen`, and `tools/protocol_gen/protocol_gen.go:594-612`
  names several types "object"; the dependencies of the second are skipped
  (`SharedNameSkipsDependencies`). That names fix the names they depend on is enough for every
  reachable name to be written (`EmitsExactlyReachable`); it is not claimed to be necessary.
- `isOpen` on a socket in error forgets the descriptor without closing it, unless a `close` gets the
  write lock first. The descriptor is closed if and only if the step that took it away was that of
  `close` (`ClosedIffByClose`); if it is gone unclosed, an `isOpen` had found it in error
  (`LeakedByIsOpen`), and that does happen (`IsOpenLeaks`).
- A request that could not be sent stays in the table of pending responses, so only the peer's good
  conduct keeps its promise from being set twice. It is set twice if and only if a response that
  calls the handler came in although the request could not be sent, before or after
  (`SetTwiceIff`, `SetTwiceHappens`); a conforming peer never sends one (`PromiseSetOnce`).
- Moving an `any` keeps ownership only when the source is empty (`MoveKeepsOwnershipIff`); otherwise
  the source's value is never destructed, or its block never freed (`MoveLeaks`).

## Model

| member | source | states |
|---|---|---|
| `Framing.DecimalValue` | src/content_stream.cpp:191-193 | reading the decimal digits that are printed for a size gives the size back |
| `Framing.ParseSkipsGarbage` | src/content_stream.cpp:55-93 | one read in ignore mode, on prefix-free garbage then a frame then anything, returns that frame's message and leaves what follows (and the blank line after an empty message) |
| `Framing.FindAfterGarbage` | src/content_stream.cpp:95-103 | the header prefix has no border, so no match can straddle garbage and a genuine header |
| `Framing.Resynchronises` | src/content_stream.cpp:49-124 | frames separated by arbitrary prefix-free garbage are read back exactly in ignore mode, empty ones included, and further reads see only the bytes after the last frame |
| `Framing.RoundTripIgnore` | src/content_stream.cpp:49-93 | printed messages shorter than 2^64 bytes read back as the same sequence in ignore mode, whatever follows |
| `Framing.RoundTripCloseIff` | src/content_stream.cpp:49-93 | in close mode they read back exactly when an empty message is followed by nothing but at most one last empty message |
| `Framing.CutStream` | src/content_stream.cpp:73-93 | wherever a stream of printed frames is cut short, reading gives the whole messages and then none; a partial header or body never passes for a message |
| `Framing.HeaderIsReadAs` | src/content_stream.cpp:60-93 | every header, well-formed or not, is read as its parts say: blanks, digits modulo 2^64, a NUL swallowed after either, blank line, content |
| `Framing.TakeApart` | src/content_stream.cpp:60-93 | every byte string has such parts |
| `Framing.CloseModeClosesIff` | src/content_stream.cpp:51-80 | in close mode the reader is closed exactly by bytes that do not begin with the prefix, or by a non-zero length that no blank line follows |
| `Framing.ScanLosesNothing` | src/content_stream.cpp:95-103 | a scan that ran out of bytes has dropped nothing: with more bytes, reading goes on as if it had never stopped |
| `Framing.BrokenHeaderIsSkipped` | src/content_stream.cpp:77-80 | in ignore mode a broken header costs one read, and the frames after it are read back exactly |
| `Framing.HeaderText` | src/content_stream.cpp:191-193 | the bytes of a printed header, as text, without leading zeros |
| `Framing.LengthWraps` | src/content_stream.cpp:64-72 | a printed number is read back modulo 2^64 |
| `ContentStream.ContentReader.Buffer` | src/content_stream.cpp:143-161 | pulls only missing bytes, through any Reader that returns short counts; unconsumed bytes and position are unchanged; demand never goes beyond the bytes asked for |
| `ContentStream.ContentReader.Match` | src/content_stream.cpp:110-124 | consumes the pattern if and only if the unconsumed bytes begin with it |
| `ContentStream.ContentReader.MatchAny` | src/content_stream.cpp:131-141 | consumes one listed byte; a NUL is consumed too but reported as no match |
| `ContentStream.ContentReader.Scan` | src/content_stream.cpp:95-103 | stops behind the first occurrence of the pattern, or with one byte too few for another |
| `ContentStream.ContentReader.SkipSpaces` | src/content_stream.cpp:60-62 | consumes the longest run of blanks, and a NUL that ends it |
| `ContentStream.ContentReader.ReadLength` | src/content_stream.cpp:63-72 | the longest run of digits as a number modulo 2^64 |
| `ContentStream.ContentReader.ReadAfterPrefix` | src/content_stream.cpp:60-93 | refines the pure parse after the prefix, zero length returning before the blank line |
| `ContentStream.ContentReader.Read` | src/content_stream.cpp:49-93 | message, unconsumed bytes and closing are those of the pure parse of the whole stream, however it is chunked; a message is returned without asking for any byte beyond it or beyond the stream, a quiet reader is quiet again, and through a pipe it never waits for the next message once this one has been written |
| `ContentStream.ContentReader.ReadMessages` | src/session.cpp:86-91 | reading while open gives the pure sequence of results |
| `StringBuffers.StringBuffer.Read` | src/string_buffer.h:66-81 | bytes come out in order; it behaves as a Reader must exactly where no empty chunk is in front |
| `StringBuffers.StringBuffer.Write` | src/string_buffer.h:83-91 | appends unless closed; only an empty write can leave an empty chunk |
| `StringBuffers.StringBuffer.WriteFrame` | src/content_stream.cpp:191-196 | appends exactly the printed frame, or nothing once closed |
| `RWMutexes.InvKept` | src/rwmutex.h:59-87 | every critical section keeps the counts exact, the mutex ownership right and no wake-up lost |
| `RWMutexes.Exclusion` | src/rwmutex.h:59-87 | at every point of every run `readLocks` is the number of readers, and a writer excludes every reader and every other writer |
| `RWMutexes.SomeWriterCanProceed` | src/rwmutex.h:64-87 | if the lock is free and a writer waits un-notified, another writer is awake and its next step takes the lock, although only `notify_one` is used |
| `RWMutexCode.RWMutex.LockReader` | src/rwmutex.h:59-62 | takes the reader step and keeps the invariant |
| `RWMutexCode.RWMutex.UnlockReader` | src/rwmutex.h:64-70 | takes the unlock step, notifying one waiter when the last reader leaves |
| `RWMutexCode.RWMutex.LockWriter` | src/rwmutex.h:72-80 | takes the lock, or registers and waits |
| `RWMutexCode.RWMutex.ResumeLockWriter` | src/rwmutex.h:76-79 | after a wake-up, takes the lock or waits again |
| `RWMutexCode.RWMutex.UnlockWriter` | src/rwmutex.h:82-87 | notifies one waiter before releasing |
| `SharedSocket.ClosedOnceAndNeverInUse` | src/socket.cpp:160-223 | in every run of the Linux branch the descriptor is closed at most once, never during a `recv` or `send`, and none is running after it |
| `SharedSocket.WriterSeesNoSyscall` | src/socket.cpp:194-223 | whoever holds the write lock is alone |
| `SharedSocket.ForgottenStaysAsItIs` | src/socket.cpp:160-201 | once the descriptor is gone, whether it has been closed never changes again |
| `SharedSocket.ClosedIffByClose` | src/socket.cpp:160-201 | in every run exactly one step takes the descriptor away, and it has been closed if and only if that step was the one of `close`, not the one of `isOpen` |
| `SharedSocket.OnlyIsOpenForgets` | src/socket.cpp:160-170 | only `isOpen`, on a socket that is gone or in error, sets out to forget the descriptor |
| `SharedSocket.LeakedByIsOpen` | src/socket.cpp:160-201 | in every run, a descriptor that is gone unclosed was lost to an `isOpen` that found a valid socket in error |
| `SharedSocket.TestsDecide` | src/socket.cpp:160-223 | each operation goes on as its test says: a valid socket's `read` or `write` reaches the system call, an invalid one's does not |
| `SharedSocket.IsOpenLeaks` | src/socket.cpp:160-170 | a run in which one call of `isOpen` loses the descriptor without its being closed |
| `Chans.RunsKeepInv` | src/chan.h:42-86 | in every run, with resets, a thread waiting un-notified means an empty open channel, and what was taken is a prefix of what was put |
| `Chans.NoLostWakeUp` | src/chan.h:56-76 | once there is a value, or the channel is closed, no thread stays un-notified and a `take` returns |
| `Chans.NothingIsDropped` | src/chan.h:49-86 | whether or not the channel is closed, putting appends, closing keeps the queue, and taking removes the oldest value |
| `Chans.EmptyHandedIff` | src/chan.h:56-66 | in every run a `take` comes back empty-handed exactly from a channel that is closed and empty, waits exactly on an open empty one, and otherwise brings the next value put |
| `ChanCode.Chan.Put` | src/chan.h:68-76 | appends, waking all only on the empty-to-non-empty change of an open channel |
| `ChanCode.Chan.Take` | src/chan.h:56-66 | brings the oldest value if there is one, closed or not; otherwise gives up if closed and waits if open |
| `ChanCode.Chan.Close` | src/chan.h:49-54 | closes and wakes all |
| `ChanCode.Chan.Reset` | src/chan.h:42-47 | empties and reopens, waking nobody |
| `Pipes.ReadKeeps` | src/io.cpp:42-59 | one pass of the read loop takes bytes in order, returns short only when closed, and waits only on an empty open pipe |
| `Pipes.RunsKeepInv` | src/io.cpp:36-78 | in every run a thread waiting un-notified means an empty open pipe, and the bytes read are a prefix of those written |
| `Pipes.NoLostWakeUp` | src/io.cpp:36-78 | once there is data, or the pipe is closed, no reader stays un-notified |
| `Pipes.ClosedForGood` | src/io.cpp:36-40 | a closed pipe stays closed and takes no more bytes |
| `Pipes.WritesEverything` | src/io.cpp:61-78 | an open pipe takes every byte it is given |
| `PipeReaders.ReturnsAtOnceIff` | src/io.cpp:42-59 | a read of an open pipe returns without waiting if and only if every byte it wants has been written, and then it is a legal read that got them all |
| `PipeReaders.PipeSource.Read` | src/io.cpp:42-59 | a pipe, with a writer that goes on while the reader waits, keeps every promise of the piped byte source under the content reader, and waits exactly when it is asked for bytes that have not been written |
| `PipeCode.Pipe.Enter` | src/io.cpp:42-45 | the start of a read |
| `PipeCode.Pipe.Read` | src/io.cpp:42-59 | the loop moves bytes one by one and amounts to the pass of the model |
| `PipeCode.Pipe.Write` | src/io.cpp:61-78 | appends the bytes and reports success unless closed, notifying only when the pipe was empty |
| `FrameWire.FramesNeverInterleave` | src/session.cpp:476-483 | for any number of senders the wire is whole frames and at most one header, whose sender holds the lock or whose pipe has closed; the frames are those of the calls that returned true, in the order of their returning, and at most one about to |
| `FrameWire.OneSenderAtATime` | src/session.cpp:476-483 | two threads are never both between taking and releasing the send lock |
| `FrameWire.ReaderSeesWhatWasSent` | src/session.cpp:59-67 | whatever part of the wire has been read when, reads return the messages sent, in order, then none; what a failed `send` left behind is never taken for a message |
| `FrameWire.NextRead` | src/content_stream.cpp:49-93 | read number i returns a message exactly when message i is there whole, and then that message |
| `FrameWire.NothingAfterClose` | src/io.cpp:61-65 | once the pipe is closed no frame is completed and nothing is added |
| `FrameWire.RefusedOnlyWhenClosed` | src/session.cpp:476-483 | in every run `send` returns false only because the pipe has been closed |
| `FrameWire.OpenSendSucceeds` | src/session.cpp:476-483 | on an open pipe, undisturbed, a message is sent: its frame is appended and `send` returns true |
| `FrameWireCode.Sender.WriteHeader` | src/content_stream.cpp:191-194 | the first of the two writes; a refusal ends the call |
| `FrameWireCode.Sender.WriteBody` | src/content_stream.cpp:194-195 | the second write, which decides what `send` returns |
| `FrameWireCode.Sender.Acquire` | src/session.cpp:476-477 | takes the send lock |
| `FrameWireCode.Sender.CheckOpen` | src/session.cpp:478-481 | refuses to send when the writer is closed |
| `FrameWireCode.Sender.Release` | src/session.cpp:482-483 | releases the send lock and returns the result |
| `RoundTrip.RoundTrips` | include/dap/typeof.h:163-254 | decoding undoes encoding for every faithful type, arrays, nested and derived structs and optional fields included, by induction over all values |
| `RoundTrip.RoundTripIff` | include/dap/serialization.h:88-122 | over all values with canonical dynamic parts, decoding undoes encoding if and only if no optional's element type decodes from what an absent optional leaves |
| `RoundTrip.ValueRoundTripIff` | include/dap/serialization.h:88-122 | for a faithful type, a value comes back if and only if its dynamically typed parts are canonical |
| `RoundTrip.DecodedIsGood` | src/nlohmann_json_serializer.cpp:40-145 | whatever is decoded, from any JSON, is well typed and canonical |
| `Decoding.DecodeIff` | src/nlohmann_json_serializer.cpp:40-145 | decoding, completely: which JSON each type accepts, integers as numbers included, and which value it reads there, as a relation that does not mention the decoder |
| `Decoding.DecodeAnyIff` | src/nlohmann_json_serializer.cpp:85-112 | the same for dynamically typed values |
| `Decoding.MissingIff` | src/null_json_serializer.h:25-42 | the same for a field without a member |
| `Decoding.ItemsAre` | src/nlohmann_json_serializer.cpp:72-83 | the items of a JSON value: members, elements under their indices, a scalar under the empty name |
| `Decoding.IndexNameIs` | src/nlohmann_json_serializer.cpp:74-80 | those indices are decimal |
| `Decoding.IntegerIsANumber` | src/nlohmann_json_serializer.cpp:56-62 | an integer that was written is read as the same number |
| `Decoding.WireFormat` | src/nlohmann_json_serializer.cpp:163-232 | scalars are written as they are, elements in order, a map member by member |
| `RoundTrip.MissingStruct` | src/null_json_serializer.h:35-41 | the field loop over a deserializer whose `field` always fails succeeds exactly for a struct without fields |
| `RoundTrip.EncodeStructIs` | src/nlohmann_json_serializer.cpp:234-257 | a struct becomes exactly the members of its fields, absent optionals removed, whatever the slot held |
| `RoundTrip.AbsentDecodes` | src/null_json_serializer.h:25-42 | which types decode from a JSON null, and which from a missing member |
| `RoundTrip.AnyRoundTrip` | src/nlohmann_json_serializer.cpp:72-112 | one round trip of a dynamically typed value gives its canonical form, a second changes nothing |
| `RoundTrip.CanonIsCanonical` | src/nlohmann_json_serializer.cpp:183-232 | canonicalisation is idempotent and keeps values well typed |
| `RoundTrip.Counterexample` | include/dap/serialization.h:104-111 | every type that is not faithful has a value that does not come back |
| `RoundTrip.SharedNameSharesValue` | include/dap/typeof.h:163-254 | two fields of one name and type are equal in whatever is decoded, from any JSON |
| `RoundTrip.SharedNameLosesValues` | include/dap/typeof.h:163-254 | so every value in which they differ is lost |
| `RoundTrip.SharedNameLosesAField` | include/dap/typeof.h:230-254 | a base and a derived field of one name lose a value |
| `Serializers.Serializer.Serialize` | include/dap/serialization.h:192-219 | what the serializer leaves in its slot, and whether it asked for removal |
| `Serializers.Serializer.SerializeObject` | src/nlohmann_json_serializer.cpp:183-194 | members are serialized one by one into the object that is there |
| `Serializers.Serializer.SerializeArray` | src/nlohmann_json_serializer.cpp:221-232 | elements are serialized in order into a fresh array |
| `Serializers.Serializer.SerializeFields` | include/dap/typeof.h:177-189 | fields are written in order, and erased again when removed |
| `Serializers.DeserializeArray` | include/dap/serialization.h:93-102 | elements are decoded in order until one fails |
| `Serializers.DeserializeFields` | include/dap/typeof.h:164-176 | fields are decoded in order until one fails |
| `Serializers.DeserializeObject` | src/nlohmann_json_serializer.cpp:72-83 | every item becomes a member |
| `Serializers.LastOneWinsIff` | include/dap/serialization.h:129-134 | where nobody reads the removal flag, serializing overwrites the slot exactly for values that are not an object, a null or an absent optional |
| `Serializers.LastFieldWinsIff` | src/nlohmann_json_serializer.cpp:240-247 | in a struct field, after any first value that is there, the last one wins exactly if it replaces the slot or is absent |
| `Serializers.AfterAbsentIff` | src/nlohmann_json_serializer.cpp:240-257 | in a struct field, after an absent optional the member is erased, so the last one wins exactly if it is absent too |
| `Serializers.SerializeFieldTwice` | src/nlohmann_json_serializer.cpp:240-247 | what a field callback that serializes twice leaves in the object |
| `Messages.RequestArrives` | src/session.cpp:319-345 | a request message is taken apart into the number, command and arguments it was built from, exactly if a handler is registered |
| `Messages.EventArrives` | src/session.cpp:391-431 | an event message is taken apart into what it was built from, exactly if a handler is registered |
| `Messages.ReplyArrives` | src/session.cpp:433-474 | a response message leads to its request number and to the outcome the handler produced, errors passing through a 2048-byte C string |
| `Messages.TakenIff` | src/session.cpp:291-442 | for every JSON object, whether it is taken as a request, an event or a response, and with what; every other one is rejected |
| `Messages.NotAMessage` | src/session.cpp:291-303 | nothing but an object is taken |
| `Messages.HandlerCalledIff` | src/session.cpp:448-473 | for every response, whether it calls the handler and with what: a success does even without a body that decodes |
| `Messages.ErrorTextIs` | src/session.cpp:471-513 | the text of an error is the longest beginning of the message without a NUL that fits the buffer |
| `Messages.ErrorTextKept` | src/session.cpp:471-513 | so an ordinary message arrives unchanged |
| `Messages.MessageMembers` | src/session.cpp:113-379 | the members of the three kinds of message |
| `Messages.BodilessEventIff` | src/session.cpp:410-424 | an event without a body is accepted if and only if its type has no fields |
| `Endpoints.SeqOfInjective` | src/session.cpp:108-110 | two requests get the same signed number if and only if a multiple of 2^32 numbers lies between them |
| `Endpoints.InvKept` | src/session.cpp:104-483 | every step of an endpoint, against any peer, keeps the table, the promises, the inbox order, the frames and the replies consistent |
| `Endpoints.NeverStuck` | src/session.cpp:104-124 | a thread inside `send` can always take its next step, in every phase of a request |
| `Endpoints.TableIsExact` | src/session.cpp:191-214 | as long as no registration has been refused, the table holds exactly the registered requests whose response has not been looked up, each with its response type |
| `Endpoints.NeverRefused` | src/session.cpp:108-110 | no registration is refused while at most 2^32 messages have been numbered, past the signed wrap too |
| `Endpoints.NotFiledIff` | src/session.cpp:204-214 | registering is refused exactly when an awaited request has the same number modulo 2^32 |
| `Endpoints.CalledAtMostOnce` | src/session.cpp:433-474 | whatever the peer sends, no response handler is called twice, and each call decodes a response bearing its number with the type registered for it |
| `Endpoints.FailedSendStaysFiled` | include/dap/session.h:417-434 | a request that could not be sent stays filed, so a response bearing its number would set its promise a second time |
| `Endpoints.SetTwiceIff` | include/dap/session.h:417-434 | whatever the peer does, a promise is set twice if and only if its request could not be sent and a response that calls the handler has been received for it, before or after |
| `Endpoints.SetTwiceHappens` | include/dap/session.h:417-434 | a run for each of the two orders, for every request and every reply |
| `Endpoints.DispatchedInWireOrder` | src/session.cpp:86-101 | the dispatch thread takes the accepted requests and events exactly in wire order, without a gap |
| `Endpoints.NothingAcceptedIsLost` | src/session.cpp:86-101 | in every run, dispatched and waiting are exactly the accepted requests and events, with what they said |
| `Endpoints.InboxDrains` | src/session.cpp:97-101 | all that waits can always be dispatched |
| `Endpoints.LookUpErases` | src/session.cpp:191-202 | a response takes its entry out of the table whatever else it says, and no other |
| `Endpoints.TransmitOutcome` | src/session.cpp:363-384 | a frame goes on the wire exactly when the writer is open; the response-sent handler may run either way |
| `Endpoints.NoResultIsForgotten` | src/session.cpp:347-388 | in every run, what a handler has produced is being sent or has been handed to `send` |
| `Endpoints.NumbersCount` | src/session.cpp:495 | numbers begin with 1 and go up by one, modulo 2^32 |
| `Endpoints.SeqOfIs` | src/session.cpp:108 | a request is filed under the signed 32-bit integer congruent to its number |
| `Endpoints.NumbersDiffer` | src/session.cpp:108-374 | in every run no two messages on the wire, of whatever kind, bear the same number, up to 2^32 of them |
| `Endpoints.ResponseComesFirst` | src/session.cpp:347-388 | a frame sent from a response-sent handler, be it a request, an event or another reply, follows its response on the wire |
| `SessionCode.Session.NextNumber` | src/session.cpp:495 | the 32-bit counter is the number of increments modulo 2^32 |
| `SessionCode.Session.NumberRequest` | src/session.cpp:108 | the number turned signed is the one the request is filed under |
| `SessionCode.Session.PutResponse` | src/session.cpp:204-214 | files the handler unless its number is taken |
| `SessionCode.Session.TakeResponse` | src/session.cpp:191-202 | hands out an entry once and erases it |
| `SessionCode.Session.ProcessResponse` | src/session.cpp:433-474 | erases the entry before looking at the rest, then calls the handler with a response or an error, or not at all |
| `SessionCode.Session.ProcessMessage` | src/session.cpp:291-317 | a response takes effect at once, a request or event becomes work for the dispatch thread, anything else nothing |
| `SessionCode.Session.Receive` | src/session.cpp:291-317 | one received message changes the endpoint as the model says |
| `SessionCode.Session.Dispatch` | src/session.cpp:97-101 | takes the front of the inbox |
| `Sessions.ArrivesAsSent` | src/session.cpp:291-474 | every frame an endpoint sends is understood by its peer as it was meant |
| `Sessions.Correlation` | src/session.cpp:104-124 | in every interleaving of two sessions, while no registration has been refused, a response handler is called only with the result of the peer's handler for the request sent under that number, and that handler got the arguments sent |
| `Sessions.FewNumbersSuffice` | src/session.cpp:495 | at most 2^32 numbered messages are enough for that |
| `Sessions.PromiseSetOnce` | include/dap/session.h:417-434 | each promise is set at most once: with an error exactly when the request could not be sent, otherwise only if it is on the wire |
| `Sessions.EveryReplyCounts` | src/session.cpp:433-474 | every reply received has set the promise of the request it replies to, with the intended value |
| `Sessions.CatchesUp` | src/session.cpp:86-91 | from every state either session can go on to receive all that its peer has sent |
| `Sessions.ReplyCanArrive` | src/session.cpp:433-474 | a reply on the wire can always still reach its request, and then sets its promise to what the handler produced |
| `Sessions.EveryExchangeHappens` | src/session.cpp:104-124 | from the start, every request that has a handler can be sent, dispatched with its arguments, answered with every outcome, and the outcome can reach the promise |
| `Sessions.Delivered` | src/session.cpp:305-311 | what handlers are given is what was sent, in the order of the wire |
| `Sessions.EveryFrameIsHandled` | src/session.cpp:86-101 | every request and event that has been received, and has a handler, has been dispatched or waits to be, with what it was sent with |
| `Sessions.FrameCanBeHandled` | src/session.cpp:86-101 | a request or event on the wire can always still reach its handler |
| `Sessions.EveryEventHappens` | src/session.cpp:126-139 | from the start, every event that has a handler can be sent and reach it with its body |
| `Sessions.ReplyNamesRequest` | src/session.cpp:350-379 | a reply on the wire names the request it answers, by command and number, and bears its own number |
| `Sessions.MessageBearsNumber` | src/session.cpp:114-374 | every message bears its number, a request the signed one |
| `Sessions.ResponseBeforeEvent` | examples/hello_debugger.cpp:241-248 | when a handler runs for a request or event sent from a response-sent handler, the promise of the request that was responded to has been set: initialize response before initialized event |
| `Sessions.SysInvKept` | src/session.cpp:80-124 | every step of either session keeps what one has received a beginning of what the other has sent, and every reply matched |
| `ByteSessions.BytesRefineMessages` | src/session.cpp:59-67 | every run over byte pipes, with any number of sending threads, is a run over FIFO message queues |
| `ByteSessions.EndToEnd` | src/session.cpp:104-124 | correlation over byte pipes, in every schedule |
| `ByteSessions.BytesSetOnce` | include/dap/session.h:417-434 | at most one set of each promise, by an error exactly when its request could not be sent, over byte pipes |
| `ByteSessions.BytesDelivered` | src/session.cpp:305-311 | handlers are given what was sent, in wire order, over byte pipes |
| `ByteSessions.BytesHandled` | src/session.cpp:86-101 | no request or event received is lost on the way to its handler, over byte pipes |
| `ByteSessions.WholeMessageIsReadable` | src/session.cpp:59-67 | the next message can be received exactly when its bytes have come out of the pipe |
| `ByteSessions.DecidesIff` | src/session.cpp:476-483 | the steps that settle a frame's fate are exactly those that make its thread leave `send` |
| `ByteSessions.BytesResponseFirst` | examples/hello_debugger.cpp:241-248 | the response has set its promise before what was sent after it is handled, over byte pipes |
| `ByteSessions.SendersGoOn` | src/session.cpp:476-483 | neither endpoint ever holds up a step that its wire allows |
| `Emitter.EmitCorrect` | tools/protocol_gen/protocol_gen.go:885-928 | on every finite graph, cyclic or not: names written at most once, only reachable types, all roots, and every dependency of a written type, before it unless a type of that name reaches it |
| `Emitter.AcyclicEdgeInOrder` | tools/protocol_gen/protocol_gen.go:897-917 | when a name fixes its dependency list, for every edge from a written type to one of another name that does not reach it, the dependency is written first |
| `Emitter.DependencyComesFirst` | tools/protocol_gen/protocol_gen.go:897-917 | when a name fixes only the names it depends on, a dependency is written first unless a type of the dependent's name can be reached from it |
| `Emitter.LeftToRight` | tools/protocol_gen/protocol_gen.go:904-928 | types are taken from left to right |
| `Emitter.EmitsExactlyReachable` | tools/protocol_gen/protocol_gen.go:919-928 | when a name fixes the names it depends on, exactly the reachable names are written |
| `Emitter.SharedNameSkipsDependencies` | tools/protocol_gen/protocol_gen.go:594-612 | without that, a reachable type can be missing |
| `EmitterCode.TypeEmitter.Emit` | tools/protocol_gen/protocol_gen.go:897-917 | the recursive emitter terminates and does what the pure traversal does |
| `EmitterCode.TypeEmitter.EmitEach` | tools/protocol_gen/protocol_gen.go:904-908 | so does its loop |
| `EmitterCode.RemoveDuplicates` | tools/protocol_gen/protocol_gen.go:425-435 | the same strings, each once, in order of first occurrence |
| `AnyStorage.AlignUpIs` | include/dap/any.h:178-182 | the next multiple of the alignment, less than one alignment away |
| `AnyStorage.AllocPlaces` | include/dap/any.h:184-192 | for every positive size and alignment the storage is aligned and wholly inside the 32-byte buffer or the new block |
| `AnyStorage.ResetKeeps` | include/dap/any.h:106-113 | resetting destructs the value once, frees its block once and touches no other object |
| `AnyStorage.AssignCopyKeeps` | include/dap/any.h:115-123 | copying between distinct objects keeps ownership, the target holds what the source holds, and every other object what it held |
| `AnyStorage.AssignValueKeeps` | include/dap/any.h:139-153 | assigning a value keeps ownership, in place or anew, the object holds it, and every other object what it held |
| `AnyStorage.EverythingIsReleasedOnce` | include/dap/any.h:79-93 | over all runs nothing is destructed or freed that is not live, every block has one owner, and nothing is left once all objects are gone |
| `AnyStorage.MoveKeepsOwnershipIff` | include/dap/any.h:125-137 | move assignment keeps ownership if and only if the source holds nothing |
| `AnyStorage.MoveLeaks` | include/dap/any.h:125-137 | after a move from an object that holds something, whatever is destroyed in whatever order, its buffer value is never destructed or its block never freed, and nothing is released twice |
| `AnyStorage.MoveMoves` | include/dap/any.h:125-137 | after a move the target holds what the source held, the source nothing, every other object what it held |
| `AnyStorage.InBufferIff` | include/dap/any.h:184-192 | the buffer is used exactly for values that fit into its 32 bytes |
| `AnyStorage.SelfAssignmentEmpties` | include/dap/any.h:115-123 | assigning an object to itself loses its value |
| `AnyCode.Memory.Alloc` | include/dap/any.h:184-192 | updates the fields as the model says |
| `AnyCode.Memory.Free` | include/dap/any.h:194-201 | frees a heap block once and clears the value |
| `AnyCode.Memory.Reset` | include/dap/any.h:106-113 | destructs, frees and clears |
| `AnyCode.Memory.AssignCopy` | include/dap/any.h:115-123 | the copy assignment, with its guarantee |
| `AnyCode.Memory.AssignValue` | include/dap/any.h:139-153 | the typed assignment, with its guarantee |

## Left out

- JSON text: parsing and `dump()` belong to a third-party library; `ByteSessions` takes printer and parser as parameters and asks that the parser reads back each message that is sent.
- The other JSON back ends (src/rapid_json_serializer.cpp, src/jsoncpp_json_serializer.cpp), which have the same shape.
- Numbers are reals; the rounding of `double` is not modelled.
- Serializers of members and elements are modelled on a copy of their slot that is put back, not as aliases into the JSON tree; decoding is into default-constructed values, so what a failed decode leaves half-written is not captured.
- `any` and `variant` as dynamically typed values; the list of types a variant admits has no run-time effect in the code.
- Messages.EventArrives: and the other message lemmas speak of protocol types that round-trip and values whose dynamic parts are canonical, since other values do not come back (`RoundTrip.RoundTripIff`, `RoundTrip.ValueRoundTripIff`).
- Sessions.Correlation: and its companions hold while no registration has been refused, at least for 2^32 numbered messages; `Endpoints.NotFiledIff` says when one is refused.
- RoundTrip.SharedNameLosesValues: speaks of two fields of one name and one type; fields of one name and different types are not worked out.
- AnyStorage.AssignCopyKeeps: takes source and target to be objects apart from each other's memory; an `any` inside the value that the target holds, which the assignment destructs before reading it, is not modelled, as values are opaque.
- Emitter.EmitsExactlyReachable: asks for names that fix the names they depend on throughout the graph, which is sufficient; what is necessary depends on the order of the traversal.
- PipeReaders.PipeSource.Read: has the contract of a piped `ByteSource.Read`, which the content reader is written against; they are two classes, as there is no subtyping between classes here. Closing comes when nothing is left to be written; an earlier one is a shorter stream.
- Handlers are registered before the run and stay; `connect` and `startProcessingMessages` called twice, the error callback, joining threads in the destructor, and `getPayload` used without the receive thread are not modelled. A request handler calls back at most once, as `include/dap/session.h:282-283` demands.
- The waiting side of `future` (include/dap/future.h): every set notifies all waiters, which would only add an easier version of `Chan`; setting is in `Endpoint`.
- A `send` may be refused at any of its steps, but a socket or file that writes part of a frame and then fails is not modelled; the wire is a `Pipe`.
- Fairness and starvation: readers can starve writers of `RWMutex`. Only safety and the absence of lost wake-ups are claimed. Lock counters are unbounded integers.
- RWMutexCode.RWMutex.LockReader: runs as one critical section; blocking on the mutex itself is the `mutex == Nobody` precondition.
- The Windows and macOS branches of `Socket::Shared::close`, which close the descriptor under the read lock; the other operating-system calls of src/socket.cpp and src/network.cpp; `File`, the spies and `writef` of src/io.cpp.
- Move construction of `any`, which shares the defect of move assignment; wrap-around of addresses; exceptions from copy constructors.
- Generated protocol tables (include/dap/protocol.h, src/protocol_*.cpp): any table of struct types may be plugged in as a `Protocol`.
- Errors of the emitter's writers, downloading, formatting and identifier clean-up in the generator.
