# A PostgreSQL logging proxy, modelled and proved in Dafny

The program is a single-threaded reactor that pipes bytes between a client and a PostgreSQL server, taps the
client's stream, picks the texts of the `Query` messages out of it, and hands them through a lock-free buffer to a
second thread that writes a log file. This project models its four connected parts and proves what each keeps over
every run, and what reaches the log when they are put together.

* `Rings.dfy`, `BipartiteBuffers.dfy` — the bipartite ring buffer: index arithmetic and operations as functions on a
  value, the queue that value stands for, and the class that updates an array and three indices in place.
* `Spsc.dfy` — the same buffer shared by two threads. Every load and store of a shared index and every copy of an
  element is one step; steps interleave freely, and a load of the other thread's index may return any value stored
  since the last one seen, so views are stale on arrival. An auxiliary record of the passes over the array (`laps`)
  ties positions to published elements.
* `Endianness.dfy`, `Messages.dfy`, `Frames.dfy`, `Handlers.dfy` — byte-order guess, message constructors, the frame
  grammar as one recursive parser with its printer, and the handler class with its two loops.
* `Channels.dfy` — the byte pipe with its taps: class, and conservation over any sequence of events.
* `QueryLog.dfy`, `ConcurrentLogs.dfy` — cutting, queueing and draining messages, first from one thread, then with the
  writer thread interleaving.
* `Buses.dfy`, `BusSafety.dfy`, `BusHistory.dfy`, `Sessions.dfy` — the event bus with re-entrant callbacks and
  deferred removal, what a run owes to the actions performed on it, and the teardown of sessions. What callbacks do is
  an arbitrary function of the whole history.
* `EndToEnd.dfy` — channel, handler, log and writer thread as one system, from socket to log.

Conventions. A byte is an integer below 256; `size_t` values stay far below their limit and are natural numbers; the
shifts and ors of the decoders combine disjoint bits and are sums. I/O results are parameters: a read yields an error
or bytes, a write an error or a room of which as much is used as is offered. A value-level function states the whole
new state of each method; the lemmas say what that state means.

Results where the program does less than one might expect, each with its exact condition:

* A grant dropped after a forced wrap corrupts a later, smaller write: exactly when that size fits at the write index
  (`AbandonedGrantExactly`; `StaleWrapReached` gets there from an empty ring). Both users of the buffer are safe: the
  channel always asks for the same size, and the log drops no grant.
* Lengths above 65535 may be read in the wrong byte order: exactly when the high bytes exceed the mirrored low bytes
  (`GuessExactly`).
* How a stream is cut matters to the handler exactly when one of its frames is rejected by its constructor: a start-up
  frame with fewer than four bytes of payload or a query without its terminator (`SplitInvariantExactly`). Retained,
  such a frame silences the tap for good (`RejectedFrameSilences`), and so does one with a length below four
  (`BadLengthSilences`).
* The log drops pieces that do not fit, even when it is empty: a longest piece is refused exactly at two positions of
  the indices (`EmptyLogTakes`, `EmptyLogCanDrop`). `query_processor.cpp:25` cuts pieces one byte longer than the
  chunk size its name suggests; the model follows the code.
* A callback registered while the removal of its descriptor is pending is lost (`PendingRemovalTakesNew`), so a start
  outlasts the next event exactly when none of the session's descriptors awaits removal (`StartPutsUp`).
* A callback that deletes a descriptor ahead of the session's own callback can make the session end by halves
  (`DeleteAheadEndsHalf`); `EndsWholeExactly` says when a session ends whole.

## Model

| member | source | states |
|---|---|---|
| Rings.GrantExactly | src/io/bipartite_buf_impl.hpp:61-86 | `write_acquire(n)` grants the run at the write index if its `n` cells are neither unread nor the guard cell, otherwise the run at cell 0 under the same test, otherwise nothing; free runs are defined cell by cell, not by the index arithmetic |
| Rings.AcquireWriteKeepsQueue | src/io/bipartite_buf_impl.hpp:61-86 | acquiring leaves the queue alone, and unless a leftover wrap is stale for the size the grant is where the next release publishes from |
| Rings.ReleaseWritePublishes | src/io/bipartite_buf_impl.hpp:89-127 | a release appends exactly the covered cells to the queue and keeps the invariant, wrapped or not |
| Rings.FillReleaseAppends | src/io/bipartite_buf_impl.hpp:61-127 | filling the grant with elements and releasing them appends exactly those elements; the reader's index and flag stay |
| Rings.AbandonedGrantExactly | src/io/bipartite_buf_impl.hpp:72-82 | after any history of dropped grants, acquire-fill-release of up to `n` elements goes wrong for some elements if and only if a wrap is pending and the run at the write index holds `n` |
| Rings.StaleWrapReached | src/io/bipartite_buf_impl.hpp:72-82 | plain use of an empty ring of eight cells reaches such a state: the next element written is lost and another cell is published in its place |
| Rings.FixedSizeNeverStale | src/io/bipartite_buf_impl.hpp:78-82 | a wrap left by a grant of `n` never turns stale for `n`, however far the reader advances |
| Rings.AcquireReadOffersPrefix | src/io/bipartite_buf_impl.hpp:130-158 | the region read is a prefix of the queue, non-empty whenever the queue is, short of it only by the part that restarts at cell 0 |
| Rings.ReleaseReadDrops | src/io/bipartite_buf_impl.hpp:161-185 | releasing `n` removes exactly the `n` oldest elements and leaves the writer's side alone |
| Rings.DrainTakesFront | src/io/bipartite_buf_impl.hpp:130-185 | acquire, take, release moves elements from the front of the queue, at least one if there is one and room for it |
| BipartiteBuffers.BipartiteBuffer.constructor | src/io/bipartite_buf_impl.hpp:57-58 | a new buffer is valid and empty |
| BipartiteBuffers.BipartiteBuffer.WriteAcquire | src/io/bipartite_buf_impl.hpp:61-86 | null exactly when neither run has room; offset 0 only when the run at the write index is short; contents unchanged |
| BipartiteBuffers.BipartiteBuffer.WriteRelease | src/io/bipartite_buf_impl.hpp:89-127 | contents grow by exactly the released cells |
| BipartiteBuffers.BipartiteBuffer.ReadAcquire | src/io/bipartite_buf_impl.hpp:130-158 | the region is a prefix of the contents, non-empty if they are |
| BipartiteBuffers.BipartiteBuffer.ReadRelease | src/io/bipartite_buf_impl.hpp:161-185 | contents lose exactly their first `read` elements |
| Spsc.StepKeepsInv | src/io/bipartite_buf_impl.hpp:60-185 | each single load, copy or store of either thread keeps the invariant over memory, both threads' stale views and the history |
| Spsc.NothingLost | src/io/bipartite_buf_impl.hpp:60-185 | in every interleaving published = consumed + unread in memory, with at most size - 1 unread |
| Spsc.StepRefinesQueue | src/io/bipartite_buf_impl.hpp:60-185 | every step leaves the queue alone except the store of the write index, which appends what was released, and the store of the read index, which removes what was copied out |
| Spsc.GrantIsPrivate | src/io/bipartite_buf_impl.hpp:61-86 | in every interleaving the producer's cells are in bounds and disjoint from all unread cells and from the consumer's region, however stale the loaded indices |
| Spsc.TakenIsFront | src/io/bipartite_buf_impl.hpp:130-158 | what the consumer has copied so far is the front of the queue |
| Spsc.InvalidateIndexFixed | src/io/bipartite_buf_impl.hpp:93-126 | while the write index is behind the read index no producer step changes the invalidate index |
| Spsc.LoadedTailIsTrue | src/io/bipartite_buf_impl.hpp:149-157 | a consumer that loads the invalidate index after the write index sees the true end of the tail, whichever stored value the relaxed load returns |
| Spsc.SameSizeMayRetry | src/io/bipartite_buf_impl.hpp:78-82 | a producer with a fixed size may drop a wrapped grant and ask again at any time |
| Spsc.CopiesInBounds | src/io/bipartite_buf_impl.hpp:60-185 | no copy step of a reachable state falls outside the array |
| Spsc.LoadRDecides | src/io/bipartite_buf_impl.hpp:64-85 | the producer decides by the read index it has loaded, however old: refused exactly when neither run is free for a reader standing there, at cell 0 only if the run at the write index is short |
| Spsc.LoadWDecides | src/io/bipartite_buf_impl.hpp:130-148 | the consumer goes by the write index it has loaded, however old: it sees the front of the queue published by then and is offered what `read_acquire` offers of it |
| Spsc.LoadIDecides | src/io/bipartite_buf_impl.hpp:149-157 | so does the load of the invalidate index, whichever value it returns |
| Spsc.AbandonIsSilent | src/io/bipartite_buf_impl.hpp:78-82 | dropping a grant or a region leaves memory and both wrap flags as they are |
| Spsc.NothingHoldsUp | src/io/bipartite_buf_impl.hpp:60-185 | neither thread waits for the other: what it may do next it can do at once, with any stored value a load may return |
| Spsc.ViewIsRing | src/io/bipartite_buf.hpp:147-152 | what the two threads see at any moment is a valid ring standing for the same queue |
| Spsc.AcquireWriteSteps | src/io/bipartite_buf_impl.hpp:61-86 | with current loads the acquire steps do what `write_acquire` does on the ring |
| Spsc.ReleaseWriteSteps | src/io/bipartite_buf_impl.hpp:89-127 | the two stores without interference do what `write_release` does on the ring |
| Spsc.AcquireReadSteps | src/io/bipartite_buf_impl.hpp:130-158 | with current loads the acquire steps do what `read_acquire` does on the ring |
| Spsc.ReleaseReadSteps | src/io/bipartite_buf_impl.hpp:161-185 | the store of the read index does what `read_release` does on the ring |
| Endianness.EncodeDecode | src/io/endianness.cpp:7-30 | a value written in an order decodes in that order to itself |
| Endianness.DecodeEncode | src/io/endianness.cpp:7-30 | four bytes decoded in an order encode back to themselves |
| Endianness.GuessExactly | src/psql_proxy/endianness.cpp:7-19 | the guessed reading is never larger than the value written, and equal to it if and only if the high bytes do not exceed the mirrored low bytes |
| Endianness.ShortLengthsSurvive | src/psql_proxy/endianness.cpp:12-18 | every length below 65536 in either order is recovered, and a non-zero one in the order it was written in |
| Endianness.BoundIsTight | src/psql_proxy/endianness.cpp:12-18 | 65536 in big-endian is read as 256 |
| Endianness.ByteOrders | src/io/endianness.cpp:7-30 | big-endian puts the most significant byte first, little-endian last, in 16 and 32 bits; the guess breaks ties towards little-endian |
| Messages.MakeParameterStatus | src/psql_proxy/protocol/parameter_status.cpp:9-37 | the scanning loop returns the NUL-terminated fields of the payload taken in pairs |
| Messages.ParametersRoundTrip | src/psql_proxy/protocol/parameter_status.cpp:17-34 | any NUL-free names and values, rendered with terminators and followed by a dangling name or unterminated rest, are scanned back |
| Messages.ScanRender | src/psql_proxy/protocol/parameter_status.cpp:17-34 | every payload is the rendering of its NUL-free fields followed by a NUL-free rest, so the scan is total |
| Messages.StartupVersion | src/psql_proxy/protocol/startup_message.cpp:10-20 | any two signed 16-bit numbers in two's complement in some order are the version of the message made in that order, whatever parameters follow |
| Messages.MessageBytes | src/psql_proxy/message.cpp:7-29 | code `Q` makes a query of the payload without its last byte, `X` a session end, `S` a parameter list, 0 a start-up message; any other code makes none |
| Frames.ParseMore | src/psql_proxy/handler.cpp:84-207 | parsing `a`, then its leftover followed by `b`, is parsing `a + b`; a throw is final |
| Frames.RestStartsFrame | src/psql_proxy/handler.cpp:98-135 | the unconsumed bytes are a suffix of the stream that starts at a frame boundary |
| Frames.RestIsIncomplete | src/psql_proxy/handler.cpp:98-127 | without a throw the unconsumed bytes hold no complete well-formed frame |
| Frames.PrintParse | src/psql_proxy/handler.cpp:84-207 | a start-up frame and any recoverable frames, each in either byte order, parse to exactly the query texts and session ends they carry, with nothing left |
| Frames.ClientFrameEffects | src/psql_proxy/protocol/query.hpp:17-21 | in bytes: a `Q` frame with a terminated text logs the text, an `X` frame ends the session, a frame with another code has no effect |
| Handlers.Handler.CallInPlace | src/psql_proxy/handler.cpp:84-137 | the copy-free loop is the recursive parser; it retains the rest, or nothing after a throw |
| Handlers.Handler.CallBuffered | src/psql_proxy/handler.cpp:138-207 | the loop over the retained buffer is the recursive parser on buffer and chunk; it retains the rest, a throwing frame included |
| Handlers.Handler.Call | src/psql_proxy/handler.cpp:71-210 | errors change nothing; bytes are handled as one step of the stream parser, and without a throw no complete frame is retained |
| Handlers.HandleAllParses | src/psql_proxy/handler.cpp:71-210 | any number of calls on chunks of a stream that does not throw ends as parsing the whole stream does, in calls made, bytes retained and flag |
| Handlers.SplitInvariantExactly | src/psql_proxy/handler.cpp:71-210 | two ways to cut the stream have different outcomes if and only if one of its frames is a start-up frame with fewer than four bytes of payload or a query without its terminator |
| Handlers.ThrowsExactly | src/psql_proxy/handler.cpp:84-207 | parsing throws if and only if such a frame follows frames that parse |
| Handlers.ShortFramesAreRejected | src/psql_proxy/protocol/startup_message.cpp:14-17 | such streams exist: an empty start-up frame, or an empty query after any well-formed frames |
| Handlers.RejectedFrameSilences | src/psql_proxy/handler.cpp:138-207 | once such a frame is retained, every later call throws, logs nothing, reports nothing and retains all it is given |
| Handlers.BadLengthSilences | src/psql_proxy/handler.cpp:107-114 | once a frame with a length below four is retained, every later call does nothing but retain what it is given |
| Handlers.EveryCutRoundTrips | src/psql_proxy/handler.cpp:28-66 | a start-up frame and any recoverable frames, cut into any chunks, make the handler log exactly the query texts and report exactly the session ends, in order |
| Handlers.ShortFramesRecoverable | src/psql_proxy/protocol/startup_message.cpp:14-17 | below 65536 bytes a frame is recoverable exactly when its constructor does not throw |
| Channels.Channel.HandleLeftIoEvent | src/io/channel.cpp:82-156 | the new state, queued events and exception of a left event, with the invariant of the pipe kept |
| Channels.Channel.HandleRightIoEvent | src/io/channel.cpp:158-195 | the new state and queued events of a right event, with the invariant of the pipe kept |
| Channels.Channel.ShowTaps | src/io/channel.cpp:116-119 | the taps up to and including the one that throws are shown the bytes |
| Channels.BytesConserved | src/io/channel.cpp:82-195 | over any events with partial, empty or failing reads and writes and throwing taps, received = delivered + buffered |
| Channels.TapSeesStream | src/io/channel.cpp:116-119 | a tap that no earlier tap cut off has been shown exactly the bytes received |
| Channels.ReadExactly | src/io/channel.cpp:93-107 | a read happens exactly when a chunk fits at the write index or at cell 0, and then exactly the bytes read join the buffer |
| Channels.WriteExactly | src/io/channel.cpp:128-152 | a write moves bytes from the front of the buffer, some if it can, all there is room for unless the rest restarts at cell 0 |
| Channels.RetryExactly | src/io/channel.cpp:146-150 | another event is queued exactly when the right object took fewer bytes than lie in one piece at the front; otherwise only bytes that restart at cell 0 are left |
| Channels.EventsActOnFlags | src/io/channel.cpp:82-195 | an event does nothing without its flag, and an error event is queued exactly when a chunk was acquired and the read into it failed |
| Channels.LeftEventReads | src/io/channel.cpp:90-126 | a left event takes in a chunk if one fits, shows it to the taps up to the first that throws, and queues an error event exactly if the read failed |
| Channels.LeftEventWrites | src/io/channel.cpp:128-154 | unless a tap threw it then offers the front of all that is buffered, the chunk included, and queues a retry exactly if bytes are left although they lie in one piece |
| Channels.RightEventExactly | src/io/channel.cpp:158-195 | a right event moves from the front of the buffer what lies in one piece and there is room for, queues a retry if that is not all of the piece, and touches nothing else |
| Channels.EmptyAcceptsChunk | src/io/channel.hpp:96-98 | in every reachable state without unread bytes a chunk can be acquired, also after abandoned and empty grants |
| Channels.ChunkBytes | src/io/channel.hpp:96-98 | a read takes at most 65535 bytes and the buffer has 131070 cells |
| Channels.PassesStraightThrough | src/io/channel.cpp:90-154 | in every reachable state without unread bytes one left event with a ready receiver delivers all it read, leaves nothing buffered and queues no retry |
| Channels.AbandonedReadRepeats | src/io/channel.cpp:96-104 | after a failed read the stream is as it was, and over any events in which no read succeeds, whatever the writes do, the next chunk is granted at the same place, wrapped or not |
| Channels.AbandonedWriteRepeats | src/io/channel.cpp:128-136 | after a failed write the stream is as it was, and over any events in which no write succeeds, whatever the reads do, the next acquire offers the same bytes from the same place and perhaps more behind them |
| QueryLog.PiecesPartition | src/psql_proxy/query_processor.cpp:18-35 | the pieces of a message concatenate to it, all but the last of CHUNK_SZ + 1 bytes and the last no longer |
| QueryLog.StoreAppends | src/psql_proxy/query_processor.cpp:28-33 | a piece goes in whole exactly when a free run holds it, and otherwise not at all |
| QueryLog.StoreAllAppends | src/psql_proxy/query_processor.cpp:16-43 | any run of queueing appends an in-order selection of whole pieces |
| QueryLog.EmptyLogTakes | src/psql_proxy/query_processor.hpp:47-51 | a log without unread bytes takes a piece exactly if it is at most a chunk or the indices are not at 1024 or 1025 |
| QueryLog.EmptyLogCanDrop | src/psql_proxy/query_processor.cpp:23-33 | from a fresh log: once a 1023-byte message has been queued and written out, a 1025-byte message is dropped and only its separator goes in |
| QueryLog.QueryProcessor.AddMessage | src/psql_proxy/query_processor.cpp:16-43 | the log grows by the accepted pieces and separator of the message, in order |
| QueryLog.QueryProcessor.Process | src/psql_proxy/query_processor.cpp:45-55 | what the callback took followed by what remains is what the log held |
| ConcurrentLogs.LogStepKeeps | src/psql_proxy/query_processor.cpp:16-55 | every step of the queueing thread or the writer keeps the log's invariant |
| ConcurrentLogs.LogIsPieces | src/psql_proxy/query_processor.cpp:16-55 | in any interleaving taken + unread is the concatenation of the accepted pieces, whole |
| ConcurrentLogs.NothingRefusedNothingLost | src/psql_proxy/query_processor.cpp:16-55 | without a refusal taken + unread + still to queue is everything offered |
| ConcurrentLogs.RefusalCostsOnePiece | src/psql_proxy/query_processor.cpp:28-42 | every piece offered is accepted, refused or still to queue |
| ConcurrentLogs.UndisturbedIsSequential | src/psql_proxy/query_processor.cpp:16-43 | with current loads and no writer step in between, queueing step by step accepts, refuses and stores exactly what the sequential log does |
| ConcurrentLogs.NeverStuck | src/psql_proxy/query_processor.cpp:20-35 | the queueing thread always has a step to take, whatever the writer does |
| ConcurrentLogs.WriterNeverStuck | src/psql_proxy/query_processor.cpp:45-55 | the writer always has a step to take, whatever the queueing thread does |
| ConcurrentLogs.StepsAreFree | src/psql_proxy/query_processor.cpp:16-55 | the queueing thread may go by any read index its load may return, and the writer may take any step |
| ConcurrentLogs.QueueingIsWaitFree | src/psql_proxy/query_processor.cpp:16-43 | every step of the queueing thread brings it nearer its end by a measure no writer step touches, so queueing never waits for the writer |
| Buses.Bus.AddFd | src/io/bus.cpp:18-31 | the callback is appended to its descriptor's list, which is made if missing |
| Buses.Bus.DispatchEvent | src/io/bus.cpp:46-81 | callbacks in registration order, skipped once their descriptor is marked, exceptions reported, then the sweep |
| Buses.Bus.WaitForEvents | src/io/bus.cpp:82-107 | polled events, then the swapped-out snapshot of the queue; a failing poll leaves the queue alone |
| BusSafety.DeletedNeverCalled | src/io/bus.cpp:33-42 | after `del_fd` or `del_fd_callbacks` no callback registered before for that descriptor is ever called again, in any run |
| BusSafety.DeletedInCallbackNeverCalled | src/io/bus.cpp:51-80 | the same when any action of any callback called by a dispatch deletes: for the rest of that callback and dispatch, the events still to come in the turn, and all later runs |
| BusSafety.TokensAreFresh | src/io/bus.cpp:18-31 | in every run the registrations in the map predate the next one |
| BusSafety.PendingExactly | src/io/bus.cpp:75-80 | after any run a descriptor is pending removal if and only if it was deleted from outside, or was pending at the start, and no event has been dispatched since |
| BusSafety.DispatchCallsInOrder | src/io/bus.cpp:46-73 | a dispatch calls the registered callbacks once each, in registration order, stopping short only if the descriptor is deleted |
| BusSafety.PendingRemovalTakesNew | src/io/bus.cpp:33-36 | a registration made while removal is pending is lost with the next event |
| BusSafety.WaitDrainsSnapshot | src/io/bus.cpp:82-93 | one turn dispatches the polled events and exactly the events queued by the swap; later ones wait |
| BusSafety.QueueIsFifo | src/io/bus.cpp:82-112 | in every run what is dispatched is, turn by turn, the polled events and all that is queued by the swap, each stretch starting where the one before ended and no other operation taking any; the stretches and the events waiting are the events queued |
| BusHistory.RunIsAccounted | src/io/bus.cpp:18-112 | in every run what is queued is the events of all Enqueue actions in order; the map holds registrations made, each once, on its own descriptor and in order, and all those of descriptors nobody deleted; and each call that threw and each failed poll is reported once |
| BusHistory.ListsAreRegistrations | src/io/bus.cpp:18-31 | from the empty bus every list holds registrations made for its descriptor, none twice |
| BusHistory.AddedIsListed | src/io/bus.cpp:20-30 | a descriptor added is listed, with or without a callback, and no other list changes |
| BusHistory.EnqueuedIsDispatched | src/io/bus.cpp:84-112 | in every run the events queued at the start and by all Enqueue actions, in order, are those taken off the queue and dispatched, stretch by stretch, and those left on it |
| BusHistory.ReactionReachesQueue | src/io/bus.cpp:109-112 | an event queued by a callback is on the queue after the dispatch |
| Sessions.SessionBase.StartSession | src/io/session_base.cpp:16-33 | the callback is registered on every descriptor of the session |
| Sessions.StartRegistersOnce | src/io/session_base.cpp:29-32 | the start makes one registration for each descriptor, in order, and changes nothing else |
| Sessions.StartPutsUp | src/io/session_base.cpp:16-33 | the next event after the start, if not an error, leaves the callback on all descriptors if and only if none of them awaited removal; from those that did every callback is taken |
| Sessions.EndsWholeExactly | src/io/bus.cpp:51-80 | an error event takes all descriptors of a session off the bus if and only if no callback ahead of the session's own deleted the event's descriptor, or those callbacks dealt with every descriptor of the session themselves |
| Sessions.ErrorEndsSession | src/io/session_base.cpp:19-28 | an error event that reaches the session's callback makes it the last one called; none registered by then for any of its descriptors is called again, in the same turn or later, whatever other callbacks do |
| Sessions.ErrorEndsUpSession | src/io/session_base.cpp:19-28 | for a session that is up and whose descriptors other callbacks do not delete, that is so for every error event on any of them |
| Sessions.PolledErrorEndsSession | src/io/bus.cpp:46-93 | an error event anywhere among the polled ones ends the session from its dispatch on, the rest of the turn included |
| Sessions.QueuedErrorEndsSession | src/io/bus.cpp:84-92 | an error event on the queue at the swap, whenever it was queued, ends the session from its dispatch in that turn on, the events queued behind it included |
| Sessions.ReactionEndsSession | src/psql_proxy/handler.cpp:50-55 | an error event that a callback queues in reaction to a polled event, as a Terminate message or a failed read makes it do, is dispatched in the same turn and ends the session |
| Sessions.DeleteAheadEndsHalf | src/io/bus.cpp:55-58 | a session with two descriptors that ends by halves: a callback ahead of its own deletes the event's descriptor, and the other goes on listening |
| EndToEnd.StepKeepsSystem | src/psql_proxy/session.cpp:13-22 | every I/O event and every memory access keeps channel, handler and log in step with the bytes received |
| EndToEnd.CallsReachLog | src/psql_proxy/main.cpp:95-110 | in every run, throws and refusals included, written + unread + still to queue is an in-order selection of whole pieces of the queries the handler reports when called on the bytes received in some chunks, and without a refusal spells all of them |
| EndToEnd.QueriesReachLog | src/psql_proxy/main.cpp:95-110 | in every run without a throw or a refusal, written + unread + still to queue spells the queries framed in the bytes received, each with its separator |
| EndToEnd.LogIsOrderedPieces | src/psql_proxy/query_processor.cpp:16-55 | with refusals, the log is an in-order selection of whole pieces of those queries and separators |
| EndToEnd.StreamPassesThrough | src/io/channel.cpp:82-195 | meanwhile the bytes delivered and buffered are the bytes received, parsed or not |
| EndToEnd.EventsMoveBytes | src/io/channel.cpp:82-195 | between two calls of the log any event can be taken, and one that finds or reads bytes and a ready receiver delivers some, unless the tap threw |
| EndToEnd.TapThrowsExactly | src/io/channel.cpp:116-119 | an event ends early exactly if the handler throws on the bytes read |
| EndToEnd.ClientIsLogged | src/psql_proxy/handler.cpp:45-49 | for a client that sent a start-up frame and recoverable frames, the log holds its query texts one after the other |
| EndToEnd.OneQueryIsLogged | src/psql_proxy/main.cpp:95-96 | in bytes: after a version 3.0 start-up message and one query, in whatever chunks, the log holds the query and a line feed |

## Left out

- Sockets, epoll, acceptor, addresses, `main`, signals: system calls; their results are parameters.
- `file_writer`: timing, sleeping and flushing; what remains is a callback that takes at most what it is offered.
- The start-up message's parameter list: its scan runs four bytes past the payload and nothing uses its result.
- `make_query_msg` on an empty payload steps before the buffer; it is modelled as the exception its negative length leads to.
- The echo session: two channels on one socket compete for its bytes, so no stream property holds of either.
- Several sessions feeding one log: EndToEnd follows one session, whose thread is the log's only producer.
- Flags, error and object wrappers, context: forwarding.
- Object lifetimes: destructors that delete descriptors during the sweep, reuse of descriptor numbers by the kernel, and the kernel's own interest list (`_add_fd`, `_del_fd`) including their failures.
- A callback that registers another for the descriptor it is called for: the program would iterate over a list while appending to it, so NoSelfAdd is a precondition of the dispatch methods.
- Null or throwing error callbacks: reports are counted only.
- C++ memory orders beyond what stale loads of the indices and the release-acquire pairing of the write index with the invalidate index give.
- Delivery: a refused acquire does not re-arm the input, and the retry of a left event is queued on the left descriptor, so nothing is claimed about bytes eventually leaving the channel.
