# OrangeBench core: models and proofs in Dafny

OrangeBench is an HTTP and WebSocket server in C++. This project models the parts of it whose correctness is
hardest to see from the code, and proves what each is meant to guarantee, for every input, every interleaving
or every run.

| file | component |
|---|---|
| `SchedulerModel.dfy`, `SchedulerInvariant.dfy` | the worker threads of the thread pool as interleaved steps, and what every step keeps |
| `Scheduler.dfy`, `SchedulerBounds.dfy`, `SchedulerStop.dfy`, `SchedulerHistory.dfy` | the guarantees of the pool over all runs; how many workers may sleep over work; when Stop ends; what the counters tell of a run |
| `Timers.dfy`, `TimerCalls.dfy` | its timer thread and the calls that feed it, as interleaved steps; what a call can rely on |
| `StreamReader.dfy` | greedy readers over a growing buffer: the theory shared by WebSocket and HTTP |
| `WebSocketFrame.dfy`, `WebSocketSession.dfy` | the frame codec and the incremental session |
| `Base64.dfy` | base64 for the handshake |
| `HttpFraming.dfy`, `HttpMessages.dfy`, `HttpReceived.dfy` | cutting requests out of a stream; requests written out and read back; what the server believes of them |
| `FormData.dfy`, `Text.dfy` | form decoding; the string routines of the C++ library that HTTP calls |
| `Routes.dfy` | route patterns, compiled to regular expressions and matched |
| `RingBuffer.dfy` | the wrapped byte queue |
| `SendPath.dfy` | the outgoing chunk queue with `Send` and `Flush` |
| `MemoryPool.dfy` | aligned allocation and its books |
| `Bits.dfy`, `Wrappers.dfy` | bytes and bit operations on numbers; optional values |

The concurrent parts are step systems: a step is one access to shared state that another thread can see, and
theorems speak of every reachable state or every run. Code that loops or changes an object in place is a method
or a class, proved against a specification function; the theorems are about those functions.

Bytes are numbers below 256, or characters where the code handles strings. Integers are unbounded, and where
the width matters (the length of a frame, the sums of the memory pool, `stoul`) the wrap-around is written out.
The clock, the socket, the allocator and the interleaving of threads are nondeterministic or parameters.

## What the proofs brought out

- **Growth of the ring buffer.** `expand_if_needed` zeroes the read position before it measures what is
  readable. It keeps the content if and only if the read position was 0 (`GrowthKeepsContent`); otherwise a
  reader can get bytes nobody wrote (`MisalignedGrowthInventsBytes`). A run behaves as a byte queue after every
  operation if and only if none of its operations grows an array whose read position is not 0; with the two steps
  in the order that `shrink_to_fit` uses, every run does (`RunIsQueueIff`).
- **Masking.** The key is written big-endian and applied in the host's byte order. Encode and Decode undo each
  other on either host, but a client that follows section 5.3 of RFC 6455 is understood if and only if the host is
  big-endian or the order of the key's bytes does not matter (`ClientFrameArrivesIff`); the key 0x01020304 is one
  for which it does (`MaskingDiffers`).
- **Resume.** It changes `paused` without the lock, so its notify_all can fall between a worker's test and its
  sleep and miss that one worker. In a pool of one worker the work is then lost, and only so (`LostIffRaced`,
  `LostForGood`, `ResumeCanLoseWork`). With two workers or more somebody always comes back to the queue
  (`NoLostWorkWithTwoWorkers`), but the missed worker can sleep over a task until another worker has finished its
  own; never more than one does (`AtMostOneAsleep`, `OneLeftAsleep`).
- **Stop.** For every cap and number of workers, Stop ends within a bound if and only if there is no cap or the cap
  is at least the number of workers, and the pool is not paused after the request (`StopBoundedIff`). Under a lower
  cap a worker that finds the cap reached does not sleep any more and can spin for as long as the others' tasks run
  (`StopCanSpin`). A Pause after the request makes a worker spin over queued work until Resume, in every pool
  (`PauseMakesStopSpin`).
- **Last header field.** The section is cut before the CRLF of its last line, and the line loop wants one: the
  last field is never entered. A request comes back as it was sent if and only if an earlier field repeats the last
  and the fields that are entered announce the length of its body (`ComesBackIff`). When Content-Length is the last
  field, the request is taken without its body and the body is read as the next request (`LengthLost`,
  `PostedFormLost`). A request without fields is never accepted (`ParseWritten`).
- **Upgrades.** Only the request at the front of the buffer is examined for a WebSocket upgrade. Handling is
  independent of chunking exactly when no later request asks for one (`ChunkingIndependentIff`); such streams
  exist (`LateUpgradeHappens`).
- **Refused sends.** `Send` ignores a refused `EnqueueSend`. A success means that the data was accepted, whatever the
  socket does, if and only if it was acceptable (`SuccessMeansAcceptedIff`); refused data is reported as sent
  exactly when flushing what was pending meets no error (`RefusedButReported`, `RefusedRun`).
- **Wrapping sizes.** A memory-pool request whose size, alignment and header sum wraps gets a block that does
  not hold it; exactly then (`BlockLayout`). A size of 2^64 - 32 with alignment 16 gets eight bytes (`WrappedBlock`).
- **Oversized frames.** Decoding ends in the exception of the resize exactly when the announced length makes the
  64-bit sum `pos + payload_len` wrap (`OverflowIff`, for example `LargestLengthOverflows`); the model has this as
  the outcome `Overflow`, so no length is excluded.
- **Room is never given back.** The free list of the memory pool is never drawn on and its counter of pool bytes
  never shrinks, so a pool with a limit gives out a bounded number of blocks in its whole life (`LifetimeBound`) and
  refuses even when everything has been freed (`EmptyButFull`).
- **After Stop.** A task submitted to a stopped pool is queued in silence and, unless the pool is started again, never run
  (`NothingAfterStop`).
- **Waiting for a deadline.** `wait_for` in `timerLoop` has a predicate that holds at once, so the timer thread spins
  until the deadline (`SpinsUntilDue`); with an empty queue it sleeps (`SleepsWhileEmpty`).
- **Smaller ones.** `writable_areas` can offer the one cell that must stay free. A periodic timer is re-armed from the
  sampled clock, so it drifts. A continuation frame is answered by closing with 1002 (`OtherOpcodeArrives`).

## Model

| member | source | states |
|---|---|---|
| `Scheduler.NoLostWorkUnlessRaced` | src/core/Async/async_scheduler_impl.cpp:128-258 | in every interleaving, with Pause, Resume and Stop anywhere: work queued while not paused has a notification pending or a worker neither blocked nor gone, unless all have exited or a Resume lost its race |
| `Scheduler.NoLostWorkWithTwoWorkers` | src/core/Async/async_scheduler_impl.cpp:128-258 | with two workers or more, in any interleaving, queued work of a pool that is not paused always has a notification pending or a worker neither blocked nor gone, busy ones included |
| `Scheduler.NoLostWork` | src/core/Async/async_scheduler_impl.cpp:216-258 | in every interleaving without Pause, with any number of workers, a non-empty queue means a notification is pending or some worker is neither blocked nor gone, unless all have exited |
| `Scheduler.LostIffRaced` | src/core/Async/async_scheduler_impl.cpp:132-135 | with no notification to come, every worker is blocked or about to block over queued work if and only if a notify_all found the only worker between test and sleep and nothing woke it since |
| `Scheduler.BroadcastLoses` | src/core/Async/async_scheduler_impl.cpp:132-135 | after such a notify_all, with no other notification pending, no run of the pool's own steps starts anything or is longer than the step into sleep |
| `Scheduler.LostForGood` | src/core/Async/async_scheduler_impl.cpp:132-135 | after a lost race the pool has at most the step into sleep left, and starts nothing |
| `Scheduler.NeverStuck` | src/core/Async/async_scheduler_impl.cpp:216-258 | otherwise, while work is queued and not paused, the pool always has an enabled step of its own |
| `Scheduler.BoundedProgress` | src/core/Async/async_scheduler_impl.cpp:216-258 | with queued work and neither paused nor stopped, any run of the pool's own steps longer than an explicit bound starts a task |
| `SchedulerBounds.CapIsUsed` | src/core/Async/async_scheduler_impl.cpp:216-258 | without Pause and Stop, while a worker sleeps, pending notifications and workers on their way to the queue are at least as many as the tasks that could be taken below the cap |
| `SchedulerBounds.AtMostOneAsleep` | src/core/Async/async_scheduler_impl.cpp:128-258 | in every interleaving with Pause and Resume, once no notify_all is to come: at most one worker sleeps, or as many look for work or are about to be woken as tasks could be taken |
| `SchedulerBounds.OneLeftAsleep` | src/core/Async/async_scheduler_impl.cpp:132-135 | a reachable state of two workers in which one sleeps over a task, the other is busy, and no notification is pending |
| `SchedulerStop.StopBoundedIff` | src/core/Async/async_scheduler_impl.cpp:90-101 | for every cap and number of workers: the own steps from every reachable state with stop requested are bounded if and only if the pool is not paused and the cap is none or no lower than the number of workers |
| `SchedulerStop.StopEnds` | src/core/Async/async_scheduler_impl.cpp:90-101 | under that condition, the pause included, an explicit bound, at which all workers have exited |
| `SchedulerStop.StopFromRequest` | src/core/Async/async_scheduler_impl.cpp:90-101 | from the request itself, whatever state it finds the pool in, paused or not: under that bound on the cap, the same |
| `SchedulerStop.StopGoesOn` | src/core/Async/async_scheduler_impl.cpp:90-101 | until all workers have exited one of them can go on |
| `SchedulerStop.StopCanSpin` | src/core/Async/async_scheduler_impl.cpp:228-242 | for every cap below the number of workers, a reachable stopping state from which own steps lead back to it |
| `SchedulerStop.PauseMakesStopSpin` | src/core/Async/async_scheduler_impl.cpp:128-130 | for every cap and number of workers, such a cycle when Pause comes after the request |
| `Scheduler.FifoConservationAndCap` | src/core/Async/async_scheduler_impl.cpp:216-257 | started followed by queued is the submitted sequence; started tasks are running, completed or failed; the active count is exact and within the cap |
| `Scheduler.StopDrains` | src/core/Async/async_scheduler_impl.cpp:90-126 | when all workers have exited, exactly the tasks submitted before the last exit were started and finished; what Stop discards came later |
| `SchedulerHistory.EveryTaskAccounted` | src/core/Async/async_scheduler_impl.cpp:216-257 | over every run up to the clearing of the queue: started followed by queued is what the run submitted; every task is being run or has ended as often as it was started; completed and failed are the numbers of tasks that returned and that threw |
| `SchedulerHistory.NothingAfterStop` | src/core/Async/async_scheduler_impl.cpp:90-126 | after Stop nothing is started and the counters stay zero; tasks submitted later are queued and never run |
| `Scheduler.PauseBound` | src/core/Async/async_scheduler_impl.cpp:128-130 | from Pause until Resume or Stop at most one more task is taken, in any interleaving |
| `Scheduler.ResumeCanLoseWork` | src/core/Async/async_scheduler_impl.cpp:132-135 | a reachable state after Resume with work queued, the only worker blocked and no notification pending |
| `Timers.NeverEarly` | src/core/Async/async_scheduler_impl.cpp:260-307 | each submission is no earlier than its sampled clock, that no earlier than the deadline; the k-th submission of a periodic timer has a sampled clock of at least creation plus k intervals |
| `Timers.RoundsFollow` | src/core/Async/async_scheduler_impl.cpp:284-294 | the first deadline is creation plus delay; each later one is the clock sampled for the round before plus the interval |
| `Timers.OneShotOnce` | src/core/Async/async_scheduler_impl.cpp:143-162 | a request that is not periodic is submitted at most once in any run |
| `Timers.NothingLost` | src/core/Async/async_scheduler_impl.cpp:143-183 | until Stop empties the queue a periodic request has exactly one entry, and a one-shot either its entry or its one submission, never both |
| `Timers.TimerWakes` | src/core/Async/async_scheduler_impl.cpp:264-270 | a blocked timer thread has not missed a stop, and with entries in the queue a notification is coming |
| `Timers.TimerNeverStuck` | src/core/Async/async_scheduler_impl.cpp:260-307 | with entries in the queue the timer thread or its notification can always go on, and a due entry is popped next |
| `Timers.NoOvertaking` | src/core/Async/async_scheduler_impl.cpp:272-280 | over whole runs, of two queued entries the one due earlier is popped first |
| `Timers.DueIsPopped` | src/core/Async/async_scheduler_impl.cpp:260-307 | a due entry is popped within a bounded number of the timer thread's own steps, whatever callers schedule or push meanwhile |
| `TimerCalls.DueIsSubmitted` | src/core/Async/async_scheduler_impl.cpp:272-286 | and one step later submitted, for a clock read when it was due |
| `TimerCalls.ScheduleAfterOnce` | src/core/Async/async_scheduler_impl.cpp:143-162 | over every run that goes on from a call of ScheduleAfter: submitted at most once, not before the delay has passed since the clock of the call, and until Stop empties the queue either waiting or submitted |
| `TimerCalls.ScheduleEveryRepeats` | src/core/Async/async_scheduler_impl.cpp:164-183 | over every run that goes on from a call of ScheduleEvery with a positive interval: the k-th submission has a sampled clock of at least the call's plus k intervals, and until Stop empties the queue exactly one entry is waiting |
| `TimerCalls.ImmediateOnce` | src/core/Async/async_scheduler_impl.cpp:145-148 | a delay or interval that is not positive: submitted by the call itself, at its clock, and never again |
| `TimerCalls.SleepsWhileEmpty` | src/core/Async/async_scheduler_impl.cpp:264-270 | while nothing comes to the queue the thread takes at most one step for each time it is woken, after the first three |
| `TimerCalls.SpinsUntilDue` | src/core/Async/async_scheduler_impl.cpp:300-305 | with an entry that is not due it goes round any number of times without being woken and without the clock moving |
| `TimerCalls.StopEndsThread` | src/core/Async/async_scheduler_impl.cpp:104-110 | after the flag is cleared the thread takes at most four steps, and until it has exited it can take the next |
| `TimerCalls.ClearedForGood` | src/core/Async/async_scheduler_impl.cpp:116-120 | what was in the queue when Stop emptied it is never submitted |
| `StreamReader.ChunkingIndependence` | src/application/websocket/websocket_session.cpp:88-138 | for any reader whose steps use input and are not revised by later input: any chunking gives the events of one pass, up to the first that ends the conversation |
| `StreamReader.DrainAppend` | src/application/websocket/websocket_session.cpp:94-138 | a pass over `b` resumed with `x` is the pass over `b` followed by `x` |
| `WebSocketFrame.RoundTrip` | src/application/websocket/websocket_frame.cpp:8-98 | Decode of an encoded frame followed by anything gives the frame and its exact length, in all three length forms, masked or not, on either host, if and only if the length field, opcode and key are consistent |
| `WebSocketFrame.DecodeEncoded` | src/application/websocket/websocket_frame.cpp:8-98 | the frame that comes back for every frame whose length field is its payload's size |
| `WebSocketFrame.PrefixIncomplete` | src/application/websocket/websocket_frame.cpp:50-83 | every proper prefix of an encoded frame decodes to nothing |
| `WebSocketFrame.ReverseRoundTrip` | src/application/websocket/websocket_frame.cpp:8-97 | re-encoding a decoded frame gives back its bytes if and only if the reserved bits were 0 and the length form was minimal |
| `WebSocketFrame.DecodeStable` | src/application/websocket/websocket_frame.cpp:50-98 | what Decode makes of a buffer, unless it waits for more, is not changed by bytes that follow |
| `WebSocketFrame.DecodeProgress` | src/application/websocket/websocket_frame.cpp:50-98 | a decoded frame uses at least two bytes, all of them in the buffer |
| `WebSocketFrame.XorIsExclusive` | src/application/websocket/websocket_frame.cpp:36-46 | for every two bytes and k < 8, bit k of the result, read by division and remainder, is 1 if and only if bit k of exactly one of the two is |
| `WebSocketFrame.MaskedIff` | src/application/websocket/websocket_frame.cpp:36-46 | masking is that exclusive or of octet i with octet i modulo 4 of the key, bit by bit, and nothing else |
| `WebSocketFrame.HelloArrives` | src/application/websocket/websocket_frame.cpp:8-98 | the masked frame of section 5.7 of RFC 6455 is written and read on a big-endian host as printed there, with "Hello" as its payload |
| `WebSocketFrame.MaskingConforms` | src/application/websocket/websocket_frame.cpp:36-46 | the code's masking is that of section 5.3 of RFC 6455 exactly on a big-endian host or where the key's two byte orders agree on the payload |
| `WebSocketFrame.MaskingDiffers` | src/application/websocket/websocket_frame.cpp:36-46 | the key 0x01020304 on a little-endian host: the masked octet is not the one of section 5.3 |
| `WebSocketFrame.ClientFrameArrivesIff` | src/application/websocket/websocket_frame.cpp:50-98 | a frame masked as section 5.3 asks decodes to what the client sent if and only if the host is big-endian or the key's byte order does not matter for a payload of that length |
| `WebSocketFrame.OverflowIff` | src/application/websocket/websocket_frame.cpp:80-86 | for every buffer a vector can hold, decoding ends in the exception of the resize if and only if the 64-bit sum of position and announced length wraps |
| `WebSocketFrame.LargestLengthOverflows` | src/application/websocket/websocket_frame.cpp:76-90 | ten bytes that announce the largest 64-bit length get past the bound and end in the exception of the resize |
| `WebSocketFrame.WriteUint64` | src/application/websocket/websocket_frame.cpp:143-147 | the loop appends the low bytes of the value, most significant first |
| `WebSocketFrame.ReadUint64` | src/application/websocket/websocket_frame.cpp:135-141 | the loop reads the big-endian number at the offset |
| `WebSocketFrame.FromToBytes` | src/application/websocket/websocket_frame.cpp:135-147 | reading what was written in n bytes gives the value back, for every value that fits them |
| `WebSocketFrame.EncodeFrame` | src/application/websocket/websocket_frame.cpp:8-48 | the imperative encoder computes the specified bytes for every frame |
| `WebSocketFrame.DecodeFrame` | src/application/websocket/websocket_frame.cpp:50-98 | the imperative decoder computes the specified outcome for every buffer, the wrapping bound included |
| `WebSocketSession.SessionChunking` | src/application/websocket/websocket_session.cpp:88-138 | any two ways of cutting a byte stream give the same actions up to the first close, invalid opcode or exception |
| `WebSocketSession.FramesArrive` | src/application/websocket/websocket_session.cpp:88-138 | frames encoded by a peer and delivered in any chunks give exactly the peer's actions and leave nothing in the buffer |
| `WebSocketSession.Session.OnData` | src/application/websocket/websocket_session.cpp:88-92 | one call appends and makes one greedy pass over the buffer |
| `WebSocketSession.Session.ProcessFrames` | src/application/websocket/websocket_session.cpp:94-138 | the loop terminates and is the greedy pass |
| `WebSocketSession.Deliver` | src/application/websocket/websocket_session.cpp:88-138 | a whole conversation on the session object, chunk by chunk, equals one call |
| `WebSocketSession.ServerFrameArrives` | src/application/websocket/websocket_frame.cpp:100-125 | unmasked server frames decode to the opcode, payload and fin bit they were made with, whatever the byte orders of the two ends |
| `WebSocketSession.CloseArrives` | src/application/websocket/websocket_frame.cpp:127-133 | a close frame ends the other side's conversation with the code and reason it was sent with |
| `WebSocketSession.TextArrives` | src/application/websocket/websocket_session.cpp:104-108 | a frame of opcode 1 at the front of any stream gives its payload to the message callback, and the rest of the stream is handled as if it came alone |
| `WebSocketSession.BinaryArrives` | src/application/websocket/websocket_session.cpp:109-112 | opcode 2: to the binary callback |
| `WebSocketSession.PingArrives` | src/application/websocket/websocket_session.cpp:113-116 | opcode 9: a pong is sent |
| `WebSocketSession.PongArrives` | src/application/websocket/websocket_session.cpp:117-120 | opcode 10: nothing but consumption |
| `WebSocketSession.OtherOpcodeArrives` | src/application/websocket/websocket_session.cpp:132-135 | any other opcode ends the pass, and the rest is left unread |
| `WebSocketSession.CloseFrameArrives` | src/application/websocket/websocket_session.cpp:121-131 | opcode 8: the code is the first two octets of the payload, the higher first, the reason the others; the rest is left unread |
| `WebSocketSession.BareCloseArrives` | src/application/websocket/websocket_session.cpp:121-131 | opcode 8 with fewer than two octets: code 1000 and no reason |
| `WebSocketSession.PartialOrOverflowing` | src/application/websocket/websocket_session.cpp:97-98 | a proper prefix of a frame does nothing and stays; a length that overflows ends in the exception |
| `Base64.Base64Encode` | src/application/websocket/websocket_session.cpp:9-37 | the byte-collecting loop computes the block definition of section 4 of RFC 4648 for every length |
| `Base64.EncodedLength` | src/application/websocket/websocket_session.cpp:9-37 | the output has 4 times ceil(n/3) characters |
| `Base64.Padding` | src/application/websocket/websocket_session.cpp:28-35 | padding signs stand at the end only, and number 0, 1 or 2 as the length asks |
| `Base64.RoundTrip` | src/application/websocket/websocket_session.cpp:9-37 | an independent decoder recovers every input |
| `Base64.TableIsAlphabet` | src/application/websocket/websocket_session.cpp:10-11 | the code's table holds the alphabet |
| `HttpFraming.ParseStable` | src/application/http/http_protocol_handler.cpp:185-246 | a request parsed from `b` is parsed alike from `b` followed by anything |
| `HttpFraming.ParseLocal` | src/application/http/http_protocol_handler.cpp:185-246 | and depends on nothing but the characters it consumed |
| `HttpFraming.ChunkingIndependentIff` | src/application/http/http_protocol_handler.cpp:94-172 | for every stream: all chunkings are handled alike, up to the first event that ends the conversation, if and only if no request but the first asks for an upgrade |
| `HttpFraming.ChunksAsOne` | src/application/http/http_protocol_handler.cpp:156-171 | without such a request, the chunks give the events of one call and, while the connection lasts, the same residue |
| `HttpFraming.ParseHttpRequest` | src/application/http/http_protocol_handler.cpp:185-246 | the imperative parser computes the specified parse of every buffer, exceptions of `stoul` included |
| `HttpFraming.ReadHeaders` | src/application/http/http_protocol_handler.cpp:203-217 | the header loop enters exactly the lines that a CRLF follows |
| `Text.StoulReads` | src/application/http/http_protocol_handler.cpp:219-220 | what `stoul` makes of space, a sign, any digits and anything that is no digit: their value by position below 2^64, its negation modulo 2^64 after a minus sign, and the exception from 2^64 on |
| `Text.StoulThrows` | src/application/http/http_protocol_handler.cpp:219-220 | it throws where no digit follows the space and the sign |
| `Text.StoulOfDecimal` | src/application/http/http_protocol_handler.cpp:219-220 | a number below 2^64 written in decimal is read back whatever follows |
| `HttpFraming.Connection.OnData` | src/application/http/http_protocol_handler.cpp:94-172 | one call on the connection's buffer, parsed by the imperative parser: an upgrade at the front, or the greedy loop |
| `HttpFraming.Deliver` | src/application/http/http_protocol_handler.cpp:94-172 | a whole conversation on the connection object equals one call on the whole stream unless an upgrade comes late |
| `HttpMessages.ParseWritten` | src/application/http/http_protocol_handler.cpp:185-246 | exactly what the parser makes of a request written as in section 2.1 of RFC 9112, followed by anything: refused, throws, or taken with all but its last field and as much of what follows as the entered fields announce |
| `HttpMessages.ComesBackIff` | src/application/http/http_protocol_handler.cpp:185-246 | it comes back as it was sent, using exactly its own characters, if and only if it has fields, an earlier one repeats the last, and those entered announce the length of its body, within the limit |
| `HttpReceived.DeclaredBodyArrives` | src/application/http/http_protocol_handler.cpp:219-228 | a request whose entered Content-Length is the decimal length of its body, within the limit, arrives with its body, using exactly its own characters |
| `HttpReceived.OtherLengths` | src/application/http/http_protocol_handler.cpp:219-228 | with any decimal length n: it throws from 2^64 on, waits or is refused if n exceeds what has arrived or the limit, and otherwise takes the n characters after the blank line |
| `HttpReceived.ParsedParts` | src/application/http/http_protocol_handler.cpp:189-238 | method, version and entered fields are those that were written, the path stops before the first question mark, and there is no form without POST and the form content type |
| `HttpReceived.ParsedKeepsAlive` | src/application/http/http_protocol_handler.cpp:240-242 | the connection stays for "keep-alive", ends for any other non-empty value, and without the field stays exactly for HTTP/1.1 |
| `HttpReceived.PostedFormArrives` | src/application/http/http_protocol_handler.cpp:235-238 | a posted form, for every sequence of byte fields, comes out as the last-wins map of its fields |
| `HttpReceived.UpgradeSeenOnly` | src/application/http/http_protocol_handler.cpp:102-119 | an upgrade is seen only on the one path, for a field that says websocket in some mixture of cases, with one of two spellings in the header section |
| `HttpReceived.UpgradeSeen` | src/application/http/http_protocol_handler.cpp:102-119 | and it is seen there for both spellings |
| `HttpReceived.UpgradeTakesOver` | src/application/http/http_protocol_handler.cpp:119-152 | such a request at the front hands the connection over with nothing dispatched |
| `HttpReceived.ClosingDropsRest` | src/application/http/http_protocol_handler.cpp:156-171 | requests pipelined before one that closes are dispatched in order, then that one, and everything behind it is dropped |
| `HttpMessages.LengthLost` | src/application/http/http_protocol_handler.cpp:189-225 | if only the last field gives the length, the request is taken with an empty body and the body stays at the front of the buffer |
| `HttpMessages.PostedFormLost` | src/application/http/http_protocol_handler.cpp:189-225 | a concrete form post to which this happens |
| `HttpMessages.PipelineArrives` | src/application/http/http_protocol_handler.cpp:156-171 | a pipeline of written keep-alive requests is dispatched in order and leaves nothing behind |
| `HttpMessages.PipelineInChunks` | src/application/http/http_protocol_handler.cpp:94-172 | so it is in whatever chunks it arrives |
| `HttpMessages.LateUpgradeIff` | src/application/http/http_protocol_handler.cpp:102-154 | which pipelines of requests fall under the exception to chunking independence |
| `HttpMessages.LateUpgradeHappens` | src/application/http/http_protocol_handler.cpp:102-154 | a concrete stream with a late upgrade |
| `FormData.FormRoundTrip` | src/application/http/http_request.cpp:9-65 | for every sequence of byte strings, encoding as in section 2.1 of RFC 3986 with space as plus, joining and decoding gives the last-wins map |
| `FormData.DecodeEncoded` | src/application/http/http_request.cpp:9-29 | percent-decoding undoes percent-encoding |
| `FormData.EscapeDecoded` | src/application/http/http_request.cpp:9-29 | two hexadecimal digits in either case after a percent sign are that byte |
| `FormData.SignedEscapeDecoded` | src/application/http/http_request.cpp:13-21 | so are a space or sign and one digit, as `strtol` reads them |
| `FormData.PercentKept` | src/application/http/http_request.cpp:13-27 | any other percent sign stands for itself |
| `FormData.PairsInOrder` | src/application/http/http_request.cpp:42-65 | any body is its pairs entered one after the other |
| `FormData.PairEntered` | src/application/http/http_request.cpp:52-58 | a pair is cut at its first equals sign, and ignored without one |
| `FormData.UrlDecodeLoop` | src/application/http/http_request.cpp:9-29 | the index loop computes the specified decoding of every string, malformed escapes included |
| `FormData.ParseFormData` | src/application/http/http_request.cpp:31-65 | the splitting loop computes the specified map of every body |
| `Routes.CompilationPreservesMeaning` | src/application/http/http_protocol_handler.cpp:314-339 | the generated regular expression matches a path with given captures if and only if the path is the pattern with its parameters replaced by these non-empty, slash-free strings |
| `Routes.PartsMeaning` | src/application/http/http_protocol_handler.cpp:314-339 | a pattern put together from literals and named parameters compiles to those names in order, and its instances are exactly the paths put together from the same literals with non-empty, slash-free values |
| `Routes.HasParts` | src/application/http/http_protocol_handler.cpp:314-339 | every pattern can be put together so |
| `Routes.BindMaps` | src/application/http/http_protocol_handler.cpp:352-354 | the parameters are exactly the names, each with the value in its place, the later one for a name used twice |
| `Routes.CapturesUnique` | src/application/http/http_protocol_handler.cpp:314-358 | a path is an instance of a pattern in at most one way |
| `Routes.SearchCorrect` | src/application/http/http_protocol_handler.cpp:349-353 | backtracking search finds captures if and only if there are any |
| `Routes.CreateRouteEntry` | src/application/http/http_protocol_handler.cpp:314-339 | the compiling loop makes a valid expression and the parameter names of every plain pattern |
| `Routes.MatchRoute` | src/application/http/http_protocol_handler.cpp:341-358 | the first registered route of which the path is an instance, with the parameters that make it one; none only if there is none |
| `RingBuffers.GrowthKeepsContent` | src/core/net/buffer.cpp:44-73 | growth as written keeps the content if and only if the read position was 0 |
| `RingBuffers.RingBuffer.ExpandIfNeeded` | src/core/net/buffer.cpp:44-73 | the exact content, capacity and positions after growth, in either order of its last steps |
| `RingBuffers.RingBuffer.EnsureWritable` | src/core/net/buffer.cpp:308-310 | the content survives exactly under that condition |
| `RingBuffers.RingBuffer.Write` | src/core/net/buffer.cpp:79-107 | appends all data to the content if and only if there was room, growth measures first, or the queue started at cell 0; otherwise the exact damage |
| `RingBuffers.RingBuffer.Read` | src/core/net/buffer.cpp:117-139 | takes the front of the content across the wrap |
| `RingBuffers.RingBuffer.ShrinkToFit` | src/core/net/buffer.cpp:312-347 | keeps the content and leaves the specified capacity |
| `RingBuffers.RingBuffer.ReadableAreas` | src/core/net/buffer.cpp:196-226 | the two areas concatenate to the content |
| `RingBuffers.RingBuffer.WritableAreas` | src/core/net/buffer.cpp:162-194 | the two areas follow the write position, never overlap the content, and offer the writable bytes, plus one exactly when the queue starts past cell 0 unwrapped |
| `RingBuffers.RingBuffer.FillAndCommit` | src/core/net/buffer.cpp:162-233 | filling the areas in order and committing n bytes is a write of n bytes, for n up to the writable bytes |
| `RingBuffers.RingBuffer.HasWritten` | src/core/net/buffer.cpp:228-233 | advances the write position, refusing more than is writable |
| `RingBuffers.RingBuffer.HasRead` | src/core/net/buffer.cpp:235-245 | drops the front of the content, refusing more than there is |
| `RingBuffers.RingBuffer.FindChar` | src/core/net/buffer.cpp:251-280 | the least offset of the character in the content, across the wrap |
| `RingBuffers.RingBuffer.Find` | src/core/net/buffer.cpp:282-302 | the least offset of the pattern in the content, across the wrap |
| `RingBuffers.Perform` | src/core/net/buffer.cpp:44-347 | every operation on the object leaves and answers exactly what the specification of the code as it stands says, harm included |
| `RingBuffers.DidIsQueueIff` | src/core/net/buffer.cpp:44-139 | that is what a byte queue would if and only if growth measures first or the operation does not grow a misaligned array |
| `RingBuffers.RunIsQueueIff` | src/core/net/buffer.cpp:17-347 | over whole runs of writes, reads, reservations, shrinkings, in-place fills and skips: contents and answers after every operation are a byte queue's if and only if growth measures first or no operation grows a misaligned array, which is a function of the operations alone |
| `RingBuffers.Drive` | src/core/net/buffer.cpp:17-347 | a run on the object gives the specified answers and leaves the specified content, for either order of growth |
| `RingBuffers.Create` | src/core/net/buffer.cpp:17-24 | construction fails for capacity zero only |
| `RingBuffers.MisalignedGrowthInventsBytes` | src/core/net/buffer.cpp:68-73 | a run that reads a byte nobody wrote |
| `SendPath.SendBuffer.EnqueueSend` | src/core/Buffer/connection_buffer_mgr.cpp:26-37 | accepted if and only if empty, or the pending bytes and the data are within the limit and the data can be copied; one chunk is added or none |
| `SendPath.SendBuffer.PeekSend` | src/core/Buffer/connection_buffer_mgr.cpp:39-50 | the unsent part of the front chunk, empty only if nothing is pending |
| `SendPath.SendBuffer.ConsumeSend` | src/core/Buffer/connection_buffer_mgr.cpp:52-65 | takes that many bytes off the front, chunk by chunk |
| `SendPath.WithoutIsDrop` | src/core/Buffer/connection_buffer_mgr.cpp:52-65 | which is dropping them from the pending bytes |
| `SendPath.SendBuffer.GetSendQueueSize` | src/core/Buffer/connection_buffer_mgr.cpp:67-78 | the number of pending bytes |
| `SendPath.Connection.Flush` | src/core/Tcp/tcp_connection.cpp:331-354 | terminates against any socket, and leaves exactly the specified wire, pending chunks, number of calls and error |
| `SendPath.FlushStopsAt` | src/core/Tcp/tcp_connection.cpp:331-354 | flushing goes on exactly up to the first call that does not take all it is offered: what was taken is on the wire and its failure is the error |
| `SendPath.FlushTakesAll` | src/core/Tcp/tcp_connection.cpp:331-354 | if every call takes all, everything pending goes on the wire without error |
| `SendPath.FlushConserves` | src/core/Tcp/tcp_connection.cpp:331-354 | wire followed by pending is unchanged by a flush |
| `SendPath.Connection.Send` | src/core/Tcp/tcp_connection.cpp:226-238 | enqueues by the limit and flushes; the answer is the full length whenever the flush had no error; not connected, nothing happens |
| `SendPath.Conservation` | src/core/Tcp/tcp_connection.cpp:226-354 | over every run and against every socket: wire followed by pending is the concatenation of the accepted sends, and pending stays within the limit |
| `SendPath.AcceptedIfFits` | src/core/Buffer/connection_buffer_mgr.cpp:26-37 | after any run, a non-empty send is accepted if and only if it fits beside what is pending and can be copied |
| `SendPath.AllAccepted` | src/core/Buffer/connection_buffer_mgr.cpp:26-37 | sends that fit within the limit all together are all accepted, in order, whatever the socket does |
| `SendPath.EverythingArrives` | src/core/Tcp/tcp_connection.cpp:331-354 | after any run, once the socket takes all, one flush has every accepted byte on the wire |
| `SendPath.RefusedButReported` | src/core/Tcp/tcp_connection.cpp:231-236 | whatever is pending: a send is answered with its full length and not accepted if and only if it is not acceptable and flushing what is pending meets no error |
| `SendPath.SuccessMeansAcceptedIff` | src/core/Tcp/tcp_connection.cpp:226-238 | an answer of success means, against every socket, that the data was accepted if and only if it fits the limit and can be copied |
| `SendPath.RefusedRun` | src/core/Tcp/tcp_connection.cpp:231-236 | such a run on the connection, with a limit of zero |
| `SendPath.Drive` | src/core/Tcp/tcp_connection.cpp:226-354 | a run on the connection gives the wire, pending bytes, byte counter and answers specified by the operations and the socket's outcomes |
| `MemoryPool.BlockLayout` | src/core/Buffer/memory_pool.cpp:136-163 | for every power of two the address is a multiple of it, and header and payload lie in the raw block if and only if the sum of sizes does not wrap |
| `MemoryPool.WrappedBlock` | src/core/Buffer/memory_pool.cpp:136-163 | size 2^64 - 32 with alignment 16 gets a block of eight bytes that does not hold it |
| `MemoryPool.NoWrap` | src/core/Buffer/memory_pool.cpp:172-175 | blocks that lie apart in the address space cannot make any counter wrap |
| `MemoryPool.AllocateKeeps` | src/core/Buffer/memory_pool.cpp:109-178 | an allocation keeps the books balanced, by exact amounts, at an address not in use |
| `MemoryPool.FreeKeeps` | src/core/Buffer/memory_pool.cpp:180-203 | freeing finds a header in use and keeps the books balanced |
| `MemoryPool.Accounting` | src/core/Buffer/memory_pool.cpp:109-203 | after any run: used bytes are the sum of live sizes, allocations less deallocations are live entries, pool bytes are within the limit, live blocks with their headers do not overlap |
| `MemoryPool.GivenBack` | src/core/Buffer/memory_pool.cpp:109-203 | from any balanced state, allocating and freeing gives back the live blocks and the used bytes, and uses up the room |
| `MemoryPool.LifetimeBound` | src/core/Buffer/memory_pool.cpp:126-178 | a pool with a limit gives out no more blocks in its whole life than fit below the limit at once, however many are freed |
| `MemoryPool.EmptyButFull` | src/core/Buffer/memory_pool.cpp:126-178 | a pool in which everything has been freed can refuse a request that would fit an empty one |
| `MemoryPool.Pool.AllocateBytesAligned` | src/core/Buffer/memory_pool.cpp:109-178 | when the pool answers null, throws or allocates; the whole new state, in plain sums for powers of two whose sum does not wrap; alignment |
| `MemoryPool.Pool.DeallocateBytes` | src/core/Buffer/memory_pool.cpp:180-203 | a live address leaves the books, used bytes drop by its recorded size, one more deallocation is counted, its header goes to the front of the free list and all else stays; null and foreign pointers change nothing |
| `MemoryPool.AllocateAndFree` | src/core/Buffer/memory_pool.cpp:109-203 | on the object: the address an allocation returns can be freed, which restores live blocks and used bytes, and its header leads the free list |

## Left out

- Scheduler: restarting after Stop, and changing the number of threads or the cap while running.
- Scheduler: the same worker loop in src/core/Async/async_scheduler.cpp and the operation objects around it.
- Timers: restarting after Stop, and empty `std::function` objects, which the timer thread skips.
- Timers: the binary heap inside `std::priority_queue`; its `top` is any entry with the least deadline.
- WebSocketSession: callbacks that are not set or that call back into the session, and what happens on the connection after Close.
- The handshake's SHA-1, the speed-test handler and ping timing.
- HttpFraming: the table of connection contexts, its timeouts, and the handlers and middleware a request is given to; a failed handshake counts as an upgrade.
- Routes: patterns with brackets, backslashes or NUL, whose generated text is another regular expression than meant; static files.
- Routes.CreateRouteEntry: promises nothing for a pattern with brackets, backslashes or NUL.
- RingBuffers: overflow of the capacity when doubling, and the `string` and move overloads.
- SendPath: threads that call `Flush` without the lock of `Send`, closing while data is pending, and the overflow of the queue size; the socket's outcomes are a function of the number of the call.
- The receive side of the connection buffer: `Receive` copies from the writable region, so no content property holds.
- MemoryPool: `ClearPool`, pre-allocation, changing the limit, and giving memory back; the free list is a list of headers.
- MemoryPool.Pool.AllocateBytesAligned: keeps its invariant for powers of two whose sum does not wrap; for others only the new state is given.
- Sockets, polling, the database, connection management, heartbeats, pages and the JavaScript, which would add easy members or system calls only.
