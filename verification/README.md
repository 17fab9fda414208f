# SimpleWebServer: verified models of the parser, the timer wheel, the loops and the buffers

This project models the logic of a reactor and coroutine web server for Linux and proves what it keeps to. The code is
modelled as it is written; where it departs from what it is for, a lemma names an input that shows it and another says,
for all inputs, exactly when the purpose is met.

| files | what they model |
|---|---|
| `HttpTypes`, `HttpNumbers` | message types and tables; what the number in `Content-Length` means |
| `HttpAutomaton`, `HttpParser` | the incremental, zero-copy HTTP parser: one function step per byte, and the object with its fields, reading text through `begin_ptr` |
| `HttpSegments`, `HttpGrammar`, `HttpMessages` | what a run does to each piece of a message; soundness, completeness, framing |
| `HttpChunking`, `HttpBorrowing` | calls and chunks: when the way a byte string is cut into calls matters |
| `HttpWriter`, `HttpRoundTrip`, `HttpBlankKey`, `HttpResponses`, `HttpExamples` | the message writer and the two round trips; the language of responses; messages byte by byte |
| `TimerQueue`, `TimerRuns`, `TimerOrder`, `TimerWheel` | a stable deadline queue, its runs, the order in which timers run, and the circular array of 6000 slots that refines the queue |
| `ByteBuffer`, `TcpProtocol`, `TcpHistory`, `TcpConnection` | the growable byte window, the connection protocol, the story that a connection holds, the connection object over two windows |
| `EventLoop`, `CoroutineScheduler` | the wake-up protocol and the ready queue, as atomic steps of several threads |
| `LogStream`, `Logger` | the logger's blocks, as texts and as objects filled in place |
| `ConnTable` | the server's connection table |

Objects of the source are classes with the source's fields; each method is proved equal to a function on values, and the
lemmas are about those functions and their runs. The loop, the coroutine scheduler and the connection table are shared
by several threads and are modelled as state machines whose steps interleave freely. What a run is asked to do (the
callbacks queued, the coroutines woken, the timers added, the messages sent and the texts received) is told from its
steps or calls alone, and the states are measured against that.

A parser value carries `seen`, the bytes at `begin_ptr[0..now_len]`, and `fault`, which tells an exception or a failed
assertion (`Thrown`) from a copy out of memory that lies outside the message and the chunk at hand (`Overread`), whose
outcome the source does not determine. A parameter key is copied without regard to `now_len`, so one step can see the
bytes behind its own in the same chunk: `Feed` runs over a text together with what lies behind each byte, `Call` is one
call with one chunk, `Run` feeds the bytes one by one. Theorems about requests hold for every such cut. The fields
`version` and `code`, which the source leaves uninitialised, have arbitrary first values.

A parameter without a `=` of its own borrows the key length and the value of an earlier `=`. What that does is modelled
as it is written, and is the only way in which a parse depends on how its bytes were cut into calls.

## Model

| member | source | states |
|---|---|---|
| HttpRoundTrip.RequestRoundTrip | src/http/HTTPMessageParser.cpp:100-135 | whatever order its maps are printed in and however the text is cut into calls, a well-formed request comes back unchanged; and only a well-formed one does, if no parameter key holds a blank, or its bytes come one by one, or no key is copied from ahead. Well-formed: the path starts with an ordinary byte, has no blank, and no `?` when there are no parameters, and every parameter that it hides in front of a `&` has a key, which is the key of a parameter of the query; keys and values are free of delimiters (a key may hold `=`); header keys and values are such as the header state keeps; the body has at least two bytes and `Content-Length` denotes its size, digit by digit |
| HttpBlankKey.BlankKeyComesBack | src/http/HTTPMessageParser.cpp:339-342 | a concrete request that is not well formed, its key holding a blank, and comes back unchanged in one call, because the key is copied from behind the blank |
| HttpRoundTrip.ShortBodiesAreLost | src/http/HTTPMessageParser.cpp:130-134 | two concrete requests, with an empty and a one-byte body, that do not come back |
| HttpRoundTrip.QueryImage | src/http/HTTPMessageParser.cpp:325-343 | parameters that come back unchanged are free of delimiters, even when an earlier `=` is borrowed, if no key holds a blank or nothing could be read ahead; and the parser has then read the whole written target |
| HttpRoundTrip.HeaderImage | src/http/HTTPMessageParser.cpp:175-213 | every header handed out has a non-empty key and a value that does not start with a blank |
| HttpNumbers.StoiExactly | src/http/HTTPMessageParser.cpp:197-200 | white space, a sign, digits and a rest are converted to the sum of every digit times the power of ten of its place, with the sign, if that lies between -2147483648 and 2147483647; anything else, no digits included, throws |
| HttpNumbers.EveryText | src/http/HTTPMessageParser.cpp:197-200 | every text is of that shape |
| HttpNumbers.StoiOfToString | src/http/HTTPMessageParser.cpp:197-200 | a size printed in decimal is read back, up to 2147483647 |
| HttpExamples.FormIsParsed | src/http/HTTPMessageParser.cpp:100-135 | a posted form with a body of ten bytes, given byte by byte, is what the writer produces and what the parser hands back, however it is cut into calls |
| HttpMessages.RequestSound | src/http/HTTPMessageParser.cpp:406-428 | however it is cut into calls, a completed run splits its bytes into method, blank, target, blank, version, line end, header lines, the ending line and exactly `total_len` body bytes, and the tables hold those pieces; for a target that `TargetOk` accepts the path and query slices are exactly its parts, and for any target recorded values hold no `=`, `&` or blank, and keys no `&`, `?` or blank unless the value was borrowed |
| HttpMessages.RequestComplete | src/http/HTTPMessageParser.cpp:406-428 | conversely, pieces put together are read back slice by slice, however they are cut into calls, and the run completes exactly when the last `Content-Length` denotes the body size, or there is none and no body |
| HttpMessages.CompletedReadable | src/http/HTTPMessageParser.cpp:430-441 | every slice of a completed request lies inside the bytes received |
| HttpMessages.HeaderTexts | src/http/HTTPMessageParser.cpp:195-196 | a header slice is the value of the last line with its key |
| HttpMessages.QueryTexts | src/http/HTTPMessageParser.cpp:328-343 | a query slice is the value of the last parameter with its key |
| HttpGrammar.HeaderSound | src/http/HTTPMessageParser.cpp:159-214 | a header block that leads to the body state is a sequence of accepted lines, an ending line, and the body |
| HttpGrammar.VersionSound | src/http/HTTPMessageParser.cpp:254-307 | the version state is left only after one of the three versions and its terminator |
| HttpGrammar.MethodSound | src/http/HTTPMessageParser.cpp:357-387 | the method state is left only after a method and a blank |
| HttpGrammar.TargetSound | src/http/HTTPMessageParser.cpp:309-354 | the target is everything up to the first blank, and what is recorded of it satisfies `UrlResult` |
| HttpGrammar.HiddenFit | src/http/HTTPMessageParser.cpp:317-336 | a target that the parser survives hides only parameters whose keys end before their `&`, unless a `&` has got into a key |
| HttpChunking.ChunkingExactly | src/http/HTTPMessageParser.cpp:406-428 | every way to cut a byte string into calls leaves the parser as one call does, in state, tables and verdict, if and only if the one call never copies a key that reaches past the byte at hand |
| HttpBorrowing.ChunkingInvariance | src/http/HTTPMessageParser.cpp:328-343 | so it is for every response, and for every request in which no parameter borrows: a condition on the text alone |
| HttpBorrowing.CutMatters | src/http/HTTPMessageParser.cpp:339-342 | `GET /a=b?flag HTTP/1.1` with one header completes in one call with the parameter `flag HT`; cut behind its second blank, the copy leaves the chunk |
| HttpBorrowing.BorrowRead | src/http/HTTPMessageParser.cpp:320-342 | for any target with one borrowing parameter: which key and value are recorded, or that the copy goes astray, according to what lies behind the blank |
| HttpGrammar.PrefixFree | src/http/HTTPMessageParser.cpp:399-404 | after a complete prefix no longer one is complete, whatever lies behind its bytes |
| HttpSegments.LineSeg | src/http/HTTPMessageParser.cpp:175-213 | one header line is recorded under its key with the offset and length of its value; `Content-Length`, and no other line, sets the body size, to the number its value denotes |
| HttpSegments.QuerySeg | src/http/HTTPMessageParser.cpp:325-343 | a parameter list is recorded pair by pair with exact offsets |
| HttpSegments.PathSeg | src/http/HTTPMessageParser.cpp:309-354 | what the URL state has in its registers and its table after any part of a path, hidden parameters included |
| HttpSegments.BodySeg | src/http/HTTPMessageParser.cpp:148-157 | the body slice starts at its first byte and gets its length only from two bytes on |
| HttpSegments.DetailSeg | src/http/HTTPMessageParser.cpp:217-230 | the reason phrase is recorded one byte late and two bytes too long |
| HttpSegments.CodeSeg | src/http/HTTPMessageParser.cpp:232-252 | a table code is read back, unless the uninitialised `code` was -1, which refuses every response |
| HttpResponses.ResponseRoundTrip | src/http/HTTPMessageParser.cpp:116-135 | for every table code: version, code, headers and body come back if and only if the headers are well formed, the body has two bytes or more that `Content-Length` announces, and `code` did not start at -1; the reason phrase is then the shifted slice, never the phrase |
| HttpResponses.ErrorResponseNeverCompletes | src/http/HTTPMessageParser.cpp:137-146 | the server's own error responses are never completed by this parser |
| HttpResponses.ResponseSound | src/http/HTTPMessageParser.cpp:217-252 | a completed response splits into a version, the three digits of a code of the table, a phrase up to the first line feed behind a carriage return, header lines and exactly the announced body, and the tables hold those pieces; any other code is refused |
| HttpResponses.ResponseComplete | src/http/HTTPMessageParser.cpp:217-252 | conversely such pieces are read back |
| HttpGrammar.CodeSound | src/http/HTTPMessageParser.cpp:232-252 | the code state is left only after the three digits of a code of the table and a blank |
| HttpGrammar.DetailSound | src/http/HTTPMessageParser.cpp:217-230 | the detail state is left only at the first line feed behind a carriage return |
| HttpExamples.ErrorTexts | src/http/HTTPMessageParser.cpp:137-146 | the two error responses, byte by byte |
| HttpWriter.MessageWriter.WriteRequest | src/http/HTTPMessageParser.cpp:100-114 | the bytes handed to the callback are the request text |
| HttpWriter.MessageWriter.WriteResponse | src/http/HTTPMessageParser.cpp:116-123 | the bytes handed to the callback are the response text |
| HttpWriter.JoinedIsQueryText | src/http/HTTPMessageParser.cpp:105-106 | replacing the last `&` leaves the parameters joined by `&` |
| HttpParser.MessageParser.ParserMessage | src/http/HTTPMessageParser.cpp:406-428 | feeding a chunk that follows the bytes received, wherever in memory they now are, is one call of the automaton; a parser that has refused answers false and changes nothing |
| HttpParser.MessageParser.GetRequestMessage | src/http/HTTPMessageParser.cpp:430-441 | the message is the text behind the slices, in the memory that holds it now |
| HttpParser.ParseReads | src/http/HTTPMessageParser.cpp:406-441 | a request received in any number of reads and moved in memory between them yields what its chunks yield, and what the whole yields in one call unless a key is copied from ahead |
| TimerQueue.FiredIsSorted | src/timer/TimerScheduler.cpp:39-55 | ticking to any later instant runs exactly the timers due by then, stably sorted by due tick |
| TimerQueue.SortIsStable | src/timer/TimerScheduler.cpp:39-55 | the reference is ordered, a permutation, and keeps insertion order among equal ticks |
| TimerRuns.RunsExactlyOnce | src/timer/TimerScheduler.cpp:9-55 | over any run a timer that is not removed stays pending until a trigger reaches its tick and has then run exactly once |
| TimerRuns.RemoveExactly | src/timer/TimerScheduler.cpp:28-38 | removal takes out that timer and no other |
| TimerRuns.TriggerTwice | src/timer/TimerScheduler.cpp:39-55 | triggering at one time and then a later one is triggering at the later one |
| TimerRuns.RunKeeps | src/timer/TimerScheduler.cpp:9-55 | in every reachable state each pending timer is due within one lap, whole laps before its promised deadline, and no node occurs twice |
| TimerRuns.DeadlineIsRounded | src/timer/TimerScheduler.cpp:57-61 | the promised deadline is at most 9 ms early |
| TimerRuns.LapBound | src/timer/TimerScheduler.cpp:16-23 | a timer runs at its promised deadline if and only if that lies at most one lap ahead of the tick reached; otherwise at least a lap early |
| TimerRuns.GuardSuffices | src/timer/TimerScheduler.cpp:16-19 | the limit on the delay implies the lap bound while the wheel lags by less than one tick |
| TimerRuns.RunsOnTime | src/timer/TimerScheduler.cpp:9-55 | a timer added while the wheel lags by less than one tick is pending until the wheel reaches the requested time rounded down to 10 ms, and has then run exactly once, whatever else happens |
| TimerOrder.FirstAddedRunsFirst | src/timer/TimerScheduler.cpp:9-55 | over any run, of two timers added while the wheel lags by less than one tick, and not removed, the one added first has run first, if its time rounded down is no later than that of the other |
| TimerOrder.RunsWhenDue | src/timer/TimerScheduler.cpp:9-55 | such a timer, with its own callback, has run exactly when some trigger has reached its time rounded down |
| TimerOrder.ReachedIs | src/timer/TimerScheduler.cpp:39-61 | the tick reached is that of the latest trigger |
| TimerOrder.RefusedExactly | src/timer/TimerScheduler.cpp:10-19 | an add leaves no trace exactly when the delay is 60000 ms or more and its time rounded down lies ahead |
| TimerRuns.GuardFailsWhenLate | src/timer/TimerScheduler.cpp:16-19 | with a lag of 20 ms a timer of 59999 ms passes the limit and runs at once |
| TimerWheel.SlotsAfterTick | src/timer/TimerScheduler.cpp:41-48 | the slot that comes up holds exactly the timers due, and the others stay in step |
| TimerWheel.RemovedFromItsSlot | src/timer/TimerScheduler.cpp:32-37 | after any number of ticks the slot computed from the id is the one the timer is in |
| TimerWheel.TimerWheel.AddTimer | src/timer/TimerScheduler.cpp:9-27 | the wheel does what the queue does; a timer that is due runs at once and gets no id, one of 60000 ms or more that lies ahead is refused and leaves no trace, any other gets an id with its rounded deadline |
| TimerWheel.TimerWheel.RemoveTimer | src/timer/TimerScheduler.cpp:28-38 | the wheel does what the queue does, for ids still pending |
| TimerWheel.TimerWheel.TriggerTimer | src/timer/TimerScheduler.cpp:39-55 | the tick loop, over any clock jump, does what the queue does in one go |
| ByteBuffer.FifoExactly | src/base/Buffer.cpp:57-66 | over any run, what left followed by the contents is what entered, if and only if no pop asks for less than everything |
| ByteBuffer.ShortPopLoses | src/base/Buffer.cpp:57-61 | popping one byte of three loses the other two |
| ByteBuffer.Buffer.Push | src/base/Buffer.cpp:79-96 | a push appends, in place when there is room on either side; a growing push ends with capacity contents + text + twice the right room, below contents + three texts |
| ByteBuffer.Buffer.PushFrom | src/base/Buffer.cpp:6-23 | a read appends what was delivered, up to the room on the right, which is at least 512 bytes; the array doubles exactly when there was less |
| ByteBuffer.Buffer.PopTo | src/base/Buffer.cpp:25-36 | a write takes a prefix of the contents |
| ByteBuffer.Buffer.MoveHead | src/base/Buffer.cpp:68-73 | moving the contents to the front in place keeps them |
| TcpProtocol.RunKeeps | src/tcp/TcpConnection.cpp:51-175 | over any run, bytes written then bytes pending are the accepted messages in order, pending output is below 1 MiB (so `write_high` is never called), and a removal is requested exactly once when the connection is fully closed, none before, and none at all with a close callback that acts on its connection |
| TcpProtocol.OpenKeeps | src/tcp/TcpConnection.cpp:33-48 | whatever the open callback does, the invariants of all the runs hold when it returns |
| TcpProtocol.HalfCloseDrains | src/tcp/TcpConnection.cpp:138-155 | the write side is shut down with bytes pending if and only if some drain callback sends and then half-closes |
| TcpProtocol.EarlyExactly | src/tcp/TcpConnection.cpp:146-155 | the same for a single event |
| TcpProtocol.DrainCallbackCutsOff | src/tcp/TcpConnection.cpp:149-152 | a concrete callback that cuts its own message off |
| TcpProtocol.RunShut | src/tcp/TcpConnection.cpp:51-59 | without empty messages, a half-closed connection is shut down for writing as soon as its buffer is empty and, but for that case, not before |
| TcpProtocol.RunInterest | src/tcp/TcpConnection.cpp:77-88 | without empty messages, WRITE interest is on exactly while bytes are pending |
| TcpProtocol.EmptySendBreaks | src/tcp/TcpConnection.cpp:77-88 | an empty message on a drained connection, and nothing else, breaks that, and the next writable event fails its assertion |
| TcpProtocol.FullCloseOnce | src/tcp/TcpConnection.cpp:61-71 | after a full close there is never a further removal; which further reads throw |
| TcpProtocol.CloseCallbackLeaks | src/tcp/TcpConnection.cpp:61-71 | a close callback that acts on its connection throws, and the removal is never requested |
| TcpHistory.StoryIsKept | src/tcp/TcpConnection.cpp:33-175 | over any run, whatever the callbacks do, state, accepted, written and pending bytes, unread bytes, failure and removals are what the story of messages taken, bytes taken, texts received, pops and closes says, told from the calls and events alone |
| TcpHistory.UnreadIsAllRead | src/tcp/TcpConnection.cpp:108-119 | while there is a message callback and nothing pops, every text read so far is there, in order |
| TcpHistory.NothingKept | src/tcp/TcpConnection.cpp:115-120 | without a message callback nothing is left after a read |
| TcpHistory.TwoReads | src/tcp/TcpConnection.cpp:108-119 | a message that arrives in two reads is there as a whole |
| TcpConnection.TcpConnection.SendData | src/tcp/TcpConnection.cpp:77-88 | the object follows the protocol step, over the write window |
| TcpConnection.TcpConnection.HandleReadable | src/tcp/TcpConnection.cpp:108-136 | the same: the read window grows by what was delivered, the message callback may send, close and pop, and without one everything read is dropped |
| TcpConnection.TcpConnection.HandleWritable | src/tcp/TcpConnection.cpp:138-175 | the same, with callbacks that send and close |
| EventLoop.NoLostWakeUp | src/reactor/EventLoop.cpp:23-45 | under every interleaving a loop that polls with callbacks queued, or after a stop, finds the eventfd readable; the eventfd handler never finds it empty; callbacks run, then the rest of the batch, then the list, are the callbacks of the calls that have taken the lock and pushed, in that order |
| EventLoop.RunKeeps | src/reactor/Activater.cpp:19-42 | the invariant behind it, for every step of every thread |
| EventLoop.BatchFixed | src/reactor/EventLoop.cpp:31-38 | over any run up to the next swap, the batch is only worked off from the front, and the list is what it was followed by the callbacks pushed meanwhile |
| EventLoop.DrainsTheQueue | src/reactor/EventLoop.cpp:28-39 | once producers pause, a loop that has not been stopped has run every callback pushed so far, in order, within a bounded number of its own steps |
| EventLoop.CallQueues | src/reactor/EventLoop.cpp:74-80 | whenever the mutex is free a thread can queue a callback, which is then last in the list and announced |
| EventLoop.LoopSleeps | src/reactor/EventLoop.cpp:28-39 | and once producers pause it goes to sleep: it ends up in the poll with the eventfd drained, the list empty and everything run |
| EventLoop.QueuedCallbackRuns | src/reactor/EventLoop.cpp:28-39 | so a callback that another thread queues on a running loop is run, behind all that were queued before |
| EventLoop.EarlyStopIsLost | src/reactor/EventLoop.cpp:23-26 | a stop before the loop has started has no effect |
| EventLoop.StopNoticed | src/reactor/EventLoop.cpp:23-45 | in every reachable state a started loop has been told to stop if and only if some stop came after the start |
| EventLoop.StopHonoured | src/reactor/EventLoop.cpp:23-45 | such a loop, with no stop call under way and the mutex free, leaves `run` within a bounded number of its own steps; any other never does |
| CoroutineScheduler.EachWakeResumesOnce | src/co/Coroutine.cpp:61-103 | under every interleaving of scheduling calls by any threads, resumes then the ready queue are the coroutines named by the calls so far, in order, and only ready coroutines are resumed |
| CoroutineScheduler.YieldBlocks | src/co/Coroutine.cpp:41-52 | a coroutine that yields is blocked unless it has been woken meanwhile, and one that returns is done |
| CoroutineScheduler.StaysBlocked | src/co/co_fun.cpp:33-42 | a blocked coroutine stays so, and can be woken, until it is woken |
| CoroutineScheduler.DoneForGood | src/co/Coroutine.cpp:41-44 | a coroutine that has returned is never resumed again |
| CoroutineScheduler.ResumedInTurn | src/co/Coroutine.cpp:92-99 | the coroutine at place i of the queue is the one that the (i+1)-th resume from then on resumes, whatever else happens |
| CoroutineScheduler.OwnCallsAreServed | src/co/Coroutine.cpp:78-103 | when every scheduling call comes from the loop's thread, in every reachable state at most one handler is queued or running and no ready coroutine is stranded |
| CoroutineScheduler.ServedStep | src/co/Coroutine.cpp:78-103 | a step strands the ready coroutines if and only if it is a test of the flag that misses: it finds the flag set while no handler is queued or will look at the queue again, and no other call is about to see to them |
| CoroutineScheduler.StrandsExactly | src/co/Coroutine.cpp:78-103 | over any run of any threads, some state strands a ready coroutine if and only if some test misses |
| CoroutineScheduler.LateFlagExactly | src/co/Coroutine.cpp:83-88 | the flag comes to be set without a handler exactly when a call sets it after the handler that it queued has come and gone |
| CoroutineScheduler.DeafForEver | src/co/Coroutine.cpp:83-103 | from then on, unless a call had already found the flag clear, nothing is resumed again |
| CoroutineScheduler.WindowRun | src/co/Coroutine.cpp:92-103 | a run in which a wake-up by another thread falls between the last test of the queue and the clearing of the flag, and is lost |
| CoroutineScheduler.LateRun | src/co/Coroutine.cpp:83-88 | a run in which the flag is set too late |
| CoroutineScheduler.DoubleRun | src/co/Coroutine.cpp:83-88 | a run with two handlers |
| CoroutineScheduler.EveryReadyIsResumed | src/co/Coroutine.cpp:92-103 | with the scheduling calls on the loop's thread, and coroutines that yield at once, every ready coroutine is resumed within a bounded number of steps |
| CoroutineScheduler.AwaitedWakeResumes | src/co/co_fun.cpp:68-75 | a coroutine that the loop's thread wakes is queued behind all others and resumed within a bounded number of steps |
| LogStream.WriteAdds | src/logger/Logger.cpp:88-104 | a log adds itself to the stream, preceded by a copy of the part that filled up the open block; all blocks but the last stay full |
| LogStream.WriteConservesExactly | src/logger/Logger.cpp:91-104 | a log is added unchanged if and only if it fits in the open block or that is full |
| LogStream.StraddlingLogRepeats | src/logger/Logger.cpp:102-103 | a log of three bytes that is written as five |
| LogStream.FlushOneExactly | src/logger/Logger.cpp:115-144 | one flush writes the front block and nothing else to the file and recycles it; it keeps every byte if and only if at most 256 blocks wait, and otherwise drops the last 256 of them |
| LogStream.FlushAllWrites | src/logger/Logger.cpp:115-148 | a full flush ends with nothing waiting and has written a prefix of everything logged; all of it if and only if at most 256 blocks were waiting |
| LogStream.BlocksReused | src/logger/Logger.cpp:92-100 | a write takes recycled blocks before it makes new ones |
| LogStream.TrimBoundExactly | src/logger/Logger.cpp:127-133 | exactly when trimming leaves at most 256 blocks |
| LogStream.TrimKeepsTooMany | src/logger/Logger.cpp:129-132 | 600 waiting blocks are trimmed to 344 |
| LogStream.RunConserves | src/logger/Logger.cpp:88-161 | over runs without straddling logs or overlong lists, files then buffers are everything logged, in order |
| Logger.BufBlock.WriteBuf | src/logger/Logger.hpp:117-122 | a block takes as much of the log as fits behind what it holds |
| Logger.Logger.WriteBuf | src/logger/Logger.cpp:88-104 | the write loop over block objects does what the stream does |
| Logger.Logger.FlushBuf | src/logger/Logger.cpp:115-148 | trimming, flushing and recycling block objects does what the stream does; recycled blocks are empty |
| ConnTable.TableIsSafe | src/tcp/TcpServer.cpp:42-81 | under every interleaving the table holds at most 20000 connections, a create callback never meets its key, a removal finds its entry, each fully closed connection has exactly one removal under way, and every open descriptor is queued or in the table |
| ConnTable.NextIsServed | src/tcp/TcpServer.cpp:42-69 | connections are created in the order of acceptance; the next one gets its place while fewer than 20000 are there, and is closed otherwise |
| ConnTable.StaysServed | src/tcp/TcpServer.cpp:71-81 | a connection keeps its place until it is closed |
| ConnTable.StepKeeps | src/tcp/TcpServer.cpp:42-81 | the invariant behind it, for every step |

## Left out

- HttpRoundTrip.RequestRoundTrip: the only-if half leaves open requests with a blank in a parameter key that are handed over in such a way that a key is copied from behind the byte at hand; they are not well formed, and HttpBlankKey shows one that comes back.
- HttpMessages.RequestSound: for a target whose last parameter has no `=` of its own, or that hides one without a key, it bounds what is recorded but does not give the table; HttpBorrowing.BorrowRead does for one parameter.
- HttpResponses.ResponseRoundTrip: codes outside the table are left out, because the writer's lookup inserts them into the table that the parser consults afterwards.
- TimerWheel.TimerWheel.TriggerTimer: callbacks that add or remove timers during the tick are not modelled; the source walks the slot list while they change it.
- TimerWheel.TimerWheel.RemoveTimer: the id must be pending or its deadline reached, since erasing a list node twice is undefined in the source.
- HttpParser.MessageParser.ParserMessage: calls after an exception or a stray copy are not modelled.
- CoroutineScheduler.EveryReadyIsResumed: coroutines that wake others or run on are covered by the order of resumes alone, not by a bound.
- EventLoop.DrainsTheQueue: bounds the steps of the loop thread, not time; no scheduler fairness is modelled.
- LogStream.WriteAdds: logs are at most one block long, which the caller's limit of 2 KiB against 4 MiB blocks guarantees.
- HTTPServer2 hands the parser the start of its buffer on every read, so only its first read meets the parser's rule that a chunk follows the bytes before it; the server loop is not modelled.
- State objects of the parser are values in the field `state`; their allocation and replacement on the heap is not captured.
- Parser lengths and offsets are unbounded integers, not 32-bit ones; 64-bit timer arithmetic is modelled.
- The capacity of a vector is taken to be its length after a resize; the growth policy of the library is not modelled.
- Sockets, epoll, eventfd and timerfd are parameters: bytes delivered, bytes taken, an error, a counter.
- Channel and Poller bookkeeping of triggered events, the loop pool, acceptor, connector, client and TCPServer2 are not part of this model.
- The event loop, the coroutine scheduler and the connection table are state machines on values; their list and map objects and the data races on them are not captured, and a coroutine that has been woken while it runs is taken to yield before it returns.
- Coroutine switching is an atomic transfer of control; stacks, registers and the coroutine pool are not part of this model, and each coroutine has a fresh number.
- Log formatting, file rotation and file names; all files are one stream, and the mutex and condition variable of the logger are not modelled.
