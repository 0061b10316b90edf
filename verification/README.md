# MuServer: a verified model

MuServer is a reactor-style network server: an event loop with pending functors and timers, an epoll
poller, connections with an output queue, a byte buffer, an HTTP request parser, an asynchronous logger,
an integer printer and an LFU cache. This project models the parts of it that carry state and proves what
they promise, over every input and every run. `dafny verify dfyconfig.toml` checks all of it.

Each part comes in the form the source gives it. Objects that are updated in place are classes whose
methods have the source's branches; each method is proved to compute a step of a value-level model
(`View`, `State`), and the properties of whole runs are proved about that model. Code that is the same
step at both levels is defined once, as the specification function.

| part | files | main results |
|---|---|---|
| LFU cache | `LfuModel`, `LfuTheorems`, `LfuLaws`, `FreqList`, `LfuCache`, `ShardedLfu` | `minFreq_` is the exact minimum after every run if and only if the capacity is 0 or `2 <= maxAvgFreq_ <= 250`; the linked lists stay well formed through every relinking; the cache is a map with evictions, and so is the sharded cache, over whole runs; after every run a key's frequency is what its own puts and gets and the agings come to, and without an aging just their number |
| asynchronous logger | `LoggerModel`, `LoggerTheorems`, `LoggerRounds`, `AsyncLogger`, `FixedBuffer` | in every interleaving the assertions hold; file, buffers held for writing, full buffers and current buffer spell the accepted lines in order, but for the buffers from index 2 on of a trimmed round of more than 25; a buffer is given up only when the next line does not fit, so a round of less than twelve and a half buffers of text loses nothing |
| connection output | `OutputModel`, `OutputTheorems`, `OutputLaws`, `TcpConnection` | socket bytes plus queued remainders are the payloads in order; over every run output is watched for exactly while something is queued, if and only if no empty payload was refused on its own; each operation writes exactly what the kernel takes; a half-close comes only after the last byte |
| event loop | `LoopModel`, `LoopTheorems`, `EventLoop` | no wakeup is lost in any interleaving; the functors that have run and those still to run are exactly those queued, in order |
| timers | `TimerQueue` | a pass runs exactly the timers that are due, every timer is in one place, and the timerfd is armed for the earliest one exactly when a pass found something due or nothing is left |
| poller | `Poller` | the poller's map and the kernel's interest set mirror the channels, and every epoll_ctl is legal |
| byte buffer | `ByteBuffer` | a byte queue, through growing, moving down and scattered reads |
| HTTP parser | `RequestLine`, `HttpMessage`, `HttpTheorems`, `HttpContext` | the parser completes a request exactly on what a well-formed message was written as, accepts exactly the request lines of its grammar, takes the body a decimal content length says, and for each other way a call can end exactly when is proved |
| integer printer | `IntPrinter` | every 64-bit value prints as the numeral that reads back to it, in at most 20 characters, inside the buffer |

Where the code and its own comments disagree the model follows the code:

- The comment at src/TcpConnection.cc:141-151 says that a shutdown requested while output is pending is
  completed by `handleWrite` once the queue drains. No such call exists: `HalfCloseIffIdle` proves that the
  socket is half-closed, then or ever, if and only if write events were not enabled when `shutdown` ran.
- The comment at Timer/TimerQueue.cc:118 speaks of 100 ms; the code's least delay is 100 microseconds.
- `findCRLF` (include/Buffer.h:98-107) is written as if a miss gave a null pointer; it gives the end of
  the readable bytes. So the parser's scanner reads, or its buffer retrieves, past them on bytes that stop
  within a head, unless it refuses the request line or throws on the content length first;
  `HeadIncompleteIff` proves exactly when. Before that, the log line at Http/HttpContext.cc:103 copies
  everything up to two characters behind a missing line break, if the info level is logged, as it is by
  default (Log/logger.cc:21-37): `ReadsPastIff` proves exactly when the call as a whole reads past the
  readable bytes, with the level on or off, and `ParseRequest` requires only that it does not. With the
  default level a caller must check two things, as `CallerMustCheck` states: that a line break is there,
  and that the head does not stop short. `CutHead` proves that every proper beginning of a head whose
  lengths convert fails that.

Properties that do not hold for every caller are stated with their exact condition: `MinFreqExactIff`,
`OutputNeverStallsIff` over runs and `SendNeverStallsIff` for one call, `HalfCloseIffIdle`,
`EarlyFunctorsIff`, `DeadlinesExactIff`, `PresentExactIff`, `KernelWatches`, `HeadIncompleteIff`,
`ReadsPastIff`, and the clause of `HandleRead` about the timerfd. The failing half of `MinFreqExactIff` is
about unbounded totals: the run that breaks a cache brings the total to one more than `BreakingGets`, which
a 32-bit integer holds for every maximum average but the largest one, 2^31 - 1. A kernel that takes a write of zero bytes, as Linux does on an established socket, never
refuses an empty payload, so there output never stalls; the model also admits kernels that do refuse it.

The sum in src/TimeStamp.cc:59-62 is computed in double precision. The model takes the rounding as a
function of which nothing is known but that it is monotone and leaves integers up to 2^53 alone.
`DeadlinesExactIff` proves which deadlines are exact under all such roundings, `WholeStepsAddUp` that under
any one of them an interval that comes out as a whole number of microseconds is added exactly, and
`PresentDeadlines` what round-to-nearest does at times between 2005 and 2041, where the doubles are the
quarters of a microsecond: a fraction of seven eighths or more adds a microsecond to every run.

Conventions: integers are unbounded unless a width is written out; bytes are characters in the buffer and
the parser and numbers below 256 in the connection; the order in which an unordered map is iterated is an
output (`visit`) about which nothing more is assumed than that it lists each key once; the kernel is a
source of arbitrary answers within what its calls may do; times are microseconds.

## Model

| member | source | states |
|---|---|---|
| FreqLists.FreqList.constructor | include/LFU.h:35-42 | a new list is its two sentinels linked to each other |
| FreqLists.FreqList.AddNode | include/LFU.h:50-59 | the node becomes the last one before the tail; forward and backward links agree from sentinel to sentinel, and no other link changes |
| FreqLists.FreqList.RemoveNode | include/LFU.h:61-72 | exactly this node leaves the chain and loses its links; a node without both neighbours is left alone |
| FreqLists.FreqList.IsEmpty | include/LFU.h:44-47 | true exactly when no node is between the sentinels |
| FreqLists.FreqList.GetFirstNode | include/LFU.h:74 | the node after the head: the oldest one |
| LfuTheorems.RemoveKeyAt | include/LFU.h:61-72 | unlinking a node removes that position of the arrival order and keeps the others in order |
| LfuTheorems.MoveKeepsForm | include/LFU.h:178-181 | relinking one node under another frequency leaves every cached key in exactly the one list of its own frequency |
| LfuTheorems.AgeAll | include/LFU.h:274-298 | aging lowers every node's frequency once, by half the maximum average but not below 1, relinks it accordingly, and leaves the total alone |
| LfuTheorems.AgedLeast | include/LFU.h:291-294 | aging keeps the order of frequencies: the aged minimum is the minimum of the aged |
| LfuTheorems.SearchFindsLeast | include/LFU.h:305-317 | the search over non-empty lists finds the smallest frequency in use, capped at its start value 127 |
| LfuTheorems.CountingKeeps | include/LFU.h:248-260 | after counting an access, with aging if the average went over, the total is at least the sum of frequencies and the minimum is at most the maximum average |
| LfuTheorems.BumpKeeps | include/LFU.h:173-185 | moving a hit node up keeps `minFreq_` the exact minimum |
| LfuTheorems.KickOutKeeps | include/LFU.h:210-216 | an eviction removes one node from its list, the map and the accounting |
| LfuTheorems.ApplyKeeps | include/LFU.h:100-145 | every operation keeps well-formedness, size at most capacity, total at least the sum, and the exact minimum of at most the maximum average |
| LfuTheorems.RunIsSane | include/LFU.h:100-317 | these hold after every sequence of put, get and purge, and an eviction always finds its victim |
| LfuTheorems.MinFreqExactIff | include/LFU.h:173-317 | `minFreq_` is the exact minimum after every run if and only if the capacity is 0 or the maximum average lies in 2..250 |
| LfuTheorems.OneKeyBreaks | include/LFU.h:274-317 | outside that range one key and a stated number of gets, with the total that brings, leave `minFreq_` at an empty list |
| LfuTheorems.GetContents | include/LFU.h:120-131 | a get changes no key and no value |
| LfuTheorems.PutContents | include/LFU.h:100-117 | a put maps its key to its value and drops at most the victim, and that only for a new key at full capacity |
| LfuTheorems.OnlyTheLeastLeaves | include/LFU.h:192-216 | a key leaves only by purge or by such a put, and then it has minimum frequency and is first in that frequency's arrival order |
| LfuTheorems.HitReturnsLastPut | include/LFU.h:100-145 | after every run a hit returns the value last put for its key since the last purge |
| LfuTheorems.TotalWithinRunLength | include/LFU.h:248-271 | the running total stays between 0 and the number of operations |
| LfuLaws.GetCounts | include/LFU.h:120-131 | a hit counts one use: the total rises by one; the key's frequency rises by one and it becomes the last of that frequency's list; or, if the average goes over the maximum, that entry and all others are lowered by half the maximum, to no less than 1 |
| LfuLaws.PutCounts | include/LFU.h:100-113 | a put of a cached key counts one use in the same way, and sets the value |
| LfuLaws.PutInserts | include/LFU.h:192-207 | a put of a new key brings it in with frequency 1, as the last of its list; the evicted key's frequency leaves the total, and its place in its list is gone; then the same aging |
| LfuLaws.NothingCounted | include/LFU.h:100-145 | a miss and a put at capacity 0 change nothing, and a purge leaves total, average and cursor |
| LfuLaws.AgedOrder | include/LFU.h:280-298 | after an aging the keys of each frequency stand in the order in which the map was iterated |
| LfuLaws.RunForm | include/LFU.h:100-245 | in every run, whatever the configuration, the lists mirror the entries |
| LfuLaws.RunCounts | include/LFU.h:100-298 | after every run each key has the frequency its history gives it: 1 when brought in, one more at each put or get, lowered at each aging; and the total is the number of counted operations less the frequencies evicted |
| LfuLaws.FreqIsUses | include/LFU.h:100-260 | as long as no average went over the maximum, a cached key's frequency is the number of puts and gets of it since it was last inserted |
| LfuLaws.TotalIsSum | include/LFU.h:248-271 | without purges and agings the total is the sum of the frequencies |
| LfuCaches.LfuCache.constructor | include/LFU.h:92-96 | an empty cache, with `minFreq_` at 127 |
| LfuCaches.LfuCache.RemoveFromFreqList | include/LFU.h:219-227 | the heap structure with one node loose: every other node stays linked in the list of its frequency |
| LfuCaches.LfuCache.AddToFreqList | include/LFU.h:230-245 | a loose node is linked at the end of its frequency's list, created if absent, and the structure is whole again |
| LfuCaches.LfuCache.UpdateMinFreq | include/LFU.h:305-317 | the loop over the lists computes the least non-empty frequency, or 1 |
| LfuCaches.LfuCache.AgeNodes | include/LFU.h:280-298 | the loop visits each node once, in some order, and each relinking keeps the heap structure well formed |
| LfuCaches.LfuCache.HandleOverMaxAverageNum | include/LFU.h:274-302 | aging followed by the search, on the heap |
| LfuCaches.LfuCache.IncreaseFreq | include/LFU.h:248-260 | counts, averages, and ages when the average exceeds its maximum |
| LfuCaches.LfuCache.DecreaseFreq | include/LFU.h:263-271 | takes an evicted frequency off the total and recomputes the average |
| LfuCaches.LfuCache.GetInternal | include/LFU.h:173-189 | a hit returns the old value and moves the node one frequency up |
| LfuCaches.LfuCache.Get | include/LFU.h:120-131 | finds a key exactly when it is cached, returns its value, and keeps the structure |
| LfuCaches.LfuCache.KickOut | include/LFU.h:210-216 | removes the head of the list at `minFreq_` |
| LfuCaches.LfuCache.PutInternal | include/LFU.h:192-207 | evicts at full capacity, then inserts with frequency 1 and lowers `minFreq_` |
| LfuCaches.LfuCache.Put | include/LFU.h:100-117 | on a well-formed structure, the new state of a put: the one that `PutCounts`, `PutInserts` and `PutContents` describe |
| LfuCaches.LfuCache.PutHealthy | include/LFU.h:100-117 | with a maximum average in range a put needs no precondition beyond the invariant and keeps it |
| LfuCaches.LfuCache.Purge | include/LFU.h:141-145 | drops nodes and lists and nothing else |
| ShardedLfus.TotalBounded | include/LFU.h:324-333 | slices of the rounded-up share of the capacity together hold at most sliceNum times that share, which is below capacity + sliceNum |
| ShardedLfus.SliceIsRemainder | include/LFU.h:338-345 | slice i takes every n-th hash from i on |
| ShardedLfus.PutLookup | include/LFU.h:335-340 | after a put every lookup is as before, but for the key itself and one evicted key of the same slice |
| ShardedLfus.SliceRun | include/LFU.h:335-363 | after every run of the sharded cache each slice is where its own operations, and the purges, have brought it |
| ShardedLfus.ShardedRunPlaced | include/LFU.h:335-371 | after every run each key is only in the slice its hash selects, and every slice keeps its invariant |
| ShardedLfus.ShardedHitReturnsLastPut | include/LFU.h:335-363 | after every run of the sharded cache a hit returns the value last put for its key since the last purge |
| ShardedLfus.HashLfuCache.SizeBounded | include/LFU.h:324-333 | the slices of a cache together hold fewer than capacity + sliceNum keys |
| ShardedLfus.HashLfuCache.constructor | include/LFU.h:324-333 | the given number of slices, or the hardware's, all new and empty, each of the rounded-up share of the capacity; with a maximum average in range the invariant holds |
| ShardedLfus.HashLfuCache.Put | include/LFU.h:335-340 | only the slice the hash selects changes; the key is found from now on, and at most the victim of that slice no more |
| ShardedLfus.HashLfuCache.Get | include/LFU.h:342-347 | finds what a lookup in one map finds, and that is the value last put over the object's whole history |
| ShardedLfus.HashLfuCache.Purge | include/LFU.h:357-363 | empties every slice: no lookup finds anything |
| FixedBuffers.FixedBuffer.Append | include/logstream.h:39-46 | takes a piece whole if more room than its length is left, else not at all |
| FixedBuffers.FixedBuffer.Add | include/logstream.h:35 | moves the cursor over characters already written, within the buffer |
| FixedBuffers.FixedBuffer.Reset | include/logstream.h:32 | empties the buffer |
| LoggerTheorems.AssertsNeverFail | src/AsyncLogger.cc:74-142 | in every interleaving every step can be taken: both spares are there and empty at each loop head, refilling finds its buffers, and no null buffer is used |
| LoggerTheorems.EveryLineIsHeld | src/AsyncLogger.cc:29-98 | the buffers taken by swaps, then `buffers_`, then the current buffer hold exactly the lines that fit a buffer, whole, in lock order |
| LoggerTheorems.FileHoldsRounds | src/AsyncLogger.cc:101-118 | between rounds the file is each round in turn; of a round of more than 25 buffers the notice with its count and the first two buffers |
| LoggerTheorems.FileText | src/AsyncLogger.cc:105-118 | the file's text without the notices is the kept buffers of all rounds |
| LoggerTheorems.FileAndHeldText | src/AsyncLogger.cc:101-118 | at every stage the file and the buffers held for writing have the text of the rounds without what has been thrown away |
| LoggerTheorems.FileAndBuffersSpellTheSurvivors | src/AsyncLogger.cc:29-118 | in every interleaving and at every stage, bytes written, then buffers held for writing, then `buffers_`, then the current buffer spell the accepted lines in order, but for the buffers from index 2 on of a trimmed round of more than 25 |
| LoggerTheorems.FileAndBuffersSpellTheLines | src/AsyncLogger.cc:29-118 | while no round exceeded 25 buffers they spell exactly the accepted lines, at every stage |
| LoggerTheorems.StepHeld | src/AsyncLogger.cc:29-142 | one step adds exactly its accepted line, or nothing, to what is held |
| LoggerTheorems.TurnFacts | src/AsyncLogger.cc:74-144 | five steps of the back end lead from the loop's head back to it; what the front end's buffers held is the last round, and in the file as far as rounds go there |
| LoggerRounds.RoundsArePacked | src/AsyncLogger.cc:29-98 | in every interleaving, every round swapped out and the one being collected are the lines appended in its time, split into stretches, one to a buffer; a stretch ends only where the next line has no room, and a line is left out only if it is as long as a buffer |
| LoggerRounds.OneBufferIff | src/AsyncLogger.cc:34-37 | a round is one buffer if and only if nothing was appended in its time, or less text than fills a buffer |
| LoggerRounds.LossNeedsText | src/AsyncLogger.cc:34-110 | if no line is as long as a buffer, a round of more than 25 buffers took at least twelve and a half buffers of text |
| LoggerRounds.NothingDropped | src/AsyncLogger.cc:29-118 | so with less than that between swaps, at every stage file and buffers spell every line appended |
| LoggerRounds.StopsIff | src/AsyncLogger.cc:74-144 | the back end runs on until the logger is stopped, and has ended five of its steps later |
| AsyncLoggers.AsyncLogger.constructor | src/AsyncLogger.cc:10-72 | four distinct empty buffers with storage of their own |
| AsyncLoggers.AsyncLogger.Append | src/AsyncLogger.cc:29-57 | the front end's critical section on real buffers, none of which is ever in two slots; a run of it packs the lines as `RoundsArePacked` says |
| AsyncLoggers.AsyncLogger.SwapBuffers | src/AsyncLogger.cc:82-98 | the back end's critical section |
| AsyncLoggers.AsyncLogger.TrimRound | src/AsyncLogger.cc:105-112 | the notice and the erase from index 2 on |
| AsyncLoggers.AsyncLogger.WriteRound | src/AsyncLogger.cc:115-122 | every buffer's characters go to the file, in order, and at most two buffers are kept |
| AsyncLoggers.AsyncLogger.Refill | src/AsyncLogger.cc:126-142 | the spare slots are filled from the back and reset |
| AsyncLoggers.AsyncLogger.ThreadTurn | src/AsyncLogger.cc:74-144 | the loop body of the thread, uninterrupted: everything held stays held, the front end's buffers are empty, and the spares are back |
| OutputTheorems.RunFaithful | src/TcpConnection.cc:188-286 | after every run, whatever the kernel answered, bytes on the socket followed by the queued remainders are the enqueued payloads in order, and `totalPendingBytes_` is the sum of the remainders, until a hard error |
| OutputTheorems.DrainFaithful | src/TcpConnection.cc:228-277 | one run of the writing loop keeps that |
| OutputTheorems.RunWatched | src/TcpConnection.cc:188-286 | write events are never watched with an empty queue, and output left behind by a full socket is watched for |
| OutputTheorems.OutputNeverStallsIff | src/TcpConnection.cc:228-286 | over every run: the write event is enabled exactly when the queue is non-empty, after each operation while connected, if and only if no empty payload was refused with nothing queued before it |
| OutputTheorems.ApplySyncedIff | src/TcpConnection.cc:188-286 | one operation keeps the write event in step with the queue if and only if it is not such a send |
| OutputTheorems.SendNeverStallsIff | src/TcpConnection.cc:232-273 | a send on any connected connection in step keeps it in step for all answers of the kernel if and only if its payload is non-empty or something is queued already |
| OutputTheorems.ShutOnlyWhenAllWritten | src/TcpConnection.cc:152-170 | for calls on the loop's thread the write side is shut only after every enqueued byte was written, if no empty payload was refused on its own |
| OutputTheorems.RefusalShutsEarly | src/TcpConnection.cc:152-170 | otherwise a shutdown can close the write side with a whole payload unwritten |
| OutputTheorems.EstablishedIsGood | src/TcpConnection.cc:116-126 | a connection just established meets what the theorems about runs assume |
| OutputTheorems.HalfCloseIffIdle | src/TcpConnection.cc:141-170 | a shutdown leads to a half-close, then or ever, if and only if write events were not enabled when it ran |
| OutputLaws.DrainWrites | src/TcpConnection.cc:228-277 | a run of the writing loop puts on the wire as many bytes of the queue as the kernel's answers add up to; the rest stays queued, nothing if all were acceptances; a refusal turns the write event on if the payload in front has bytes left, a failure drops that payload and closes |
| OutputLaws.HandleWriteWrites | src/TcpConnection.cc:279-286 | a write event does that if write events are enabled and something is queued, and else nothing |
| OutputLaws.SendWrites | src/TcpConnection.cc:172-226 | a send queues its payload and does that, depending on the phase as each of the four ways to send does, and else nothing |
| OutputLaws.EverythingSentIsThere | src/TcpConnection.cc:91-286 | as long as nobody shuts down or closes and no write fails, what the socket has taken and what is queued are together all payloads of all sends, in order |
| OutputLaws.DownIsQuiet | src/TcpConnection.cc:71-82 | a connection that is down asks for no event and nothing about it changes, unless a file handed over from another thread arrives late |
| OutputLaws.CloseIsTheEnd | src/TcpConnection.cc:71-82 | so a close takes the connection down, turns both events off, and leaves the output as it was, whatever is called afterwards |
| OutputLaws.LateFileWakesIt | src/TcpConnection.cc:188-196 | such a file is written all the same, and refused it turns the write event on again |
| TcpConnections.Context.WriteToSocket | include/TcpConnection.h:141-150 | the socket gets a prefix of the remainder and the position moves by as much; the file context does the same with its offset |
| TcpConnections.Context.FromFile | include/TcpConnection.h:174-184 | what a file context has to send is the given stretch of the file |
| TcpConnections.Context.IsComplete | include/TcpConnection.h:191-194 | true exactly when nothing remains |
| TcpConnections.Context.Remaining | include/TcpConnection.h:195-198 | the length of what remains |
| TcpConnections.TcpConnection.DoWriting | src/TcpConnection.cc:228-277 | the loop terminates, on bytes and queue length, and drains the queue as far as the kernel lets it |
| TcpConnections.TcpConnection.SendInLoop | src/TcpConnection.cc:215-226 | drops the payload when disconnected, else enqueues and writes |
| TcpConnections.TcpConnection.SendFileInLoop | src/TcpConnection.cc:188-196 | enqueues and writes whatever the state |
| TcpConnections.TcpConnection.SendData | src/TcpConnection.cc:198-213 | sends only while connected |
| TcpConnections.TcpConnection.HandleWrite | src/TcpConnection.cc:279-286 | resumes writing when write events are enabled and something is queued, with the outcome `HandleWriteWrites` states |
| TcpConnections.TcpConnection.Shutdown | src/TcpConnection.cc:152-170 | leaves the connected state and half-closes if write events are not enabled |
| TcpConnections.TcpConnection.HandleClose | src/TcpConnection.cc:71-82 | disconnects and disables all events |
| LoopTheorems.NoWakeupIsEverLost | src/EventLoop.cc:65-87 | in every interleaving from a fresh loop, a loop about to block with functors pending has a positive eventfd counter or a producer that has yet to write; what ran, the current batch and what is pending are exactly the functors that callers queued, in that order |
| LoopTheorems.RunKeeps | src/EventLoop.cc:65-184 | from any state with the invariant every run keeps this, what ran, the current batch and what is pending being what was pushed |
| LoopTheorems.StepsAreSeen | src/EventLoop.cc:65-184 | what a run has pushed is what its Push, HandlerPushes and FunctorPushes steps queue, what has run is counted by its RunNext steps, the eventfd counts the writes since its last read, and quit is set if and only if somebody asked |
| LoopTheorems.EndsIffAsked | src/EventLoop.cc:148-184 | the loop ends at its test if and only if it was asked to, on whichever thread |
| LoopTheorems.EarlyFunctorsIff | src/EventLoop.cc:75-87 | a loop started with functors its own thread queued before has no lost wakeup if and only if there were none or the eventfd was already written |
| LoopTheorems.TurnRunsAllPending | src/EventLoop.cc:126-174 | a turn that nobody interrupts runs all pending functors and leaves the eventfd at zero |
| LoopTheorems.QueuedHereKeeps | src/EventLoop.cc:75-87 | queueing on the loop's own thread is one or two steps of the protocol and keeps the invariant |
| EventLoops.EventLoop.QueueInLoop | src/EventLoop.cc:75-87 | on the loop's thread the eventfd is written only while functors are being called |
| EventLoops.EventLoop.DoPendingFunctors | src/EventLoop.cc:126-146 | runs exactly the functors that were pending, in order; what they queue stays pending, and then a wakeup is on its way |
| EventLoops.EventLoop.HandleRead | src/EventLoop.cc:65-73 | reading the eventfd clears its counter |
| Timers.DeadlinesExactIff | Timer/Timer.cc:12-23 | within the exact integers, a repeating timer's deadline after k runs is its start plus k times n microseconds under every rounding if and only if the interval is n microseconds |
| Timers.WholeStepsAddUp | Timer/Timer.cc:12-23 | under any rounding, an interval that comes out as n microseconds gives the start plus k times n after k runs |
| Timers.PresentDeadlines | Timer/Timer.cc:12-23 | with round-to-nearest at present times each run adds the rounded-down interval, and one microsecond more if its fraction is seven eighths or more |
| Timers.PresentExactIff | Timer/Timer.cc:12-23 | there, the deadlines after k runs are the start plus k times n if and only if n is that step |
| Timers.SomeRoundToNearest | src/TimeStamp.cc:59-62 | what is assumed of rounding and of round-to-nearest at present times can be met |
| Timers.PresentLater | src/TimeStamp.cc:59-62 | what adding seconds to a time stamp comes to with round-to-nearest at present times |
| Timers.Timer.Restart | Timer/Timer.cc:12-23 | a repeating timer moves by its interval in the machine's rounded arithmetic, any other to now |
| TimerSets.DueSplits | Timer/TimerQueue.cc:134-145 | the bound made of now and the largest pointer splits the ordered set into the entries at or before now, ties included, and those after it |
| TimerSets.EmplaceAdds | Timer/TimerQueue.cc:95-107 | a timer at an address of its own is added, in order, and the first entry is the earlier of it and the old first |
| TimerQueues.ToTimespec | Timer/TimerQueue.cc:109-132 | seconds and nanoseconds are in range, never both zero, and add up to the delay |
| TimerQueues.TimerQueue.Insert | Timer/TimerQueue.cc:95-107 | the set gains exactly this entry, and the result says whether it is strictly earlier than all others |
| TimerQueues.TimerQueue.ResetTimerFd | Timer/TimerQueue.cc:109-132 | arms for the later of the expiration and 100 microseconds from now |
| TimerQueues.TimerQueue.AddTimerInLoop | Timer/TimerQueue.cc:85-93 | the timerfd stays armed for the earliest timer, and is set again only for a new earliest one |
| TimerQueues.TimerQueue.AddTimer | Timer/TimerQueue.cc:79-93 | a new timer joins the set and every timer is still in exactly one place, also in the middle of a pass |
| TimerQueues.TimerQueue.GetExpired | Timer/TimerQueue.cc:134-145 | takes exactly the entries at or before now, in order |
| TimerQueues.TimerQueue.RunExpired | Timer/TimerQueue.cc:68-75 | runs each of them once, in order, while callbacks add timers |
| TimerQueues.TimerQueue.ResetOne | Timer/TimerQueue.cc:151-167 | a repeating timer goes back with its next deadline, any other is freed, once; and the timerfd is armed for the earliest |
| TimerQueues.TimerQueue.HandleRead | Timer/TimerQueue.cc:61-77 | a whole pass: who runs, who is freed, which timers the callbacks added; keys equal expirations and deadlines count runs; and the timerfd is armed for the earliest timer if and only if none is left or the earliest was due |
| Pollers.Channel.EnableReading | include/Channel.h:34 | EPOLLIN and EPOLLPRI are on, write events as they were, and poller and kernel follow |
| Pollers.Channel.EnableWriting | include/Channel.h:36 | EPOLLOUT is on, read events as they were, and poller and kernel follow |
| Pollers.Channel.DisableReading | include/Channel.h:35 | EPOLLIN and EPOLLPRI are off, write events as they were, and poller and kernel follow |
| Pollers.Channel.DisableWriting | include/Channel.h:37 | EPOLLOUT is off, read events as they were, and poller and kernel follow |
| Pollers.Channel.DisableAll | include/Channel.h:38 | no event is asked for, and poller and kernel follow |
| Pollers.MaskBits | include/Channel.h:34-43 | enabling or disabling one direction touches no bit of the other |
| Pollers.EpollBits | src/Channel.cc:8-10 | reading stands for EPOLLIN and EPOLLPRI, writing for EPOLLOUT |
| Pollers.EpollPoller.KernelWatches | src/EpollPoller.cc:77-145 | a live channel is in the kernel's interest set if and only if, since it was made or last removed, it asked for something and then for nothing an even number of times, or for nothing from the start and an odd number of times; and then with the mask it asked for last |
| Pollers.WatchedIff | src/EpollPoller.cc:77-117 | a run of updates leaves the index at kAdded exactly in that case |
| Pollers.EpollPoller.Update | src/EpollPoller.cc:162-188 | the interest set changes as asked; an add needs the descriptor absent, a change or removal needs it present |
| Pollers.EpollPoller.UpdateChannel | src/EpollPoller.cc:77-117 | every epoll_ctl is legal, the assertions hold, and the map and the interest set mirror all channels again |
| Pollers.EpollPoller.RemoveChannel | src/EpollPoller.cc:125-145 | the channel leaves the map and the kernel, which mirror the rest |
| Pollers.EpollPoller.FillActiveChannels | src/EpollPoller.cc:148-159 | every reported event reaches a live, registered channel, with its mask, and no other channel's |
| ByteBuffers.FirstCRLFIsFirst | include/Buffer.h:98-102 | the search gives the least position of a CRLF, and the end exactly when there is none |
| ByteBuffers.Buffer.FindCRLF | include/Buffer.h:98-102 | that position in the array, never null |
| ByteBuffers.Buffer.MakeSpace | include/Buffer.h:110-126 | whichever way room is made, the contents are the same and the room is there |
| ByteBuffers.Buffer.MoveDown | include/Buffer.h:119-124 | copying the readable bytes down over themselves preserves them |
| ByteBuffers.Buffer.Append | include/Buffer.h:88-93 | the contents gain exactly the data at their end |
| ByteBuffers.Buffer.Retrieve | include/Buffer.h:39-50 | the contents lose exactly that prefix |
| ByteBuffers.Buffer.RetrieveAsString | include/Buffer.h:59-65 | the prefix is returned and gone |
| ByteBuffers.Buffer.ReadFd | src/Buffer.cc:12-43 | a read split between the writable area and the spill buffer appends exactly what arrived |
| RequestLines.AcceptsIff | Http/HttpContext.cc:89-232 | the scanner accepts exactly the texts that begin with a method, spaces, a path with an optional query, spaces, a version and CRLF, within the limit, and stores exactly those parts |
| RequestLines.ReadingUnique | Http/HttpContext.cc:89-232 | no text has two such readings |
| RequestLines.ScanText | Http/HttpContext.cc:124-227 | every written request line is scanned to its end and into its parts |
| RequestLines.ScanSound | Http/HttpContext.cc:124-227 | what the scanner has read is the text of what it has found |
| HttpTheorems.CompletesIff | Http/HttpContext.cc:9-87 | a request is completed with these parts and this rest if and only if the bytes are a well-formed message with these parts followed by this rest |
| HttpTheorems.ParseInvertsPrint | Http/HttpContext.cc:9-87 | a written message followed by any bytes parses into its method, path, query, version, headers and body, and leaves those bytes |
| HttpTheorems.HeadIncompleteIff | Http/HttpContext.cc:16-69 | the log line aside, the call reads or retrieves past the readable bytes if and only if they have no line break and are not refused within themselves, or begin with a good request line and header lines and then stop short |
| HttpTheorems.ReadsPastIff | Http/HttpContext.cc:9-103 | the call as a whole, its log line included, does so if and only if there is no line break and the line is logged or not refused within itself, or the head stops short |
| HttpTheorems.CallerMustCheck | Http/HttpContext.cc:9-103 | with the default log level the call stays within the readable bytes if and only if a line break is there and the head does not stop short |
| HttpTheorems.BadLineIff | Http/HttpContext.cc:19-35 | the call refuses the request line if and only if the bytes do not begin with a good one within the limit or, without a line break, are refused within themselves |
| HttpTheorems.ThrowsIff | Http/HttpContext.cc:42-56 | the call throws if and only if it comes to the end of the head, or to what it takes for it, with a content length that does not convert; those bytes are still in the buffer |
| HttpTheorems.GetsThroughHeadIff | Http/HttpContext.cc:36-69 | the parser gets through the head if and only if the bytes begin with a well-formed one whose content length converts |
| HttpTheorems.CutHead | Http/HttpContext.cc:16-69 | on every proper beginning of a head the parser runs off the readable bytes, or, only if some content length does not convert, may throw first |
| HttpTheorems.CutBody | Http/HttpContext.cc:70-85 | a body that stops early leaves the parser waiting, with the head's fields in place |
| HttpTheorems.HeadersAreFields | include/HttpRequest.h:115-127 | with names of their own, the header lines are exactly the headers |
| HttpTheorems.LastFieldCounts | include/HttpRequest.h:115-127 | of several header lines with one name the last one counts |
| HttpTheorems.TrimPadded | include/HttpRequest.h:119-125 | white space around a value is taken off and nothing else |
| HttpTheorems.TrimParts | include/HttpRequest.h:119-125 | what trimming gives is trimmed, and only white space is missing |
| HttpTheorems.DecimalIsNumeral | Http/HttpContext.cc:54 | the digits of a content length are read in base ten: the number whose printed digits they are |
| HttpTheorems.StoiIff | Http/HttpContext.cc:54 | the conversion gives a number if and only if the text begins, after white space, with that number in decimal, signed or not, and an int holds it |
| HttpTheorems.StoiOfDigits | Http/HttpContext.cc:54 | a number as the integer printer writes it reads as itself up to the largest int, and beyond that the conversion throws |
| HttpTheorems.SentMessagesAreGood | Http/HttpContext.cc:52-60 | one Content-Length with the body's length as the integer printer writes it, or none and no body, makes a message well formed |
| HttpTheorems.SentIsParsed | Http/HttpContext.cc:9-87 | such a message, followed by any bytes, parses to its method, path, query, version, headers and body, and leaves those bytes |
| HttpTheorems.NegativeLengthWaits | Http/HttpContext.cc:54-77 | a negative content length waits for a body of at least 2^64 - 2^31 bytes |
| HttpTheorems.WrittenLine | include/HttpRequest.h:35-64 | the words of the five methods and the two versions in a request line |
| HttpContexts.ScanEnds | Http/HttpContext.cc:113-117 | once the scanner has accepted or refused within the limit, the rest does not matter |
| HttpContexts.HttpRequest.SetMethod | include/HttpRequest.h:35-64 | one of the five known names, or invalid |
| HttpContexts.HttpRequest.IsValidMethod | include/HttpRequest.h:65-73 | agrees with the stored method being known |
| HttpContexts.HttpRequest.AddHeaders | include/HttpRequest.h:115-127 | the name before the colon is mapped to the trimmed value after it |
| HttpContexts.HttpContext.ReadChar | Http/HttpContext.cc:124-228 | the switch on one character takes the scanner's step, and the request and the token follow it |
| HttpContexts.HttpContext.ParseRequestLine | Http/HttpContext.cc:89-232 | the line is logged if the level is on; the loop over the characters accepts what the scanner accepts and stores the parts it finds, never reading behind the readable ones |
| HttpContexts.HttpContext.TakeHeader | Http/HttpContext.cc:36-69 | one header line and its double retrieve, the end of the head, or the throw |
| HttpContexts.HttpContext.ParseRequest | Http/HttpContext.cc:9-87 | the state, the request and the bytes left, for each way a call can end, the throw included |
| IntPrinters.DigitsReadBack | Log/logstream.cc:21-57 | the digits read back as the number, in both bases |
| IntPrinters.TextReadsBack | Log/logstream.cc:21-41 | what is printed reads back as the value, the most negative included, and starts with a zero only for zero |
| IntPrinters.DigitsLength | Log/logstream.cc:21-57 | a numeral has at most n digits exactly when the number is below the n-th power of the base |
| IntPrinters.TextLength | Log/logstream.cc:21-41 | every signed or unsigned 64-bit value takes at most 20 characters, and two of them take 20 |
| IntPrinters.HexLength | Log/logstream.cc:43-57 | every pointer takes at most 16 hexadecimal digits |
| IntPrinters.DecimalDigit | Log/logstream.cc:15-31 | the signed remainder indexes the digit table in range and at the right digit |
| IntPrinters.Reverse | Log/logstream.cc:39 | the in-place reversal of a stretch of the buffer |
| IntPrinters.Convert | Log/logstream.cc:21-41 | the numeral, its terminator and no other byte are written |
| IntPrinters.ConvertHex | Log/logstream.cc:43-57 | the same in hexadecimal |
| IntPrinters.LogStream.FormatInteger | Log/logstream.cc:66-74 | with 48 bytes left the value is printed whole and the cursor stays in the buffer; with fewer nothing is printed |
| IntPrinters.LogStream.FormatPointer | Log/logstream.cc:76-88 | the same for a pointer, with its prefix |

## Left out

- System calls, sockets, the acceptor and addresses: the kernel appears as answers chosen arbitrarily within what each call may do.
- LfuCaches.LfuCache.Put: does not model the mutex, memory reclamation (lists are never deleted in the source), a 32-bit overflow of the running total (`TotalWithinRunLength` bounds it by the number of operations), or the conversion of a negative total to an unsigned number, which only a maximum average out of range could lead to.
- LfuCaches.LfuCache.Get: the overload that returns a default value for a missing key is not a member of its own.
- ShardedLfus.HashLfuCache.constructor: requires some slice; with none the source divides by zero.
- ShardedLfus.HashLfuCache.Put: is about caches with a maximum average in range, because outside it a slice can break; the slice size is exact integer division rounded up, where the source rounds a double.
- FixedBuffers.FixedBuffer.Add: the source's `add` is unchecked; the model requires the cursor to stay in the buffer, which every caller is proved to ensure.
- AsyncLoggers.AsyncLogger.Append: a line that does not fit an empty buffer is dropped, as in the source; waiting on the condition variable, flushing, and the file's own rolling are not modelled, and the notice is its count rather than its text.
- LoggerTheorems.TurnFacts: is about a turn in which no other thread interferes; all interleavings are covered step by step.
- AsyncLoggers.AsyncLogger.ThreadTurn: is about such a turn too.
- LoggerTheorems.EveryLineIsHeld: claims nothing about the file for lines appended after the last swap before `stop`, which the source never writes.
- TcpConnections.TcpConnection.SendData: is the call on the loop's thread; from another thread the connected state is tested first and SendInLoop runs later, as `QueuedSend` does in OutputModel.
- TcpConnections.TcpConnection.Shutdown: is the call on the loop's thread; the state change and the half-close are one step.
- TcpConnections.TcpConnection.HandleClose: does not model the callbacks, the high-water mark or the object's lifetime; the write-complete callback is bound at src/TcpConnection.cc:244 without being invoked.
- TcpConnections.Context.FromFile: a file shorter than the stretch to send, which the source would keep asking for, is not modelled.
- TcpConnections.TcpConnection.SendFileInLoop: a file is assumed to hold the stretch it was opened for.
- connectDestroyed on a connection still in kDisconnecting, which skips disableAll: not modelled.
- EventLoops.EventLoop.DoPendingFunctors: is the loop for a stretch in which no other thread interferes; all interleavings are covered step by step in LoopModel.
- LoopTheorems.NoWakeupIsEverLost: its runs begin once `loop` has cleared the quit flag; a quit requested before that is overwritten (src/EventLoop.cc:151).
- Event handlers of channels other than the wakeup one appear in the event loop only through the functors they queue.
- Timers.PresentDeadlines: is about times between 2^50 and 2^51 microseconds; other ranges have other grids. The rounded product of interval and 10^6 is taken as it comes.
- TimerQueues.TimerQueue.HandleRead: models the call made because the timerfd fired; its clock and the one that time stamps come from are taken to be one, and callbacks act on the queue by adding timers, which is all the interface allows.
- TimerQueues.TimerQueue.AddTimer: is the call on the loop's thread; from another thread it is a functor of the event loop.
- Pollers.EpollPoller.Update: requires what makes the kernel accept the call, and every caller is proved to meet it; failures, which the source logs or dies on, are not modelled.
- Pollers.EpollPoller.UpdateChannel: does not model a descriptor closed while registered, or failures of epoll_ctl.
- The dispatch of a channel's events to its callbacks, tying to an owner, and the growing event array: easy members.
- ByteBuffers.Buffer.ReadFd: models reads that succeed; the source's error branch compares an unsigned number with zero and cannot be taken.
- HttpContexts.HttpContext.TakeHeader: is not called on header bytes that stop short, which the source retrieves past.
- HttpContexts.HttpContext.ParseRequest: starts from a fresh context, because `swap` leaves the body behind, and from bytes the call does not read past, which `ReadsPastIff` characterises; a second call for the rest of a body would find the content length forgotten. The other log lines, which read nothing of the buffer, are not modelled.
- The stream's output of bool, char, string and floating-point values, MySQL pool, object pool, router, responses, static files, thread pool and example programs: library wrappers or easy properties.
