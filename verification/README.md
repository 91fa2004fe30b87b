# TurboMultimediaServer: reactor core and RTMP handshake

A Dafny model of the single-threaded reactor of TurboMultimediaServer and of the RTMP handshake that
runs on it, with proofs about whole runs. `dafny verify dfyconfig.toml` checks everything.

## How it is built

| file | what it models |
|---|---|
| `Bytes.dfy` | bytes, two's complement, `htobe` on a little-endian host |
| `MsgBuffer.dfy` | the reader/writer buffer: the array, its indices, runs of calls |
| `TypedBuffer.dfy` | typed values through the buffer: a queue, over runs of writes, reads, growth and compaction |
| `TimingWheel.dfy` | the four rotating wheels and an absolute schedule that they implement |
| `TimingWheelRuns.dfy` | when a timer fires, over whole runs; periodic timers; real time |
| `TimerObject.dfy` | the `TimingWheel` object, with a ghost trace tying it to those runs |
| `IdleTimeout.dfy` | the idle timer of a connection, with any number of limits set on it, as values and as an object |
| `SendQueue.dfy` | the outgoing list of a connection, partial writes, write interest, callbacks that send again |
| `WouldBlock.dfy` | the same path with kernel replies of -1 as the code takes them |
| `Digest.dfy` | the handshake packets and their digests |
| `Handshake.dfy` | the handshake state machine on a connection, and runs of the server's side |
| `ClientHandshake.dfy` | runs of the client's side |
| `RtmpServer.dfy` | the `TcpConnection` and `RtmpHandShake` objects |
| `ServerLife.dfy` | a server connection as a whole: handshake, sending and idle timer together, as values and as an object |
| `EventLoop.dfy` | posted functions, the wakeup pipe, several threads |
| `TcpServer.dfy` | the server's connections and listener against the loop's descriptor map and the kernel's |

Code that changes fields is a class; each of its methods is proved to do to the fields what a function
on values does, and the theorems about runs are about those functions. The kernel is a list of replies
(how many bytes each write takes), HMAC-SHA256 (RFC 2104, section 2) is any function with a 32-byte
result, and random fills, clock readings and the bytes that arrive are parameters; every theorem is for
all of them. The handshake is section 5.2 of Adobe's RTMP specification 1.0 with the digest variant that
the source describes; the glue between connection and handshake is that of
`src/mmedia/tests/RtmpServer.cpp`.

## Where the code does not do what it seems to promise

The code is modelled as it is. Each of these is proved, with its exact condition.

- A timer fires on time exactly when its delay is under 60 seconds; every longer delay fires early (a
  delay of 60 seconds may fire on the next tick), because the minute wheel turns on 59 ticks of 60, the
  hour wheel on 59 minutes of 60 and the day wheel on 23 hours of 24. No timer is late
  (`Deadline`, `OneMinuteFiresNextTick`). A delay of 31 days or more, or none, fires at once
  (`FiresExactlyOnce`), so a `runEvery` with such an interval never comes to an end
  (`RefusedIntervalHasNoEnd`).
- A second `enableCheckIdleTime` does not replace the first: the first entry is never extended again, and
  at its firing tick at the latest the connection is closed, however active it is. The timer closes
  exactly the current limit after the last activity if and only if that limit is under 60 and no earlier
  entry fires before (`IdleCloseIsExact`, `SecondLimitDoesNotExtend`). The server sets 30 before it runs
  the new-connection callback (`src/network/TcpServer.cpp:80`), so a callback that asks for 45 gets a
  connection that is closed 30 ticks after it was accepted (`LongerLimitFromCallback`).
- `sendLen` is a `size_t`. A reply of -1 makes `sendInLoop` queue one byte too many from one byte too
  early, and makes `onWrite` drop the queue (`RestIsSizeT`, `MinusOneDropsTheList`). Over runs
  the stream is conserved at every point if and only if no write of a buffer, and no write of a list with
  bytes in it, was answered with -1, and without empty buffers it never recovers
  (`WholeIffNeverMinusOne`, `DamageIsForGood`, over the record that `RecordIsExact` describes). The other theorems are for replies of 0 or more.
- A server is done if and only if some message callback ran in WaitC2 when all 3073 bytes had been
  received; having received them is not enough. So two runs on the same bytes may end apart, one waiting
  and one done, even with the same kernel (`DoneOverRun`, `RunsAgree`, `ChunkingDecidesState`); a server
  whose client's C2 came early waits until another message arrives (`DoneOnNextMessage`, `EarlyC2Waits`,
  `EarlyC2IsReachable`).
- A client answers S0S1 with C2 alone if and only if no message callback saw S0S1 before all of S2 was
  there; otherwise it sends C0C1 a second time, and then C2 (`ClientAnswersOnce`,
  `S0S1AloneIsAnsweredTwice`). One that does as it should never retrieves S2 (`ClientStands`).
- The comment at `src/mmedia/rtmp/RtmpHandshake.cpp:105-107` makes the key of the S2 digest from the
  digest of C1, and that of C2 from S1's; the code makes it from the sender's own. The packet carries the
  digest that the comment describes if and only if the two digests are equal, for a MAC that does not
  collide on what is compared (`EchoKeyIsOwn`), and they can differ (`EchoKeysDiffer`).
- Starting a server that already listens closes a registered descriptor and leaves the books of the loop
  wrong; in every other state starting keeps them (`StartKeepsBooks`).
- `EventLoop::runEvery` starts a one-shot timer exactly when it is called on the loop's own thread
  (`LoopRunEvery`).

Where a comment and the code differ without a consequence to prove, the model follows the code: the
comment above `readInt64` (`src/network/base/MsgBuffer.h:249`) asks for 4 readable bytes, the assertion
for 8.

## Model

| member | source | states |
|---|---|---|
| Bytes.StoredImageIsBigEndian | src/network/base/MsgBuffer.h:220-244 | Byte k of a stored n-byte integer is its digit of weight 256^(n-1-k): swapping and copying stores network order |
| Bytes.LoadAfterStore | src/network/base/MsgBuffer.h:286-312 | Loading and swapping gives back any value that was swapped and stored |
| Bytes.DecodeEncode | src/network/base/MsgBuffer.h:220-319 | Every signed value of every width that fits is read back from the front of the buffer, whatever follows it |
| Bytes.IntWidths | src/network/base/MsgBuffer.h:220-244 | 8, 16, 32 and 64 bits: exactly which values each append takes, and that it writes 1, 2, 4 or 8 bytes |
| MsgBuffers.Geometry.MakeSpace | src/network/base/MsgBuffer.h:386-405 | Growing or compacting keeps the readable length and makes the requested room |
| MsgBuffers.Geometry.EnsureWritable | src/network/base/MsgBuffer.h:190-197 | Keeps the readable length; the room asked for is there afterwards |
| MsgBuffers.Geometry.ReadFd | src/network/base/MsgBuffer.cpp:23-55 | A scatter read of n bytes adds n readable bytes, through the free space or the overflow append |
| MsgBuffers.Geometry.ReadCapacity | src/network/base/MsgBuffer.cpp:26-36 | One read takes at least 64 KiB and all the free space, and at most 128 KiB less one byte unless the free space is larger |
| MsgBuffers.MsgBuffer.constructor | src/network/base/MsgBuffer.h:44-52 | A new buffer reads as empty, with the requested writable space behind 8 prependable bytes |
| MsgBuffers.MsgBuffer.Swap | src/network/base/MsgBuffer.h:57-62 | The two buffers exchange contents and indices |
| MsgBuffers.MsgBuffer.Peek | src/network/base/MsgBuffer.h:73-74 | The bytes at the read position are the first readable ones |
| MsgBuffers.MsgBuffer.RetrieveAll | src/network/base/MsgBuffer.h:149-153 | Nothing is readable afterwards and the indices are back at 8 |
| MsgBuffers.MsgBuffer.Retrieve | src/network/base/MsgBuffer.h:109-120 | Exactly the first len bytes are gone; the indices reset when nothing is left |
| MsgBuffers.MsgBuffer.RetrieveAsString | src/network/base/MsgBuffer.h:160-166 | The result followed by what stays readable is what was readable |
| MsgBuffers.MsgBuffer.MakeSpace | src/network/base/MsgBuffer.h:386-405 | The overlapping forward copy and the growth branch keep every readable byte; the assertion that the reader index exceeds 8 holds whenever the copy is made |
| MsgBuffers.MsgBuffer.EnsureWritableBytes | src/network/base/MsgBuffer.h:190-197 | Room for len bytes, readable bytes unchanged |
| MsgBuffers.MsgBuffer.Append | src/network/base/MsgBuffer.h:178-183 | The data follows what was readable |
| MsgBuffers.MsgBuffer.WriteInPlace | src/network/base/MsgBuffer.h:205-209 | Bytes copied to the write position become readable at the end, in the same storage |
| MsgBuffers.MsgBuffer.Prepend | src/network/base/MsgBuffer.h:350-356 | The data precedes what was readable |
| MsgBuffers.MsgBuffer.Unwrite | src/network/base/MsgBuffer.h:211-215 | Exactly the last len bytes are gone |
| MsgBuffers.MsgBuffer.Shrink | src/network/base/MsgBuffer.h:358-365 | New storage, same readable bytes |
| MsgBuffers.MsgBuffer.ReadFd | src/network/base/MsgBuffer.cpp:23-55 | On success the first n offered bytes are appended, n being what the free space and the 64 KiB overflow hold; on error nothing changes and the result is -1 |
| MsgBuffers.MsgBuffer.AppendInt | src/network/base/MsgBuffer.h:220-244 | The big-endian image of the value is appended |
| MsgBuffers.MsgBuffer.PrependInt | src/network/base/MsgBuffer.h:324-348 | The big-endian image of the value is put in front |
| MsgBuffers.MsgBuffer.PeekInt | src/network/base/MsgBuffer.h:286-319 | The result is the signed value that the first readable bytes spell |
| MsgBuffers.MsgBuffer.ReadInt | src/network/base/MsgBuffer.h:250-280 | Returns that value and consumes exactly its bytes |
| MsgBuffers.MsgBuffer.Perform | src/network/base/MsgBuffer.h:109-405 | Any sequence of append, prepend, retrieve, unwrite, ensure, shrink and readFd that keeps the source's assertions reads, byte for byte, as a plain byte sequence |
| MsgBuffers.SpaceBound | src/network/base/MsgBuffer.h:386-405 | Over any run without shrink, storage never shrinks and never exceeds the larger of its first size and twice the peak demand plus 7 |
| MsgBuffers.SpaceBoundIsTight | src/network/base/MsgBuffer.h:386-405 | A family of runs reaches that bound to within one byte |
| TypedBuffers.TypedRoundTrip | src/network/base/MsgBuffer.h:220-319 | Any list of mixed-width signed values reads back as it was, leaving the bytes after it |
| TypedBuffers.TypedRunIsQueue | src/network/base/MsgBuffer.h:190-405 | Any interleaving of typed appends, prepends, reads, reservations and shrinks, from any indices and contents, is a queue of values: the reads decode what the queue gives and the bytes left encode what is left, through growth, compaction and index resets |
| TypedBuffers.TypedStep | src/network/base/MsgBuffer.h:220-348 | One typed call on the bytes is one step of the queue, and a read decodes the front value |
| TypedBuffers.FirstInFirstOut | src/network/base/MsgBuffer.h:220-280 | Without prepending, the values read, followed by those left, are what was there followed by what was appended |
| TypedBuffers.PrependedLengthReadsFirst | src/network/base/MsgBuffer.h:324-348 | A prepended length is the next value read and leaves the values behind it |
| TimingWheels.InsertPlacement | src/network/net/TimingWheel.cpp:18-71 | insertEntry puts the entry in slot i of wheel k exactly when digit k of the delay is i + 1, and moves nothing else; a refused delay goes nowhere |
| TimingWheels.DigitsSpellDelay | src/network/net/TimingWheel.cpp:53-71 | The digits times their units sum to the delay, each fits its wheel, and one of them is positive |
| TimingWheels.RemainderDigits | src/network/net/TimingWheel.cpp:22-51 | The remainder that the dying wrapper inserts has the other digits and none on the wheel it came from |
| TimingWheels.TurnsStep | src/network/net/TimingWheel.cpp:82-94 | Each tick turns the second wheel and the one wheel that the tick's divisibility selects, against closed counts of turns |
| TimingWheels.TurnTickInverse | src/network/net/TimingWheel.cpp:82-94 | The closed form for the tick of the n-th turn is the exact inverse of counting turns |
| TimingWheels.LiveIffDue | src/network/net/TimingWheel.h:20-29 | An entry is referenced by some slot exactly when some future turn is due to drop it |
| TimingWheels.DueStep | src/network/net/TimingWheel.cpp:18-102 | Every action on the rotating slots is the matching action on an absolute schedule: the deque form refines the simple one |
| TimingWheelRuns.HeldInsert | src/network/net/TcpConnection.cpp:258-263 | Inserting an entry again with its delay restarts its whole term |
| TimingWheelRuns.OutstandingUntilFireTick | src/network/net/TimingWheel.cpp:73-102 | Between ticks an insertion still holds a reference exactly until its firing tick |
| TimingWheelRuns.DiesAtFireTick | src/network/net/TimingWheel.cpp:97-102 | The turn that drops the last reference happens in the firing tick |
| TimingWheelRuns.FiresExactlyOnce | src/network/net/TimingWheel.cpp:53-112 | For every delay, tick, phase and company of other timers: an accepted delay fires once, at its firing tick and not before; a refused one fires at once, once |
| TimingWheelRuns.Deadline | src/network/net/TimingWheel.cpp:53-102 | The firing tick is never after insertion tick plus delay, and is that tick if and only if the delay is under 60 |
| TimingWheelRuns.OneMinuteFiresNextTick | src/network/net/TimingWheel.cpp:88-90 | A concrete early firing: 60 seconds started after tick 1 fires at tick 2 |
| TimingWheelRuns.Periodic | src/network/net/TimingWheel.cpp:114-128 | From a running entry on, a runEvery timer under a minute fires at every multiple of its interval and at no other tick |
| TimingWheelRuns.PeriodicFromBirth | src/network/net/TimingWheel.cpp:114-128 | The same for its whole life in any run in which its destructor inserts the next entry |
| TimingWheelRuns.PeriodicOnlyUnderAMinute | src/network/net/TimingWheel.cpp:114-128 | For any interval the wheels take, the first callback of runEvery comes exactly one interval after the start if and only if the interval is under 60 |
| TimingWheelRuns.RefusedIntervalHasNoEnd | src/network/net/TimingWheel.cpp:114-128 | With an interval the wheels refuse, a chain of entries of any length fires without the wheels moving; with one they take, not even the first fires at once |
| TimingWheelRuns.TicksTakeSeconds | src/network/net/TimingWheel.cpp:73-83 | n ticks take at least 1000n ms and less than n(1000 + gap) ms, though last_ts_ restarts at each |
| TimingWheelRuns.TicksAreCounted | src/network/net/TimingWheel.cpp:73-95 | The tick counter is the number of readings that made a tick, whatever callbacks insert |
| TimingWheelRuns.NewWheelKeepsTime | src/network/net/TimingWheel.cpp:73-83 | On a new wheel time starts at the first reading: after n ticks the last reading is at least n seconds after it, and less than n seconds, n gaps and one second |
| TimingWheelRuns.NewWheelDoesNotTick | src/network/net/TimingWheel.cpp:74-80 | The first reading makes no tick |
| TimingWheelRuns.AliveUntilTicks | src/network/net/TimingWheel.cpp:73-112 | Under a clock, a timer under a minute, started between calls or by a callback in the middle of one, is alive exactly until that many readings have made a tick |
| TimingWheelRuns.RealTimeBound | src/network/net/TimingWheel.cpp:73-102 | In any phase, the reading at which a timer under a minute fires is at least 1000 ms per second of delay after last_ts_ at insertion, and less than one gap per second more |
| TimingWheelRuns.RealTimeFromFirstReading | src/network/net/TimingWheel.cpp:73-102 | The same bound for a timer started before the clock was ever read, counted from the first reading |
| TimingWheelRuns.PeriodInRealTime | src/network/net/TimingWheel.cpp:73-128 | The same bound between any two consecutive firings of a runEvery timer under a minute, counted from the reading that fired |
| Timers.TimingWheel.constructor | src/network/net/TimingWheel.cpp:6-12 | Four empty wheels of 60, 60, 24 and 30 slots, no ticks, nothing fired |
| Timers.TimingWheel.InsertSecondEntry | src/network/net/TimingWheel.cpp:18-20 | The slot of the second wheel that the specification of insertEntry names |
| Timers.TimingWheel.InsertMinuteEntry | src/network/net/TimingWheel.cpp:22-31 | The minute slot and the remainder at once, as specified |
| Timers.TimingWheel.InsertHourEntry | src/network/net/TimingWheel.cpp:33-41 | The hour slot and the remainder at once, as specified |
| Timers.TimingWheel.InsertDayEntry | src/network/net/TimingWheel.cpp:43-51 | The day slot and the remainder at once, as specified |
| Timers.TimingWheel.InsertEntry | src/network/net/TimingWheel.cpp:53-71 | The mutual recursion ends and leaves the specified wheels; a refused delay changes nothing |
| Timers.TimingWheel.PopUp | src/network/net/TimingWheel.cpp:97-102 | The wheel rotates, and the entries destroyed are exactly those that were live and are no more |
| Timers.TimingWheel.Destroy | src/network/net/TimingWheel.h:20-29 | Every dying entry's destructor runs once, in some order, and what is inserted is, one by one and in that order, what those destructors start |
| Timers.TimingWheel.RunCallback | src/network/net/TimingWheel.h:20-29 | One destructor inserts exactly the timers that its callback starts, then the next entry of a runEvery timer |
| Timers.TimingWheel.StartAll | src/network/net/TimingWheel.cpp:104-128 | Exactly the timers that a callback starts are created, in order, each with those that start at once because no slot takes it; the nesting ends |
| Timers.TimingWheel.Create | src/network/net/TimingWheel.cpp:104-128 | A new entry, inserted once, also in the middle of a tick; if no slot takes it, its destructor has run on return, and so have the timers been started that its callback starts |
| Timers.TimingWheel.OnTimer | src/network/net/TimingWheel.cpp:73-95 | A call that comes a second after the last tick is one tick with its two turns, in each of which the destructors of exactly the entries that die in it run and start their timers; any other changes only last_ts_ |
| Timers.TimingWheel.RunAfter | src/network/net/TimingWheel.cpp:104-112 | A new one-shot entry, inserted once; the object's invariant is kept even when it dies at once |
| Timers.TimingWheel.RunEvery | src/network/net/TimingWheel.cpp:114-128 | A new periodic entry, inserted once |
| Timers.TimingWheel.InsertAgain | src/network/net/TcpConnection.cpp:258-263 | Another reference to a live entry |
| Timers.TimingWheel.OneShotRecord | src/network/net/TimingWheel.cpp:53-112 | What the object recorded for a one-shot timer is its firing tick once that has come, and nothing before |
| Timers.TimingWheel.PeriodicRecord | src/network/net/TimingWheel.cpp:114-128 | What the object recorded for a periodic timer under a minute is every multiple of the interval up to now |
| Timers.LoopRunEvery | src/network/net/EventLoop.cpp:282-300 | On the loop's thread the timer started is a one-shot one; only from another thread is it periodic |
| IdleTimeout.GuardStepInv | src/network/net/TcpConnection.cpp:246-263 | Reads, writes, limits, closing and the wheels keep: every entry's term runs from its latest insertion, the current one's from the last activity, and an open connection's entries are all live |
| IdleTimeout.IdleClose | src/network/net/TcpConnection.cpp:24-37 | Over any activity and any calls of enableCheckIdleTime the close callback runs at most once, the timer closes only at the first firing tick of all entries, and an open connection has not reached it |
| IdleTimeout.IdleCloseIsExact | src/network/net/TcpConnection.cpp:246-263 | The timer never closes later than the current limit after the last activity, and exactly then if and only if the limit is under 60 and no earlier entry fires before |
| IdleTimeout.OneLimit | src/network/net/TcpConnection.cpp:246-263 | With one limit set the timer closes at the firing tick counted from the last activity, and exactly the limit after it if and only if the limit is under 60 |
| IdleTimeout.StaleTermsStand | src/network/net/TcpConnection.cpp:246-263 | No activity and no later limit moves the term of an entry that is not the current one |
| IdleTimeout.SecondLimitDoesNotExtend | src/network/net/TcpConnection.cpp:246-251 | After a second call, whatever its limit and whatever happens, the first entry closes the connection at its own firing tick at the latest |
| IdleTimeout.LongerLimitFromCallback | src/network/TcpServer.cpp:80-85 | A limit over 30 and under 60 set by the new-connection callback: a connection that nobody else closes is closed 30 ticks after it was accepted |
| IdleTimeout.RefusedLimitClosesAtOnce | src/network/net/TcpConnection.cpp:246-251 | A limit of 0, or of 31 days or more, closes the connection inside enableCheckIdleTime, and no other does |
| IdleTimeout.TurnRun | src/network/net/TcpConnection.h:70-79 | Over any events of the wheels the connection stays open exactly while all its entries live |
| IdleTimeout.IdleConnection.OnClose | src/network/net/TcpConnection.cpp:24-37 | Closed afterwards; the callback count grows by one only if it was open |
| IdleTimeout.IdleConnection.EnableCheckIdleTime | src/network/net/TcpConnection.cpp:246-251 | At any time, first or not: a new entry is inserted and the history grows by it; an open connection closes at once exactly for a refused limit |
| IdleTimeout.IdleConnection.ExtendLife | src/network/net/TcpConnection.cpp:258-263 | The recorded history grows by one activity and the object still matches it |
| IdleTimeout.IdleConnection.OnActivity | src/network/net/TcpConnection.cpp:53-60 | Activity counts only on an open connection |
| IdleTimeout.IdleConnection.OnTimer | src/network/net/TcpConnection.h:70-79 | The history grows by exactly the events of this call of the wheels, and the death of any of its entries closes the connection |
| IdleTimeout.IdleConnection.ClosesOnTime | src/network/net/TcpConnection.cpp:246-263 | The object closes when the theorem on runs says, once |
| SendQueue.KernelWrite | src/network/net/TcpConnection.cpp:106-108 | The kernel takes a prefix of what it is offered and nothing else changes |
| SendQueue.ConsumePending | src/network/net/TcpConnection.cpp:109-127 | The inner loop drops exactly n pending bytes across node boundaries, and empties the list when n exceeds them |
| SendQueue.DrainInv | src/network/net/TcpConnection.cpp:105-136 | The drain loop ends, conserves the stream, and reports completion exactly when the list is empty; a fatal error closes |
| SendQueue.OnWriteInv | src/network/net/TcpConnection.cpp:96-144 | The same for onWrite from any state, and a closed connection is left alone |
| SendQueue.SendBufferInv | src/network/net/TcpConnection.cpp:176-212 | Sending a buffer adds it to the stream once, keeps write interest right, and completes exactly when nothing is left |
| SendQueue.SendListInv | src/network/net/TcpConnection.cpp:214-230 | Sending a list adds its buffers in order |
| SendQueue.StreamIsConserved | src/network/net/TcpConnection.cpp:96-230 | Over any interleaving of sends, writability and closing, any replies and any callback that sends again: accepted ++ pending is what was submitted, and a registered connection's write bit is set exactly while its list is not empty |
| SendQueue.GenerousKernelDrains | src/network/net/TcpConnection.cpp:105-126 | One onWrite empties a list of non-empty nodes when the kernel takes all it is offered, or would take more |
| SendQueue.DrainCloses | src/network/net/TcpConnection.cpp:104-136 | A drain closes the connection if and only if the kernel answers 0 with a fatal error to a write before all is taken |
| SendQueue.CallbackRunsWhenEmptied | src/network/net/TcpConnection.cpp:96-212 | The write-complete callback runs in a step if and only if the step leaves an open connection nothing to send, and what it sends first comes next in the stream |
| SendQueue.DirectWriteQueuesSuffix | src/network/net/TcpConnection.cpp:182-208 | The queued region is the unsent suffix if and only if the reply is not -1 |
| SendQueue.WouldBlockDropsQueue | src/network/net/TcpConnection.cpp:106-126 | For replies of 0 or more exactly the bytes taken leave the list; for -1 the whole list does |
| WouldBlock.RecordIsExact | src/network/net/TcpConnection.cpp:96-212 | Over every run the record of writes has the kernel's replies in order, each with what was offered, and what these writes took is what was accepted |
| WouldBlock.RestIsSizeT | src/network/net/TcpConnection.cpp:182-208 | The region queued behind a direct write starts and ends where the size_t arithmetic puts it, for every reply |
| WouldBlock.MinusOneDropsTheList | src/network/net/TcpConnection.cpp:106-126 | A list answered with -1 is dropped whole, as 2^64 - 1 bytes sent, with nothing taken |
| WouldBlock.WholeIffNeverMinusOne | src/network/net/TcpConnection.cpp:96-230 | With replies of -1 anywhere in a run, the stream is conserved at every point if and only if the record has no write of a buffer, and no write of a list with bytes in it, that was answered with -1 |
| WouldBlock.DamageIsForGood | src/network/net/TcpConnection.cpp:96-230 | Without empty buffers sent by themselves, the same holds of the end of the run alone: a stream that is damaged stays so |
| WouldBlock.RawIsSendQueue | src/network/net/TcpConnection.cpp:96-230 | For replies of 0 or more every step is the step of the other model, but for the record |
| Digests.GetDigestOffset | src/mmedia/rtmp/RtmpHandshake.cpp:171-179 | In both layouts the 32-byte window starts after the four locating bytes and stays inside its 764-byte block of the packet; where exactly is for the wire format |
| Digests.CheckC1S1 | src/mmedia/rtmp/RtmpHandshake.cpp:247-298 | Acceptance means full length and version 3, offset 0 exactly for a zero version word, and a positive offset is one where a digest under the peer's key verifies |
| Digests.AcceptedByWireFormat | src/mmedia/rtmp/RtmpHandshake.cpp:247-298 | A first message of version 3 with a version word is accepted if and only if it is, with 8 or 772 bytes in front, four bytes a b c d, (a+b+c+d) mod 728 bytes, a digest that is the MAC of all the rest under the peer's key, and the rest; the offset is where that digest is |
| Digests.CreatedInWireFormat | src/mmedia/rtmp/RtmpHandshake.cpp:209-245 | What createC1S1 makes has that format with 8 bytes in front, four zeros and its role's version word, signed with its own key; everything else is fill |
| Digests.DigestIsStable | src/mmedia/rtmp/RtmpHandshake.cpp:225-243 | Writing a digest where either layout puts it changes neither the offset nor anything the digest is computed from |
| Digests.DigestRoundTrip | src/mmedia/rtmp/RtmpHandshake.cpp:209-298 | For every fill, what either role creates the other accepts at the creator's offset, and the saved digest is the one in the packet |
| Digests.EitherLayoutIsAccepted | src/mmedia/rtmp/RtmpHandshake.cpp:268-295 | Any packet that carries its digest by either layout is accepted as complex |
| Digests.SimpleRoundTrip | src/mmedia/rtmp/RtmpHandshake.cpp:220-222 | A simple packet is accepted as simple by either role and leaves the saved digest alone |
| Digests.EchoLayout | src/mmedia/rtmp/RtmpHandshake.cpp:308-334 | C2 and S2 are the big-endian time, the second word of the peer's packet, the fill, and in a complex handshake a digest of all that under a key from the sender's own digest |
| Digests.EchoKeyIsOwn | src/mmedia/rtmp/RtmpHandshake.cpp:323-333 | C2 and S2 carry the digest under the key made from the peer's digest if and only if that and the sender's own digest are equal, for a MAC that tells apart what is compared |
| Digests.EchoKeysDiffer | src/mmedia/rtmp/RtmpHandshake.cpp:323-333 | A MAC under which they differ for every pair of fills, in a handshake that both sides accept |
| HandshakeRuns.NetStepInv | src/mmedia/rtmp/RtmpHandshake.cpp:348-451 | Every event keeps the server's invariant: what is submitted, queued and consumed is what the state says |
| HandshakeRuns.S0S1Sent | src/mmedia/rtmp/RtmpHandshake.cpp:438-451 | When S0S1 has drained, S2 follows, whether it completes inside the send or later |
| HandshakeRuns.ServerIsSafe | src/mmedia/rtmp/RtmpHandshake.cpp:348-451 | In every run the socket has taken a prefix of S0S1 ++ S2 and nothing before a valid first message; WaitC2 means all 3073 bytes, Done also 3073 consumed; whole messages are consumed and the rest of the input stays |
| HandshakeRuns.DrainedServerIsDetermined | src/mmedia/rtmp/RtmpHandshake.cpp:348-394 | An open server with an empty list has sent exactly what its input determines, however completion and chunking went |
| HandshakeRuns.ServerClosesOnlyWhenBroken | src/mmedia/rtmp/RtmpHandshake.cpp:348-394 | In every run a server is closed if and only if it was closed from elsewhere, the peer closed, 1537 bytes came that are no acceptable first message, or the kernel failed a drain: no fragment, no message in any other state and no blocked write closes it |
| HandshakeRuns.StepCloses | src/mmedia/tests/RtmpServer.cpp:27-39 | The same for one event in any reachable state |
| HandshakeRuns.DoneOverRun | src/mmedia/rtmp/RtmpHandshake.cpp:378-394 | A run ends the handshake if and only if one of its message callbacks ran in WaitC2 with all 3073 bytes received |
| HandshakeRuns.RunsAgree | src/mmedia/rtmp/RtmpHandshake.cpp:366-394 | Any two drained runs on the same input agree on output and handshake, and on the state if and only if they agree on whether such a callback ran; otherwise one waits for C2 and the other is done |
| HandshakeRuns.ChunkingDecidesState | src/mmedia/rtmp/RtmpHandshake.cpp:366-394 | For every accepted C0C1 and every C2: in one chunk the server is left waiting, in two it is done, with the same kernel and output |
| HandshakeRuns.DoneOnNextMessage | src/mmedia/rtmp/RtmpHandshake.cpp:378-394 | In WaitC2 an event completes the handshake if and only if it brings bytes and 1536 are then readable; bytes after C2 stay |
| HandshakeRuns.EarlyC2Waits | src/mmedia/rtmp/RtmpHandshake.cpp:378-394 | Without another message a server in WaitC2 stays there, even with C2 in its buffer |
| HandshakeRuns.EarlyC2IsReachable | src/mmedia/rtmp/RtmpHandshake.cpp:355-376 | Every accepted C0C1, with anything behind it in the same chunk, leads to WaitC2 in one callback when the kernel takes everything, with what was behind it still in the buffer |
| HandshakeRuns.RolesGreetEachOther | src/mmedia/rtmp/RtmpHandshake.cpp:190-298 | A client's C0C1, complex or simple, is one the server answers, and S0S1 is one a client accepts |
| HandshakeRuns.PendingPacketsAreStable | src/mmedia/rtmp/RtmpHandshake.cpp:300-346 | The list holds pointers into the packet arrays; over any run of the server every queued region is part of a packet as it still is |
| ClientRuns.ClientStepInv | src/mmedia/rtmp/RtmpHandshake.cpp:395-470 | Every event keeps what a client has submitted in each state, and C0C1 goes out again in exactly the events in which an accepted S0S1 is there without all of S2 |
| ClientRuns.ClientAnswersOnce | src/mmedia/rtmp/RtmpHandshake.cpp:395-470 | In every run from the start the client has submitted C0C1 and, once S0S1 is accepted, C2 and no more, if and only if there was no such event; otherwise C0C1 again and then C2 again; the kernel has taken a prefix |
| ClientRuns.ClientStands | src/mmedia/rtmp/RtmpHandshake.cpp:395-470 | What a client has retrieved and in which state it stands in every run: with nothing queued it waits for S0S1, is done with S2 unread if it sent what it should, or else waits like a server or is done |
| ClientRuns.ClientClosesOnlyWhenBroken | src/mmedia/rtmp/RtmpHandshake.cpp:395-424 | In every run a client is closed if and only if one of the four things happened, with S0S1 for C0C1, or a callback that takes the result 2 for a failure saw S2 behind S0S1 |
| ClientRuns.S0S1AloneIsAnsweredTwice | src/mmedia/rtmp/RtmpHandshake.cpp:395-424 | From the start, any acceptable S0S1 by itself and a kernel that takes everything: C0C1, C2, C0C1, C2 are sent and the client waits for a client's second message |
| RtmpServers.RtmpHandShake.constructor | src/mmedia/rtmp/RtmpHandshake.cpp:186-188 | A complex handshake in its first state with zeroed packets |
| RtmpServers.RtmpHandShake.CreateC1S1 | src/mmedia/rtmp/RtmpHandshake.cpp:209-245 | The array steps leave the packet and digest of the specification |
| RtmpServers.RtmpHandShake.CheckC1S1 | src/mmedia/rtmp/RtmpHandshake.cpp:247-298 | Result and flag are those of the specification |
| RtmpServers.RtmpHandShake.CreateC2S2 | src/mmedia/rtmp/RtmpHandshake.cpp:308-334 | The array steps leave the packet of the specification |
| RtmpServers.RtmpHandShake.Start | src/mmedia/rtmp/RtmpHandshake.cpp:190-200 | The objects move as the session does |
| RtmpServers.RtmpHandShake.OnHandshake | src/mmedia/rtmp/RtmpHandshake.cpp:348-431 | On the array buffer, the arrays and the connection: the session and result of the specification, for both roles |
| RtmpServers.RtmpHandShake.WriteComplete | src/mmedia/rtmp/RtmpHandshake.cpp:433-470 | Sending inside the callback ends, by a rank on states, in the specified session |
| RtmpServers.TcpConnection.SendInLoop | src/network/net/TcpConnection.cpp:176-212 | With the callback run inside, the specified session |
| RtmpServers.TcpConnection.SendListInLoop | src/network/net/TcpConnection.cpp:214-230 | The loop over the nodes leaves the specified connection |
| RtmpServers.TcpConnection.DrainLoop | src/network/net/TcpConnection.cpp:104-136 | The outer loop ends on a measure of pending bytes and computes the specified drain |
| RtmpServers.TcpConnection.ConsumeLoop | src/network/net/TcpConnection.cpp:109-127 | The inner loop never reads an empty list and drops exactly what the kernel took |
| RtmpServers.TcpConnection.OnWrite | src/network/net/TcpConnection.cpp:96-144 | The session step of writability |
| RtmpServers.TcpConnection.OnClose | src/network/net/TcpConnection.cpp:24-37 | Unregistered and closed, once |
| RtmpServers.TcpConnection.OnMessage | src/mmedia/tests/RtmpServer.cpp:27-39 | Refusals close the connection, everything else goes on |
| RtmpServers.TcpConnection.OnRead | src/network/net/TcpConnection.cpp:53-81 | What each read gives is heard in order, up to what the buffer takes in one read, until the first result that is not data, the end of the results or the close of the connection; end of stream and errors close it, and all of it is a run of session steps |
| RtmpServers.HearingIsDetermined | src/network/net/TcpConnection.cpp:62-80 | What one onRead hears, and why it ends, is determined by what the kernel has for it |
| RtmpServers.ShortReadsAreWhole | src/network/base/MsgBuffer.cpp:23-55 | A read of up to 64 KiB is heard whole, whatever is in the buffer |
| RtmpServers.TcpConnection.ObjectIsSafe | src/network/net/TcpConnection.cpp:53-212 | Safety of the server, read off the objects' own fields |
| RtmpServers.Accept | src/mmedia/tests/RtmpServer.cpp:21-25 | An accepted connection with its handshake started is the first session of the server's runs |
| ServerLife.LifeIsBothRuns | src/network/net/TcpConnection.cpp:24-144 | Every life of a connection is a run of its session and a run of its idle timer, closed together: all theorems about either hold of it |
| ServerLife.LifeIsSafe | src/network/net/TcpConnection.cpp:24-144 | In every life: closed once, a prefix of S0S1 ++ S2 sent, and the timer closes only at the first firing tick of its entries |
| ServerLife.QuietRun | src/network/net/TcpConnection.cpp:24-37 | The wheels alone leave the session as it is until the timer closes it |
| ServerLife.StalledServerIsClosed | src/network/net/TcpConnection.cpp:53-144 | A server with one limit that hears and sends nothing after its last read or write is closed at the firing tick counted from it, exactly the limit later when that is under 60, once, with what it had sent of S0S1 ++ S2 |
| ServerLife.TurningsJoinOnce | src/network/net/TcpConnection.h:70-79 | Closing the session when the entry dies, in the middle of the wheels' events, or after them comes to the same |
| ServerLife.ServerConnection.OnRead | src/network/net/TcpConnection.cpp:53-81 | The life is extended, then everything the kernel has is read as above; a close by the session is a close of the timer's side |
| ServerLife.ServerConnection.OnWrite | src/network/net/TcpConnection.cpp:96-144 | The life is extended, then the list is drained |
| ServerLife.ServerConnection.OnTimer | src/network/net/TcpConnection.h:70-79 | This call of the wheels, event by event, and the death of an entry closes the whole connection |
| ServerLife.ServerConnection.EnableCheckIdleTime | src/network/net/TcpConnection.cpp:246-251 | The limit of the whole connection; a refused one closes it |
| ServerLife.ServerConnection.IsSafe | src/network/net/TcpConnection.cpp:24-144 | Safety of the whole object at any point of its life |
| TaskQueue.StepInv | src/network/net/EventLoop.cpp:210-260 | Every action of every thread keeps the order of tasks and enough tokens |
| TaskQueue.NoLostWakeup | src/network/net/EventLoop.cpp:210-260 | In every run of any number of threads tasks run once each in post order, and a waiting loop with queued work and no producer inside has a token to wake it |
| TaskQueue.DrainRunsAll | src/network/net/EventLoop.cpp:242-249 | What was posted before a drain ends has run by then |
| TaskQueue.DrainTerminates | src/network/net/EventLoop.cpp:242-249 | runFunctions ends with an empty queue and the lock free, since nobody can post meanwhile |
| TaskQueue.OneTurnRunsAll | src/network/net/EventLoop.cpp:44-102 | From a wait with queued work one turn of the loop is possible at once and runs all of it |
| LoopTasks.TaskLoop.RunInLoop | src/network/net/EventLoop.cpp:210-229 | On the loop's thread the function and all it posts run inline and the queue is untouched; from another thread it is queued with one token |
| LoopTasks.TaskLoop.RunFunctions | src/network/net/EventLoop.cpp:242-249 | All queued functions run in order, each with its inline posts, and the queue is empty |
| LoopTasks.OrderIsCallOrder | src/network/net/EventLoop.cpp:210-229 | The order in which inline posts run is that of a call stack: a function, then all that it posts, before anything that waits below it |
| ServerBooks.StepInv | src/network/TcpServer.cpp:65-98 | Accepting, the close callback, closing the descriptor, stopping and reopening the listener, and starting one that does not listen, each keep the books |
| ServerBooks.BooksAgree | src/network/TcpServer.cpp:65-98 | In every reachable state, if the server is not started while it listens, loop and kernel watch exactly the loop's own descriptors, the listener's while it listens, and those of the held connections, which are distinct and open; a descriptor the kernel can hand out is not registered |
| ServerBooks.HeldUntilClosed | src/network/TcpServer.cpp:88-98 | Over every run the server holds a connection, under its descriptor, if and only if its close callback has not run |
| ServerBooks.AcceptThenCloseRestores | src/network/TcpServer.cpp:65-98 | Accepting registers and holds; the close callback and the closing of the descriptor leave all books as before |
| ServerBooks.ListenerComesAndGoes | src/network/net/Acceptor.cpp:24-94 | Opening makes it listen, stopping or failing to open leaves it deaf, and connections stay |
| ServerBooks.StartKeepsBooks | src/network/net/Acceptor.cpp:24-55 | Starting keeps the books if and only if the server does not listen already; if it does and gets the same descriptor again, the kernel no longer watches it |
| ServerBooks.OrderMatters | src/network/net/TcpConnection.cpp:31-36 | Closing before unregistering would let an accepted connection go unwatched |
| TcpServers.EventLoop.AddEvent | src/network/net/EventLoop.cpp:117-136 | A new descriptor is registered for reading only; a known one is left as it is |
| TcpServers.EventLoop.RemoveEvent | src/network/net/EventLoop.cpp:138-152 | The descriptor is gone and nothing else |
| TcpServers.EventLoop.EnableEventWriting | src/network/net/EventLoop.cpp:182-208 | The write bit changes only for a registered descriptor |
| TcpServers.TcpServer.OnAccept | src/network/TcpServer.cpp:65-86 | The new connection is held and registered under a descriptor that was not registered |
| TcpServers.TcpServer.OnConnectionClose | src/network/TcpServer.cpp:88-98 | The connection is neither held nor registered, and its descriptor is still open |
| TcpServers.TcpServer.OnClose | src/network/net/TcpConnection.cpp:24-37 | The first call unregisters and then closes the descriptor, later calls do nothing |

## Left out

- SendQueue.StreamIsConserved: kernel replies are 0 or more here and in the handshake; runs with replies of -1 are in `WouldBlock.dfy`.
- HandshakeRuns.EarlyC2Waits: a C2 that arrives before WaitC2 is examined only at the next message, so completion is stated by the exact event that brings it, not as a promise.
- Timers.TimingWheel.RunEvery: intervals of zero, negative ones and those of 31 days or more are excluded, since the source's destructors would create entries without end (`RefusedIntervalHasNoEnd`).
- Timers.LoopRunEvery: says which kind of timer starts; when it fires is for the lemmas on the record.
- IdleTimeout.IdleConnection.OnTimer: the object closes after the whole tick, which `TurnRun` shows to come to the same, and has the loop's wheels to itself; the theorems on runs have any other timers.
- ServerLife.ServerConnection.OnTimer: the same, for the whole connection.
- ServerLife.ServerConnection.OnRead: one source class is kept as two objects that are closed together; its callbacks are the handshake's, and do not set limits.
- RtmpServers.TcpConnection.SendInLoop: the connection has its handshake's callbacks; one without callbacks does the same with nothing at the end.
- RtmpServers.TcpConnection.OnRead: extends no life by itself; `ServerConnection` does. The same holds of `OnWrite`.
- RtmpServers.TcpConnection.OnClose: object lifetime. The last reference to a connection may go when the close or message callback returns (`src/network/net/TcpConnection.cpp:31-36`, `:66-72`; the loop holds only a reference into its map), and the methods then run on in an object that is gone; here objects live on.
- MsgBuffers.MsgBuffer.Append: sizes are unbounded, so overflow of `size_t` and the narrowing in `toStringPiece` are not modelled.
- LoopTasks.TaskLoop.RunInLoop: a posted function does nothing but post; the first post's creation of the pipe is not modelled, and a full pipe neither.
- TcpServers.TcpServer.OnAccept: the idle check and the new-connection callback, which come after it, are in `ServerLife.dfy` and `LongerLimitFromCallback`.
- TcpServers.TcpServer.OnClose: destroy callbacks do not close the same connection again; the listener of the object does not reopen, that of the books does.
- `checkC2S2`, which accepts everything, and any claim that S2 echoes the random bytes of C1: the code does not copy them.
- Sends posted from other threads, which keep the caller's pointer until the loop runs them; the queue that carries them is modelled.
- `findCRLF`, `findEOL`, `internalCapacity`: searches and a getter.
- `UdpSocket`, `TcpClient`, `DnsService`, `InetAddress`, `SocketOpt`, logging, `Packet`, thread pools: simpler copies or input and output.
- epoll, sockets, OpenSSL, random numbers and clocks are parameters.
