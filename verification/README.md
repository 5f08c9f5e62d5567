# Verified model of the Wayland transport runtime

One Unix socket carries two lanes: a byte stream, which the kernel cuts into receive buffers as it
likes, and file descriptors in control messages. The runtime in `src/` turns both into typed
messages with the right descriptors attached, shares its memory among all connections of a reactor,
and tears a connection down while the kernel still holds operations of it. This project models that
runtime in Dafny and proves what it is for.

The modules follow the source files.

| module | models |
|---|---|
| `Wire`, `Fragmentation`, `Stream`, `Framers` | `src/wire.zig` headers, and `src/stream.zig`: the incremental framer, alone and with many on one block pool |
| `FreeList`, `Tenancies`, `Pool`, `Blocks`, `PoolHistories` | `src/pool.zig`: intrusive free lists with generations, for descriptors and for byte blocks, and any list of calls on them |
| `Rights`, `Ancillary`, `Ledger` | `src/ancillary.zig`: the SCM_RIGHTS codec, the descriptor queue, and all queues of a reactor with every descriptor accounted for |
| `Completion`, `Slots` | `src/completion.zig`, `src/reactor.zig`: completion tokens and the slot directory |
| `Codec`, `CodecProofs`, `GeneratedCodec`, `Enums` | `src/codegen.zig`: the meaning of the emitted sizers, encoders and decoders for every message schema, and the choice of enum wrapper |
| `Transmit` | the contract of `src/tx.zig`: queued bytes and descriptors, reservations, at most one send in flight |
| `Buffers` | the deferred receives of `src/io_uring.zig` for all connections of a reactor on one ring of receive buffers |
| `Connection`, `Runs`, `Driver` | `src/connection.zig`, the driver of `src/client.zig`, and the reactor calls it makes: the chart, the step system, and the driver as a stretch of runs |
| `Lanes`, `Arrivals` | both lanes through batches and completions as functions, and the way from a sender's messages to a receiver's handlers |
| `Receive`, `Dispatch`, `Client` | the receive buffers of `src/io_uring.zig`, `src/dispatch.zig`, the event loop of `src/client.zig`, and its typed requests and events |
| `Debug`, `Statechart` | `src/debug.zig`: the streaming environment matcher; `src/statechart.zig`: the breadth-first explorer |
| `Bytes`, `Memory`, `Outcomes` | machine words, byte order, copying, and the error names |

What is an object with mutable fields in the source is a class here, and what is a loop is a loop.
Each such method is proved against a function of its inputs and its old state, and the theorems are
about those functions. Free lists carry a ghost sequence with the head of the list last.

Conventions. `usize` has 64 bits. `NATIVE` is an unspecified constant, so every statement about bytes
holds for both byte orders. An addition that leaves the word where the source does not check it is
the outcome `ArithmeticTrap`. The allocator may refuse any growth. The kernel is whatever answers
outstanding operations; four facts are taken from io_uring: a receive stays armed only after a
completion with data, it runs out of buffers only when none is free, a send never reports more bytes
than were submitted, and data fills a whole buffer and is done with it, because the ring is registered
without incremental consumption (`src/io_uring.zig:62-71`). A reservation on the transmit queue is
finished before the queue is used in another way, as `src/tx.zig:125-127` demands.
Whether the submission queue has room is decided afresh at every attempt. Handlers are scripts:
arbitrary lists of what a handler may do to its connection, and for message dispatch an arbitrary
function from the number of the call to what the handler does then.

## Findings

Seven properties hold with a condition, which is proved to be the exact one.

* Fragmentation is invisible if and only if scratch space fits every message the stream declares
  (`Fragmentation.InvisibleIffAllFit`). Shared scratch holds `max(64, block size)` bytes. A larger
  message passes when it arrives in one buffer and is refused when it is split.
* `rightsControlSize` reports `Overflow` exactly when the size does not fit a word, except for one
  count, 0x3fff_ffff_ffff_fffb, where both checked operations succeed and the rounding in
  `cmsgAlign` traps (`Rights.ControlSizeIsExact`).
* The actor's `receiving` flag mirrors the kernel exactly as long as no completion without data
  claims that the receive stays armed (`Runs.MirrorNeedsKernel`).
* Wakeups are never lost for sends, cancellation and the disconnect notification. For receiving the
  exact condition is over whole runs: an open connection that does not listen lacks the permission to
  rearm if and only if its receive ended with ENOBUFS and no buffer has been returned since the last
  whole sweep (`Runs.StarvedIffNotPermitted`). A receive that ended with data is never stranded
  (`Runs.OnlyExhaustionStrands`).
* Over all connections of a reactor this can lose a wakeup for good. The permission is one flag, and a
  sweep clears it while another connection's ENOBUFS may be posted and not yet dispatched. A sweep
  forgets a receive if and only if it uses up the permission with no buffer out and such a completion of
  an open connection posted (`Buffers.ForgetsIffTooEarly`); in runs without such a sweep, in particular when all posted
  completions are dispatched first, every deferred receive has a sweep or a buffer to hope for
  (`Buffers.NoneForgotten`, `Buffers.DrainedNeverForgets`), and a reactor's only connection always
  does. With one buffer and two connections, one of them closing, it comes to a standstill: an open
  connection stays deferred while every buffer is free (`Buffers.Standstill`, `Buffers.StillForGood`).
* A message is delivered as it was sent if and only if its descriptors arrive no later than its last
  byte and the descriptor budget holds what waits until then (`Arrivals.SentThroughArrivals`). The
  first message that is late ends the connection with `Empty` (`Arrivals.LateDescriptorEndsRun`).
* Stale leases and tokens are refused for 2^32-2 reuses of their place and are accepted again at the
  next one (`Slots.StaleTokensNeverRoute`, `Pool.StaleLeasesNeverHold`).

## Model

| member | source | states |
|---|---|---|
| `Completion.DecodeEncode` | src/completion.zig:18-32 | decoding an encoded token gives back the token, for every operation, slot and generation |
| `Completion.EncodeDecode` | src/completion.zig:18-32 | exactly the words with an operation code decode, and each is the image of the token it decodes to |
| `Completion.GenerationIsCyclic` | src/completion.zig:39-43 | the generation after n acquisitions is a position on a cycle of 2^32-1 values that skips zero |
| `Completion.StaleGenerationsDiffer` | src/completion.zig:39-43 | fewer than 2^32-1 further acquisitions never bring a generation back |
| `Tenancies.StaleUntilWrap` | src/pool.zig:260-265 | over any run of directory steps, an identity that was given up stays invalid until its place has been acquired 2^32-1 more times |
| `Tenancies.WrapsAround` | src/pool.zig:283-286 | at exactly that acquisition the old identity is valid again |
| `Slots.Slots.Acquire` | src/reactor.zig:46-63 | recycles a free slot or appends one, under the next generation of its storage; storage is as long as the highest number of slots ever active at once; refusals change nothing |
| `Slots.Slots.Deactivate` | src/reactor.zig:65-72 | gives up exactly the named slot at its current generation; otherwise nothing changes, and the error says whether the slot is out of range, inactive or of another generation |
| `Slots.Slots.MakeToken` | src/reactor.zig:74-88 | a token is made exactly for identities that route, and decodes to that identity |
| `Slots.Slots.Route` | src/reactor.zig:92-95 | a word routes if and only if it decodes to a token whose slot is active at its generation |
| `Slots.Slots.RouteToken` | src/reactor.zig:97-105 | the same for a decoded token |
| `Slots.Slots.ActiveCountIsExact` | src/reactor.zig:30-33 | the counter is the number of active slots, and the free list threads all the others |
| `Slots.StaleTokensNeverRoute` | src/reactor.zig:90-105 | over any history of the directory a token of a deactivated slot is dropped for the next 2^32-2 reuses, and would route at the one after |
| `Slots.Replay` | src/reactor.zig:46-72 | the directories between any calls of acquire and deactivate, refused ones included, are such a history |
| `Pool.AvailableIsExact` | src/pool.zig:247-253 | `available` is the length of an acyclic free list that visits exactly the unused nodes |
| `Pool.HeldLeaseIsCurrent` | src/pool.zig:260-265 | a lease validates if and only if its node is acquired, at the lease's generation, for the lease's payload |
| `Pool.StaleLeasesNeverHold` | src/pool.zig:201-265 | over any history of a pool, a lease whose node was given up is refused until that node has been acquired 2^32-1 more times, and is accepted again at that acquisition exactly if the payload is the same |
| `PoolHistories.ReplayFds` | src/pool.zig:201-275 | the states between any calls of acquire, take, link and growth, refused ones included, are such a history of the descriptor pool |
| `PoolHistories.ReplayBlocks` | src/pool.zig:72-134 | the same for the block pool |
| `Pool.SharedFds.EnsureAvailable` | src/pool.zig:255-258 | grows only when the free list is too short, stops at the capacity limit, and leaves every held node alone |
| `Pool.SharedFds.Grow` | src/pool.zig:267-275 | one more free node at the head of the list, or nothing |
| `Pool.SharedFds.Acquire` | src/pool.zig:201-212 | hands out a node nobody held, under its next generation, and disturbs no held node; a failure only adds free nodes |
| `Pool.SharedFds.Take` | src/pool.zig:214-224 | gives back exactly the leased node and its descriptor; a stale lease changes nothing |
| `Pool.SharedFds.Link` | src/pool.zig:226-232 | sets the successor of a current lease that has none, and nothing else; no tenancy changes |
| `Pool.SharedFds.NextLease` | src/pool.zig:234-245 | the successor as a current lease, or why there is none |
| `Blocks.SharedBlocks.Acquire` | src/pool.zig:72-86 | a block of the pool's size that nobody held, under its next generation, as one step of the directory the wrap bound is about; a failure only adds free nodes; blocks stay with their nodes for good |
| `Blocks.SharedBlocks.Release` | src/pool.zig:88-96 | exactly the leased block becomes idle memory again; a stale lease changes nothing |
| `Blocks.SharedBlocks.EnsureAvailable` | src/pool.zig:110-113 | terminates, grows only when the free list is too short, and only by blocks nobody has seen |
| `Blocks.SharedBlocks.Link` | src/pool.zig:115-121 | sets the successor of a current lease that has none, and nothing else; no tenancy changes |
| `Blocks.SharedBlocks.NextLease` | src/pool.zig:123-134 | the successor as a current lease, or why there is none |
| `Rights.RightsIterator.Next` | src/ancillary.zig:147-184 | produces the descriptors of a control buffer one by one as the recursive parser finds them, on arbitrary bytes, and terminates |
| `Rights.ControlRoundTrip` | src/ancillary.zig:113-185 | parsing any printed sequence of rights and foreign records, the last one possibly without padding, gives the concatenated descriptor lists |
| `Rights.TruncationIsDetected` | src/ancillary.zig:158-172 | a record cut short anywhere yields no descriptor and an error |
| `Rights.ControlSizeIsExact` | src/ancillary.zig:132-139 | the advertised size is the size of the printed record, with the exact condition of the overflow report |
| `Rights.EncodeRights` | src/ancillary.zig:113-130 | writes exactly one padded record at the front of the storage, or nothing |
| `Ancillary.FdQueue.Pop` | src/ancillary.zig:47-56 | removes the oldest descriptor of the queue's sequence; no other queue can tell |
| `Ancillary.FdQueue.Discard` | src/ancillary.zig:58-61 | closes exactly the oldest descriptors in order, or none when there are too few |
| `Ancillary.FdQueue.Append` | src/ancillary.zig:63-74 | appends within the budget, or changes nothing |
| `Ancillary.FdQueue.CopyTo` | src/ancillary.zig:76-85 | copies the whole sequence in order, following the chain through the shared pool |
| `Ancillary.FdQueue.EnsureCapacity` | src/ancillary.zig:42-45 | makes room within the budget, and makes all of it or reports why not |
| `Ancillary.FdQueue.Deinit` | src/ancillary.zig:28-32 | closes every queued descriptor once, oldest first |
| `Ancillary.CloseRights` | src/ancillary.zig:104-109 | closes exactly the descriptors ahead of the first malformed record |
| `Ancillary.EnqueueRights` | src/ancillary.zig:88-102 | either all descriptors are appended in order and none is closed, or the queue is as before and each descriptor of the valid prefix is closed once; the second pass cannot fail |
| `Ledger.Ledger.Receive` | src/ancillary.zig:88-102 | with any number of queues on one pool, receiving is a step on one of many independent sequences, and the ledger of descriptors stays balanced |
| `Ledger.Ledger.Pop` | src/ancillary.zig:47-56 | the same for handing out the oldest descriptor |
| `Ledger.Ledger.Discard` | src/ancillary.zig:58-61 | the same for discarding |
| `Ledger.Ledger.Append` | src/ancillary.zig:63-74 | the same for appending |
| `Ledger.Ledger.Teardown` | src/ancillary.zig:28-32 | the same for closing a queue |
| `Ledger.OneQueueStep` | src/ancillary.zig:17-86 | an operation of one queue keeps all chains intact, pairwise disjoint and covering every node in use |
| `Ledger.ActiveIsQueued` | src/pool.zig:251-253 | the pool's active count is the number of queued descriptors |
| `Ledger.Ledger.NothingLeaks` | src/ancillary.zig:28-109 | when every queue is empty the pool is idle, and received is handed out plus closed, as multisets |
| `Wire.HeaderRoundTrip` | src/wire.zig:30-59 | decoding an encoded header gives the header back, whatever follows it |
| `Wire.HeaderIsLocal` | src/wire.zig:30-47 | validity and size depend on the first eight bytes alone |
| `Wire.PeekIsStable` | src/wire.zig:67-76 | more bytes never change a message or an error that is already there |
| `Wire.DecodeMessage` | src/wire.zig:67-76 | null exactly while bytes are missing, otherwise the header's error or the message with its payload |
| `Fragmentation.DrainIsParse` | src/stream.zig:39-80 | draining one buffer until null, on top of pending bytes, is reading their concatenation directly, when scratch space fits |
| `Fragmentation.FragmentationIsInvisible` | src/stream.zig:39-107 | any way of cutting a stream yields the messages, the first error and the leftover of the uncut stream, when scratch space fits every message |
| `Fragmentation.InvisibleIffAllFit` | src/stream.zig:82-99 | that condition is exact: all cuts agree with the uncut stream if and only if scratch space fits every declared message |
| `Fragmentation.UnfitIsVisible` | src/stream.zig:82-89 | for every stream with a message that does not fit, a cut that shows it |
| `Stream.Framer.Next` | src/stream.zig:39-80 | delivers, waits or fails as the verdict on pending bytes and input says; no byte is lost or repeated; null only with the input used up; a message in a leased block stays in place until the next call; it reports a pool failure only when no block is free and it holds none, and never brings that about |
| `Stream.Framer.EnsureCapacity` | src/stream.zig:82-99 | inline, then leased scratch, keeping what is buffered; fails only for sizes beyond the largest scratch, or when a block is needed, none is free and the pool cannot grow |
| `Stream.Framer.StaysFed` | src/pool.zig:72-113 | whatever a framer does to the pool, a block that it could have had stays to be had |
| `Stream.Framer.LeaseBlock` | src/stream.zig:89-98 | a block that is too small goes straight back |
| `Stream.Framer.ReleaseLease` | src/stream.zig:101-106 | gives the one lease back |
| `Stream.Framer.Deinit` | src/stream.zig:30-33 | leaves no lease behind |
| `Framers.Framers.Next` | src/stream.zig:39-80 | with many framers on one pool, a call of one leaves the pending bytes, the leases and the lent messages of all others in place |
| `Framers.Framers.Close` | src/stream.zig:30-33 | a framer going away in the middle of a message returns exactly its own lease |
| `Framers.Framers.ActiveIsLeased` | src/pool.zig:102-104 | the pool's active count is the number of framers that hold a lease, and zero when none does |
| `CodecProofs.EnumBijection` | src/codegen.zig:855-863 | signed and unsigned enum wrappers are bijections on 32-bit wire values |
| `CodecProofs.ArgumentRoundTrip` | src/codegen.zig:1363-1408 | decoding an encoded argument gives the value in normal form and stops where the encoding stopped |
| `CodecProofs.ValuesRoundTrip` | src/codegen.zig:1410-1430 | decoding all encoded arguments of any schema gives all values in normal form |
| `CodecProofs.ArgumentSizeIsExact` | src/codegen.zig:1296-1361 | the sizer's answer for an argument is the number of bytes written, a multiple of four |
| `CodecProofs.PaddingFills` | src/codegen.zig:55-86 | the writers' padding agrees with the rounding in `variableSize` |
| `CodecProofs.MessageSizeIsExact` | src/codegen.zig:1097-1135 | the preflight size is header plus encoded arguments, word-aligned, and fits the 16-bit size field |
| `CodecProofs.SizingNeverTraps` | src/codegen.zig:1296-1361 | values are refused for their own sake only, never because the running sum left the word, below 2^31 arguments |
| `CodecProofs.ArgumentAccepted` | src/codegen.zig:1618-1660 | whatever bytes the decoder accepts are a well-typed value in normal form of exactly the consumed size |
| `CodecProofs.DecodedReencodes` | src/codegen.zig:1410-1430 | for every supported schema, the byte-carrying values of a decoded message encode again to the same length and the same values |
| `GeneratedCodec.MessageReencodes` | src/codegen.zig:1410-1478 | every decoded message, descriptors included, encodes again with the same descriptors and to the same size, and decodes to the same values |
| `GeneratedCodec.Preflight` | src/codegen.zig:1129-1135 | the emitted size function computes the specified size or the specified error |
| `GeneratedCodec.WriteArguments` | src/codegen.zig:1363-1408 | the emitted writes fill the reservation exactly |
| `GeneratedCodec.EncodeMessage` | src/codegen.zig:1137-1182 | either the whole frame and its descriptors are queued, or the queue is as before; the reservation neither overflows nor is left short |
| `GeneratedCodec.ReadValues` | src/codegen.zig:1420-1430 | the emitted reads in order decode the specified values or report the specified error |
| `GeneratedCodec.DecodeMessage` | src/codegen.zig:1410-1478 | a decode that fails for any reason leaves the descriptor queue unchanged; a success removes exactly the message's descriptors from its front |
| `GeneratedCodec.LiveObjectsPass` | src/codegen.zig:1519-1580 | object validation leaves values alone that name live objects of the declared interface |
| `GeneratedCodec.EventObjects` | src/codegen.zig:1519-1580 | for events, validation succeeds if and only if every named object is known and destroyed or of the declared interface, and then exactly the destroyed ones read as null, or as 0 where null is not allowed |
| `GeneratedCodec.CheckSplits` | src/codegen.zig:1449-1476 | checking the byte-carrying values before the descriptors are put back is checking all values after |
| `GeneratedCodec.MergeSplit` | src/codegen.zig:1449-1476 | decoded values and popped descriptors are put back in schema order, and there are as many descriptors as the metadata says |
| `GeneratedCodec.FrameIsWhole` | src/codegen.zig:1153-1165 | an encoded frame is one whole message with the given sender and opcode |
| `GeneratedCodec.MessageRoundTrip` | src/codegen.zig:1363-1478 | for every schema and accepted values, decoding the encoded message gives the values in normal form, checked against the receiver's objects, with the sender's descriptors, whatever waits behind them; with descriptors missing it is `Empty` |
| `Enums.ReferenceMatchesIff` | src/codegen.zig:923-934 | a reference names an enum exactly from its own interface by name, or as owner, dot, name |
| `Enums.InspectEnumArguments` | src/codegen.zig:904-921 | folds the uses of an enum in one argument list into the verdict so far |
| `Enums.EnumIsSigned` | src/codegen.zig:877-902 | signed exactly when some use is signed or an unused enum has a negative entry; an error exactly when some use is neither int nor uint |
| `Transmit.Reservation.Commit` | src/tx.zig:353-376 | bytes and descriptors become visible together or not at all |
| `Transmit.Queue.Complete` | src/tx.zig:230-264 | a partial write consumes what was written, and closes all descriptors of the flight |
| `Connection.StepMovesForward` | src/connection.zig:83-136 | no accepted input moves a phase backwards, and closing is never left |
| `Connection.Actor.CompleteReceive` | src/connection.zig:358-381 | the event and the state for every result, error number and more flag |
| `Connection.Actor.CompleteSend` | src/connection.zig:383-399 | consumes what was written, ends draining with the last byte, closes on failure; refused completions change nothing |
| `Connection.Actor.CompleteCancel` | src/connection.zig:401-406 | ends a requested cancellation, whatever the kernel reports |
| `Connection.Actor.Complete` | src/connection.zig:332-356 | only completions that carry the actor's slot and generation have an effect |
| `Connection.Actor.BeginSend` | src/connection.zig:285-293 | one send at a time, only while open or draining |
| `Connection.Actor.CommitProtocolError` | src/connection.zig:301-307 | draining starts only with output queued |
| `Connection.Actor.RequestCancel` | src/connection.zig:313-317 | at most one cancellation is ever requested |
| `Runs.StepKeeps` | src/client.zig:595-698 | every step of completions in any order, full submission queues, re-entrant handlers, outside producers and foreign sweeps keeps all invariants |
| `Runs.NoLostWakeup` | src/client.zig:569-698 | in every reachable state queued output without a send in flight is scheduled, a closing connection with operations to cancel is scheduled, an unreported closing connection is scheduled or waits for the kernel, and an open one listens, or is parked with permission to rearm unless it is starved of buffers |
| `Runs.FlagsMirrorKernel` | src/connection.zig:268-330 | in every reachable state the actor's flags are the kernel's, so the actor can be destroyed exactly when the kernel references nothing, and draining has something to send |
| `Runs.MirrorNeedsKernel` | src/connection.zig:358-381 | the exact condition on receive completions under which the flags stay right |
| `Runs.ClosingIsForever` | src/connection.zig:130-136 | in every run closing is never left, and a report is never taken back |
| `Runs.HookRunsOnce` | src/client.zig:632-640 | in every run the disconnected hook runs at most once, while closing and with nothing outstanding then or later |
| `Runs.StepRank` | src/client.zig:595-642 | while closing, final kernel answers and roomy prepares lower a rank, and nothing raises it by more than one |
| `Runs.UsefulExists` | src/client.zig:601-640 | an unreported closing connection always has such a step to take |
| `Runs.TeardownIsReached` | src/client.zig:595-642 | in every run from a closing state useful steps exceed the others by no more than the rank, and a run with no useful step left ends reported and idle |
| `Runs.StarvedIffNotPermitted` | src/io_uring.zig:390-471 | over any run, an open connection that does not listen lacks the permission to rearm if and only if its receive ended with ENOBUFS and no buffer was returned since the last sweep |
| `Runs.OnlyExhaustionStrands` | src/client.zig:687-689 | over any run without ENOBUFS, an open connection listens, or is parked with the permission |
| `Runs.RearmedIffNotStarved` | src/io_uring.zig:436-471 | in every reachable state the next sweep can arm a parked receive exactly when the connection is not starved |
| `Runs.ParkedWithoutPermit` | src/client.zig:693-697 | a buffer is returned, another connection's sweep uses up the permission, and an ENOBUFS dispatched after it leaves an open connection with nothing outstanding, nothing scheduled and no permission |
| `Buffers.ConservedStep` | src/io_uring.zig:415-434 | every step keeps each receive buffer free, lent, or filled and posted, exactly one of these |
| `Buffers.SettledStep` | src/io_uring.zig:390-413 | every step keeps the order of things: nothing follows a receive's last completion, and a deferred receive is listed once, is not armed, and has nothing posted |
| `Buffers.WatchedIffNotTooEarly` | src/io_uring.zig:443-471 | the invariant behind the deferred receives is kept by every step except a sweep that comes too early, and by no such sweep |
| `Buffers.ForgetsIffTooEarly` | src/io_uring.zig:443-471 | a sweep comes too early if and only if dispatching one posted completion after it can leave an open connection deferred with no permission and no buffer out |
| `Buffers.TooEarlyForgets` | src/io_uring.zig:443-471 | after such a sweep the next dispatch of that connection forgets it, with every buffer free |
| `Buffers.NoneForgotten` | src/io_uring.zig:436-442 | over any run without such a sweep, completions dispatched in any order across connections, every deferred open connection has a permitted sweep or a buffer that is still to come back |
| `Buffers.DrainedNeverForgets` | src/io_uring.zig:436-442 | so has every run that sweeps only with everything posted dispatched or a buffer out |
| `Buffers.LoneConnectionIsSafe` | src/io_uring.zig:436-442 | and every run of a reactor with one connection |
| `Buffers.Standstill` | src/io_uring.zig:443-461 | a run from the start to an open connection that is deferred while every buffer is free, nothing is posted and nothing armed |
| `Buffers.StillForGood` | src/io_uring.zig:443-446 | from there no receive is armed again without a new connection |
| `Buffers.SweepSeenByOne` | src/io_uring.zig:443-471 | a sweep of all deferred receives is, for each connection, one of the sweeps in `Runs` |
| `Driver.Reactor.PrepareSend` | src/io_uring.zig:1417-1456 | a send is submitted, or the queue is as before; which of seven outcomes, for every state of queue and connection |
| `Driver.Reactor.PrepareClose` | src/io_uring.zig:478-495 | one cancellation for whatever is in flight, or the actor's state restored |
| `Driver.Reactor.DeferReceive` | src/io_uring.zig:390-413 | parks an inactive receive of an open connection at most once |
| `Driver.Reactor.PrepareDeferredReceives` | src/io_uring.zig:436-471 | one sweep in order until done or full, with its effect on this connection and on the permission |
| `Driver.Reactor.DestroyPeer` | src/io_uring.zig:503-518 | succeeds exactly for a peer in the directory whose actor has nothing outstanding; then this peer alone leaves the deferred receives and the directory, its framer's block goes back, and its descriptors, received and queued, and its socket are closed |
| `Driver.Driver.Destroy` | src/client.zig:155-161 | a connection is released exactly when it is in the directory and the kernel holds nothing of it, and no completion is its own afterwards |
| `Driver.Driver.Route` | src/client.zig:650-656 | a completion is this connection's exactly when its token routes and names the actor |
| `Driver.Driver.Schedule` | src/client.zig:569-574 | marks the driver, and says whether it was marked |
| `Driver.Driver.Prepare` | src/client.zig:595-642 | is a step of the step system, including both early returns; reports pending work and quiescence exactly |
| `Driver.Driver.Complete` | src/client.zig:644-698 | is a step of the step system, is never an error for a faithful kernel, and leaves the driver scheduled |
| `Driver.Driver.CompleteCqe` | src/client.zig:644-661 | a completion off the ring: refused without any effect if it is not this connection's, otherwise that step |
| `Driver.Driver.Outside` | src/client.zig:568-574 | a producer or closer that schedules is a step of the step system |
| `Driver.Driver.Dispatch` | src/client.zig:579-591 | any batch of posted completions, then a prepare, is a run of the step system with one step for each |
| `Lanes.LanesStayInStep` | src/client.zig:198-243 | over any batch with any mix of live and destroyed targets, the accepted messages are an initial stretch of it and took exactly their declared numbers of descriptors from the front of the queue |
| `Lanes.RunAppend` | src/client.zig:206-242 | dispatching two batches one after the other, with nothing arriving between them, is dispatching their concatenation |
| `Lanes.RunIgnoresMore` | src/client.zig:206-242 | descriptors that come early change nothing: a batch that did not end for lack of descriptors goes the same way with more of them waiting |
| `Lanes.RunInterleaved` | src/client.zig:248-265 | so two batches with descriptors arriving between them are one batch with all of them there |
| `Arrivals.DeliveredAsSent` | src/client.zig:198-243 | from sender to receiver in one batch: handlers get the sender's values, with the objects they name as the receiver knows them, and exactly the descriptors sent with them |
| `Arrivals.LateEndsBatch` | src/client.zig:206-242 | a batch that lacks descriptors is delivered up to the first message that does, and ends there with `Empty` |
| `Arrivals.PrefixParses` | src/stream.zig:39-80 | reading any initial stretch of a sender's stream gives exactly the messages complete in it |
| `Arrivals.ArrivalsDecide` | src/client.zig:248-265 | for any completions, each bringing descriptors and a stretch of the stream: delivery as sent up to the first one that exceeds the budget or leaves a message without its descriptors, and the outcome there |
| `Arrivals.SentThroughArrivals` | src/client.zig:248-265 | the session goes on if and only if every message's descriptors come no later than its last byte and the budget holds what waits; then handlers have got exactly the complete messages as they were sent, and in the end nothing is left over |
| `Arrivals.LateDescriptorEndsRun` | src/client.zig:248-265 | otherwise, within the budget, the run ends with `Empty` at the first message whose descriptors are late, after all messages before it |
| `Dispatch.Context.Receive` | src/client.zig:210-241 | one message: lookup, discard for a destroyed target, or decode and handle, with every error case |
| `Dispatch.DispatchFrames` | src/client.zig:206-242 | the loop delivers the messages that reading the buffer directly would, in order, and stops where it must, for the reason given |
| `Dispatch.DispatchEvents` | src/client.zig:198-243 | framing, lookup, decode and handler errors and the server's fatal error close the connection, nothing else does; the count is that of handled events |
| `Dispatch.DispatchRequests` | src/dispatch.zig:14-32 | the same loop for requests, where destroyed targets are errors and errors go to the caller |
| `Receive.LaidOutIsReceived` | src/io_uring.zig:1610-1641 | whatever stands in the unused parts of its areas, a buffer laid out by the kernel gives back the control data and the payload, unless it was truncated or empty |
| `Receive.Receiver.DecodeCompletion` | src/io_uring.zig:1610-1641 | a completion that is turned away keeps no buffer, and none of the descriptors that came with it |
| `Receive.HaltReports` | src/client.zig:198-265 | however the batch loop ends, its report and what it leaves behind are those of one arrival of the session |
| `Receive.ReceivedEvents` | src/client.zig:248-265 | whatever the outcome, a receive buffer goes back once, and each descriptor that arrived is handed out, queued or closed; a readable completion is one arrival of the session that `Arrivals` is about, and a pool failure is reported only when no block or too few descriptor nodes are free; no other queue on the pool can tell |
| `Receive.ReceivedRequests` | src/dispatch.zig:54-76 | the same on the server's side |
| `Receive.ReceivedAll` | src/client.zig:579-591 | any list of receive completions of one connection, dispatched in order up to the first failure, has the outcome of the session as a function, if there is a block for the framer and free nodes for the descriptors or the budget |
| `Receive.HeardIsArriveAll` | src/client.zig:248-265 | when all of them can be read, that is `Lanes.ArriveAll` |
| `Receive.ReceivedAsSent` | src/client.zig:248-265 | from a sender's messages to a receiver's handlers through buffers, queue, framer and pools: everything is dispatched if and only if descriptors are in time and affordable, and then handlers have got exactly the complete messages as sent |
| `Client.ValidateRequest` | src/codegen.zig:1480-1517 | succeeds if and only if every object argument names a live object of its interface; otherwise the error is that of the first one that does not |
| `Client.SendRequest` | src/client.zig:32-54 | an object is retired only after the whole frame is queued; a failure at any point leaves queue and namespace alone |
| `Client.DecodeEvent` | src/client.zig:56-78 | a destructor event retires its object once it is decoded; a failure at any point leaves descriptor queue and namespace alone |
| `Client.RetiredKeepsLanes` | src/client.zig:219-223 | later events to a retired client object are dropped with exactly their descriptors and without a handler; a retired server object is unknown |
| `Debug.NeedlesAreBorderless` | src/debug.zig:121-122 | neither needle has a border |
| `Debug.RestartIsRight` | src/debug.zig:146-148 | for a borderless needle, restarting at one or zero keeps the longest partial match |
| `Debug.Match` | src/debug.zig:139-150 | true exactly at the byte that completes the needle for the first time |
| `Debug.EnvironmentParser.Consume` | src/debug.zig:101-125 | either decides what the whole block would, whatever follows, or keeps exactly what matters of the entry in progress |
| `Debug.EnvironmentParser.Finish` | src/debug.zig:127-130 | the last entry may lack its terminator |
| `Debug.DetectLaunchEnvironment` | src/debug.zig:66-77 | for every block and every way of reading it, the value of the first matching entry decides, or tracing is disabled |
| `Statechart.Reach` | src/statechart.zig:11-30 | terminates, never writes past its queue, and marks exactly the reflexive-transitive closure of accepted inputs |
| `Statechart.RoomForAnother` | src/statechart.zig:14-26 | a queue of distinct bytes has room for a byte it does not hold |
| `Statechart.Successors` | src/statechart.zig:32-47 | the states of the accepted inputs, in the order of the inputs |
| `Statechart.AcceptedIsSteps` | src/statechart.zig:32-47 | those are exactly the one-step successors |
| `Statechart.Members` | src/statechart.zig:49-59 | fills the output with the members of the set |
| `Statechart.MembersOfIsExact` | src/statechart.zig:49-59 | in increasing order, each once, and no others |

## Left out

- Transmit.Queue: block chains and snapshots of `src/tx.zig` are not part of this model; a queue is its bytes and descriptors, and a send covers any non-empty prefix of the bytes.
- Blocks.SharedBlocks.Link: block chains are used by the transmit queue only; that they stay disjoint is proved for descriptor chains.
- Pool.SharedFds.EnsureAvailable: allocation failure is a choice of the environment at every growth, and nodes are elements of one sequence instead of separately allocated records.
- Driver.Reactor.PrepareDeferredReceives: other connections in the FIFO are dropped or armed as the environment chooses; only this connection's entry is followed. The list is a sequence, not links in records.
- Driver.Reactor.DestroyPeer: the actor's framer and received descriptors are passed to it, because this model keeps them beside the actor; the memory of the record is not modelled.
- Buffers.Standstill: a deferred receive is the connection's slot; records, generations of peers and failures other than a full submission queue are in `Driver` and `Slots`.
- Driver.Reactor.PrepareSend: snapshot errors for descriptor scratch smaller than the descriptor budget do not occur, because `attach` sizes the scratch by the budget.
- Driver.Driver.Complete: counts of completions and events, and the `eventError` hook, are not modelled; the handler is a script of its effects on the connection.
- Dispatch.DispatchFrames: a handler decodes every event it is given with the generated decoder; a handler that ignores an event's descriptors is outside the model.
- Receive.ReceivedEvents: looking up the selected buffer is an input and giving it back never fails; `receivedEventsReactor` differs only in the sweep permission, which is in `Runs`.
- Arrivals.SentThroughArrivals: the receiver's handlers accept every message and do not ask to stop; a handler that stops leaves the rest of its buffer unread, as `Lanes.Arrive` says.
- `dispatch.events`, the variant without the destroyed-target branch, and `Roundtrip`: they add no state or branch to what is modelled.
- Client.SendRequest: handles name objects other than the display, whose retirement the source declares unreachable; ids of retired objects are not modelled beyond the tombstone.
- `src/server.zig`, object tables and id allocation, shared memory, and protocol parsing: only lookup from id to interface, version and destroyed flag is used.
- The text that `src/codegen.zig` prints, name quoting, debug lines, and constructors around the codecs: the model is of the meaning of the emitted sizers, encoders and decoders.
- Untyped nullable `new_id` arguments: the sizing emitter does not handle null there (`src/codegen.zig:1311-1322`).
- System calls, the ring itself, clocks and reading `/proc`: an arbitrary kernel answers outstanding operations.
- Concurrency: a reactor is confined to one thread by design, so interleaving happens between calls only; the atomic initialisation of tracing is not modelled.
