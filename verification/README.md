# RoboRTS in Dafny

Models of the algorithmic parts of the RoboRTS robot stack, and proofs of what they promise.

**Serial SDK.** `CrcTables`, `Checksum` and `Crc` hold the two checksums of the protocol, from table entries to what damage they
detect. `Frame` is the twelve-byte bit-packed header with commands and acknowledgements, `WireImage` some of it byte by byte. `Stream` says which frames a byte stream
contains: a scanner that restarts one byte later after every bad header and every bad checksum. `Receiver` is the parser that works
in place, with bytes under inspection at the front of one buffer and bytes to inspect again at its back, and is proved to hand on
exactly those frames; `LastByte` says of which of them its caller is told. `Link` feeds it what `Frame` packs. `PoolSpec`, `PoolLayout` and `Memory` are the memory pool: best fit in a fixed arena, and compaction in place
when no single gap is large enough. `Sessions` is the session machine as a value, with a log of everything sent and delivered;
`SessionLog`, `SessionInvariant` and `SessionRuns` say what every run of it keeps, and `SessionEffects` what each of its steps does to
the frames on the wire; `ProtocolObject` is the object that changes tables
and arena in place, each of its methods being one step of that machine.

**Localisation.** `KdTree`, `Clusters` and `HistogramTree` are the histogram tree of the particle filter with its clustering.
`Particles`, `SampleSets` and `ParticleFilter` are weights, resampling and cluster statistics on top of it; `Squares` and
`SampleFormula` hold the arithmetic of cells and of the number of samples.

**Decision.** `BehaviorSpec` and `BehaviorTree` are the behaviour tree engine with its aborts. All nodes of a tree live in one vector,
numbered parents first.

**Planning and maps.** `Grid`, `Estimates`, `AStarSearch`, `SearchOrder` and `AStar` are the grid planner. `Lines` and `Raster` are the two line walks, `Outline`,
`ColumnSort` and `Costmap` the polygon fill and what it does to the cost map.

Objects the source updates in place are classes whose methods are tied to functions of their old state. Integers are unbounded
except where width matters: sequence numbers, header fields and checksum registers have their widths, and the second limit of a
Parallel node is computed in unsigned 64-bit arithmetic. Weights and world coordinates are real numbers.

Hypotheses, stated as preconditions: pool requests are positive and the table has 3 to 255 slots; commands and acknowledgements fit the
ten bits of the length field; received commands that want an acknowledgement carry a receiver below 6; in runs of the session
machine, replacing a stored acknowledgement finds room (`SessionRuns.UnfitAckDangles` shows this is exactly what is needed, and
`SessionRuns.UnfitAckReached` that it can fail);
grid sizes keep the planner's scores below the largest 32-bit integer; the weights resampled from are one together; random numbers are at least 0 and
below 1.

Where comments of the source and its code disagree the code is modelled: a header announcing exactly its own length is
called unused there but is how acknowledgements without data travel; acknowledgement sessions are indexed by receiver; session 1
never enters the processing state before its first acknowledgement.

## Model

| member | source | states |
|---|---|---|
| `CrcTables.Table16IsEightSteps` | roborts_base/roborts_sdk/utilities/crc.h:25-55 | every one of the 256 entries of the 16-bit table is eight shift steps of the reflected polynomial 0x8005 applied to its index |
| `CrcTables.Table32IsEightSteps` | roborts_base/roborts_sdk/utilities/crc.h:58-102 | the same for the 32-bit table and the reflected polynomial of IEEE 802.3, section 3.2.9 |
| `Crc.Update16IsBitwise` | roborts_base/roborts_sdk/protocol/protocol.cpp:943-952 | the table-driven update of any register by any byte is the bit-by-bit division |
| `Crc.Update32IsBitwise` | roborts_base/roborts_sdk/protocol/protocol.cpp:954-962 | the same for 32 bits |
| `Crc.CRC16Calc` | roborts_base/roborts_sdk/protocol/protocol.cpp:964-973 | the loop computes the bit-by-bit checksum of the whole message |
| `Crc.CRC32Calc` | roborts_base/roborts_sdk/protocol/protocol.cpp:975-984 | the same for 32 bits |
| `Checksum.Residue` | roborts_base/roborts_sdk/protocol/protocol.cpp:986-1000 | for any register obeying the laws of a shift register: a message with a tail has check value zero if and only if the tail is the checksum of the rest, as it lies in memory |
| `Checksum.Burst` | roborts_base/roborts_sdk/protocol/protocol.cpp:986-1000 | two messages of one length that differ only within as many consecutive bytes as the register holds have one checksum only if they are equal |
| `Crc.Reg16Lawful` | roborts_base/roborts_sdk/protocol/protocol.cpp:943-973 | the 16-bit register obeys all these laws |
| `Crc.Reg32Lawful` | roborts_base/roborts_sdk/protocol/protocol.cpp:954-984 | the 32-bit register obeys all these laws |
| `Crc.Closed16` | roborts_base/roborts_sdk/protocol/protocol.cpp:986-992 | the header check passes exactly when the last two bytes are the checksum of those before |
| `Crc.Closed32` | roborts_base/roborts_sdk/protocol/protocol.cpp:994-1000 | the frame check passes exactly when the last four bytes are the checksum of those before |
| `Crc.Detects16` | roborts_base/roborts_sdk/protocol/protocol.cpp:964-973 | a change within two consecutive bytes always changes the 16-bit checksum |
| `Crc.Detects32` | roborts_base/roborts_sdk/protocol/protocol.cpp:975-984 | a change within four consecutive bytes always changes the 32-bit checksum |
| `Frame.HeaderRoundTrip` | roborts_base/roborts_sdk/protocol/protocol.h:36-48 | reading the bit fields of a packed header gives back every field; of the length only the ten bits that are stored |
| `Frame.PackedHeaderAccepted` | roborts_base/roborts_sdk/protocol/protocol.cpp:719-742 | a header packed by the sender is accepted exactly when it is addressed to this device or to everyone |
| `Frame.AcceptedIsPacked` | roborts_base/roborts_sdk/protocol/protocol.cpp:719-742 | any twelve bytes are accepted as a header if and only if packing the fields read from them, for this device or for everyone, gives these bytes again: no bit of a header goes unchecked |
| `Frame.FrameIsPacked` | roborts_base/roborts_sdk/protocol/protocol.cpp:744-759 | more bytes than a header are a frame if and only if they are a packed header for this device or for everyone, a payload and its checksum, as long in all as announced |
| `WireImage.HeaderOnTheWire` | roborts_base/roborts_sdk/protocol/protocol.h:36-48 | each field of a header lies in the byte and the bits the protocol puts it |
| `WireImage.StartMarkSummed` | roborts_base/roborts_sdk/protocol/protocol.cpp:943-984 | both checksums after the start mark: initial value, polynomial and order of bits |
| `WireImage.ChecksumsOnTheWire` | roborts_base/roborts_sdk/protocol/protocol.h:36-48 | numbers and checksums lie with their least significant byte first |
| `WireImage.CommandOnTheWire` | roborts_base/roborts_sdk/protocol/protocol.cpp:366-412 | of a command the id comes before the set, behind the header and before the data |
| `Frame.CommandRoundTrip` | roborts_base/roborts_sdk/protocol/protocol.cpp:354-412 | a packed command is a frame for the receiver if and only if it is addressed to it and at most 1023 bytes long, and then all fields and data are read back |
| `Frame.AckRoundTrip` | roborts_base/roborts_sdk/protocol/protocol.cpp:548-590 | the same for acknowledgements, with data and as a bare header |
| `Frame.SentIsReceived` | roborts_base/roborts_sdk/protocol/protocol.cpp:366-412 | of a packed command a scan finds nothing until its last byte is there, and then just the command, with what was sent |
| `Link.Receive` | roborts_base/roborts_sdk/protocol/protocol.cpp:665-717 | a receiver set up for the protocol and fed any bytes one by one hands on the frames a scan of all of them finds |
| `Receiver.RecvStream.Receive` | roborts_base/roborts_sdk/protocol/protocol.cpp:626-663 | the bytes of a read are fed up to the first with which the caller is told of a frame, and no further; this byte stays to be fed again by the next call |
| `Link.ReceiveInARow` | roborts_base/roborts_sdk/protocol/protocol.cpp:626-663 | frames read into one buffer are received one a call, all of them and in order, although each call but the first feeds the last byte of the frame before once more |
| `LastByte.EndsIncremental` | roborts_base/roborts_sdk/protocol/protocol.cpp:665-717 | whether a stream ends in a frame depends on the bytes left over from it and the next one alone |
| `LastByte.EndsMeans` | roborts_base/roborts_sdk/protocol/protocol.cpp:665-759 | the frame a stream ends in is the last one of its scan, is made up of its last bytes, and is not found without the last of them |
| `LastByte.FoundUntold` | roborts_base/roborts_sdk/protocol/protocol.cpp:665-686 | not every frame handed on is told of: an intact frame inside a damaged one, with bytes behind it that make up none, is found with the last byte of the damaged one while the caller is told nothing |
| `Link.Transfer` | roborts_base/roborts_sdk/protocol/protocol.cpp:665-759 | a packed command fed byte by byte to a fresh receiver is handed on once, unchanged, with its last byte and not before, and fields and data are read back |
| `Frame.DamagedFramePassed` | roborts_base/roborts_sdk/protocol/protocol.cpp:744-759 | a frame damaged within four consecutive bytes behind its header does not keep the intact frame behind it from being found, whatever follows, as long as no header arises among its bytes by chance |
| `Frame.DamagedFrameRejected` | roborts_base/roborts_sdk/protocol/protocol.cpp:744-759 | damage within four consecutive bytes of an intact frame never leaves an intact frame |
| `Frame.DamagedHeaderRejected` | roborts_base/roborts_sdk/protocol/protocol.cpp:719-742 | damage within two consecutive bytes of an accepted header never leaves an accepted header |
| `Frame.ShortHeaderBlinds` | roborts_base/roborts_sdk/protocol/protocol.cpp:704-742 | a header announcing less than twelve bytes is accepted, and hides the next 4085 bytes whatever they contain |
| `Stream.Incremental` | roborts_base/roborts_sdk/protocol/protocol.cpp:665-717 | scanning a stream in two instalments, keeping only undecided bytes in between, finds the frames of the whole stream |
| `Stream.RestWaits` | roborts_base/roborts_sdk/protocol/protocol.cpp:704-717 | what is kept after a scan is undecided and holds no frame to be found again |
| `Stream.Resynchronise` | roborts_base/roborts_sdk/protocol/protocol.cpp:719-759 | a frame is found behind any noise in which all that starts is rejected, be it a bad header or a whole frame with a good header that is not intact; whatever follows, just the last eleven bytes of the frame stay in play |
| `Stream.RejectedCostsOneByte` | roborts_base/roborts_sdk/protocol/protocol.cpp:719-759 | a bad header, or a whole frame that is not intact, is dropped by one byte, and nothing else is |
| `Stream.NoHeaderIsQuiet` | roborts_base/roborts_sdk/protocol/protocol.cpp:719-742 | noise in which no header starts, not even one running into the frame, is of this kind whatever follows |
| `Stream.DamageIsPassed` | roborts_base/roborts_sdk/protocol/protocol.cpp:744-759 | a frame with a good header and a damaged body, in front of an intact frame, costs nothing but itself |
| `Stream.FindsAllFrames` | roborts_base/roborts_sdk/protocol/protocol.cpp:665-759 | any sequence of frames, each behind such noise, damaged frames included, is parsed into exactly these frames in order |
| `Stream.FramesStand` | roborts_base/roborts_sdk/protocol/protocol.cpp:665-759 | all that is found are frames of the format standing in the stream, one behind the other, overlapping in at most eleven bytes |
| `Stream.DecidedAtItsLength` | roborts_base/roborts_sdk/protocol/protocol.cpp:704-742 | an accepted header is always decided about once as many bytes have arrived as it announces if and only if it announces at least its own length |
| `Stream.FoundAtLastByte` | roborts_base/roborts_sdk/protocol/protocol.cpp:704-759 | a frame is reported at its last byte and at none before |
| `Stream.ShortHeaderHides` | roborts_base/roborts_sdk/protocol/protocol.cpp:690-717 | the exact extent of the blind spot behind a header that announces too little |
| `Receiver.RecvStream.ByteHandler` | roborts_base/roborts_sdk/protocol/protocol.cpp:665-686 | the in-place parser with its reuse region at the back of the same buffer: after every byte the frames handed on since the start and the bytes kept are those of a scan of the whole input; the caller is told of a frame if and only if it ends with this byte and the application gets it; it terminates |
| `Receiver.RecvStream.StreamHandler` | roborts_base/roborts_sdk/protocol/protocol.cpp:688-702 | one byte taken in leaves the frames still to be found in both regions unchanged, and the regions apart; overflow included |
| `Receiver.RecvStream.CheckStream` | roborts_base/roborts_sdk/protocol/protocol.cpp:704-717 | whatever is decided, delivered frames and both regions together amount to the same scan |
| `Receiver.RecvStream.VerifyHeader` | roborts_base/roborts_sdk/protocol/protocol.cpp:719-742 | the same at the twelfth byte: kept, handed on, or shifted by one |
| `Receiver.RecvStream.VerifyData` | roborts_base/roborts_sdk/protocol/protocol.cpp:744-759 | the same at the announced length: handed on, or split into head and reuse region; the work left gets less |
| `Receiver.RecvStream.PrepareStream` | roborts_base/roborts_sdk/protocol/protocol.cpp:907-914 | the last eleven bytes move to the front; bytes waiting at the back are untouched |
| `Receiver.RecvStream.ShiftStream` | roborts_base/roborts_sdk/protocol/protocol.cpp:916-923 | the oldest byte goes; bytes waiting at the back are untouched |
| `Receiver.RecvStream.ReuseStream` | roborts_base/roborts_sdk/protocol/protocol.cpp:925-940 | all bytes but the oldest survive, divided between the two regions in order, though the copy runs inside one buffer |
| `PoolSpec.FirstFreeIsLowest` | roborts_base/roborts_sdk/utilities/memory_pool.h:212-241 | the slot handed out is the lowest free one, and none only when none is free |
| `PoolSpec.RequestGranted` | roborts_base/roborts_sdk/utilities/memory_pool.h:118-141 | a request is granted if and only if it is not larger than a block may be, fits the arena beside the bytes held and finds a slot, and then in the lowest one |
| `PoolLayout.BubbledIsChain` | roborts_base/roborts_sdk/utilities/memory_pool.h:152-165 | the bubble sort puts the blocks in use into address order, one behind the other from end mark to end mark, and loses none |
| `PoolLayout.TightestFits` | roborts_base/roborts_sdk/utilities/memory_pool.h:167-191 | the gap remembered is the tightest of all free stretches of the arena that are long enough, the lowest of several; with none remembered there is none |
| `PoolLayout.Accounted` | roborts_base/roborts_sdk/utilities/memory_pool.h:127-141 | the gaps in address order add up to the arena less the bytes held |
| `PoolLayout.SlidGap` | roborts_base/roborts_sdk/utilities/memory_pool.h:193-210 | once the blocks up to the recorded one are pushed together, the gap behind it is the sum of all gaps up to there |
| `PoolLayout.SlidIsPushedDown` | roborts_base/roborts_sdk/utilities/memory_pool.h:193-225 | after packing every block below the new one lies right behind another, every block above it has not moved, and none has moved by as much as was asked for: this leaves one arrangement only |
| `PoolLayout.SlideKeepsContents` | roborts_base/roborts_sdk/utilities/memory_pool.h:198-209 | moving one block down, overlap included, changes no block's bytes and keeps blocks apart |
| `PoolLayout.PlaceInGap` | roborts_base/roborts_sdk/utilities/memory_pool.h:212-239 | a block put into a gap is one more block of the layout and changes no other |
| `PoolLayout.FirstPlacement` | roborts_base/roborts_sdk/utilities/memory_pool.h:143-150 | the shortcut for an empty pool agrees with the general rule |
| `Memory.CollectUsed` | roborts_base/roborts_sdk/utilities/memory_pool.h:127-135 | the indices of the blocks in use and the bytes they hold |
| `Memory.SortByPointer` | roborts_base/roborts_sdk/utilities/memory_pool.h:152-165 | the in-place sort of the index array is the bubble sort of its specification |
| `Memory.FindGap` | roborts_base/roborts_sdk/utilities/memory_pool.h:167-191 | the loop finds the lowest of the tightest gaps, and the first position up to which the gaps together suffice whenever all of them do |
| `Memory.MemoryPool.constructor` | roborts_base/roborts_sdk/utilities/memory_pool.h:67-85 | an empty pool with both end marks |
| `Memory.MemoryPool.FreeMemory` | roborts_base/roborts_sdk/utilities/memory_pool.h:90-102 | exactly one block goes, except that the end marks and no block at all are left alone |
| `Memory.MemoryPool.Compact` | roborts_base/roborts_sdk/utilities/memory_pool.h:193-210 | after pushing blocks together every block still holds its bytes |
| `Memory.MemoryPool.Place` | roborts_base/roborts_sdk/utilities/memory_pool.h:212-241 | the new block comes into the lowest free slot behind the chosen block, or nothing changes |
| `Memory.MemoryPool.AllocMemory` | roborts_base/roborts_sdk/utilities/memory_pool.h:108-242 | a request succeeds if and only if it respects both limits, the bytes held and asked for fit together and a slot is free, however the free bytes are scattered; every live block keeps its bytes; without need nothing moves and the block starts at the lowest of the tightest gaps; with need no more blocks are pushed down than it takes |
| `Sessions.FirstIdle` | roborts_base/roborts_sdk/protocol/protocol.cpp:283-290 | the automatic session taken is the lowest one not in use, and none only when all are in use |
| `SessionLog.TransmissionsBounded` | roborts_base/roborts_sdk/protocol/protocol.cpp:80-121 | in any legal log a command with a positive retry time is transmitted at most that often |
| `SessionLog.NoDuplicateDelivery` | roborts_base/roborts_sdk/protocol/protocol.cpp:804-898 | in any legal log two deliveries on a session from 2 to 31 have an acknowledgement between them, and the later number differs from the acknowledged one |
| `SessionLog.EndsForAReason` | roborts_base/roborts_sdk/protocol/protocol.cpp:80-121 | in any legal log a session ends just after its acknowledgement, or after exactly as many transmissions as its positive retry time |
| `SessionLog.NumbersDiffer` | roborts_base/roborts_sdk/protocol/protocol.cpp:485-488 | in any legal log two commands sent one after the other on one session have different numbers |
| `SessionLog.IdleMeans` | roborts_base/roborts_sdk/protocol/protocol.cpp:821-837 | what is read from the log as idle: nothing acknowledged under the key and, but for session 1, nothing delivered |
| `SessionLog.UsingMeans` | roborts_base/roborts_sdk/protocol/protocol.cpp:861-869 | what is read from the log as using: nothing delivered since the last acknowledgement |
| `SessionLog.LifeMeans` | roborts_base/roborts_sdk/protocol/protocol.cpp:283-315 | what is read from the log as waiting: opened, and not closed since |
| `SessionRuns.SendKeepsInv` | roborts_base/roborts_sdk/protocol/protocol.cpp:341-539 | sending keeps slots owned by one session each and the log legal |
| `SessionRuns.AckStepKeepsInv` | roborts_base/roborts_sdk/protocol/protocol.cpp:541-600 | so does acknowledging, replaced acknowledgement included |
| `SessionRuns.TimeoutKeepsInv` | roborts_base/roborts_sdk/protocol/protocol.cpp:80-121 | so does a timeout: repeated as the very same bytes, or given up |
| `SessionRuns.HandleKeepsInv` | roborts_base/roborts_sdk/protocol/protocol.cpp:761-904 | so does every received frame |
| `SessionRuns.StepKeepsInv` | roborts_base/roborts_sdk/protocol/protocol.cpp:341-600 | every enabled step can be taken and keeps the invariant |
| `SessionRuns.RunsAreSafe` | roborts_base/roborts_sdk/protocol/protocol.cpp:255-338 | after any run every pool slot in use belongs to exactly one waiting command or stored acknowledgement, and no event was illegal when it happened |
| `SessionRuns.RunsRetryAtMost` | roborts_base/roborts_sdk/protocol/protocol.cpp:95-107 | in any run no command is transmitted more often than its positive retry time |
| `SessionRuns.RunsDeliverOnce` | roborts_base/roborts_sdk/protocol/protocol.cpp:821-898 | in any run no command of sessions 2 to 31 is delivered twice without an acknowledgement in between |
| `SessionRuns.RunsEndForAReason` | roborts_base/roborts_sdk/protocol/protocol.cpp:95-107 | in any run a command is given up only after exactly as many transmissions as its positive retry time, or because it was just acknowledged |
| `SessionRuns.RunsNumbersDiffer` | roborts_base/roborts_sdk/protocol/protocol.cpp:485-488 | in any run two commands sent one after the other on one session have different numbers |
| `SessionEffects.CommandSent` | roborts_base/roborts_sdk/protocol/protocol.cpp:341-539 | a command sent goes out as one frame from which the other side reads its set, id, receiver and data; it is kept as sent under a number other than the last of its session, to be sent once on session 1 and as often as asked on the lowest free automatic one; without a session nothing is kept |
| `SessionEffects.SendingFails` | roborts_base/roborts_sdk/protocol/protocol.cpp:341-365 | sending fails if and only if there is no data, no session of the mode or no room, and then nothing has happened |
| `SessionEffects.TimeoutDoes` | roborts_base/roborts_sdk/protocol/protocol.cpp:88-117 | a timeout transmits the waiting command once more as it was sent if its retry time is zero or not used up, and ends it otherwise; all other sessions live on unchanged |
| `SessionEffects.TransmittedExactly` | roborts_base/roborts_sdk/protocol/protocol.cpp:88-117 | a command sent with a positive retry time and never acknowledged is transmitted exactly that often, and its session is free with the timeout after the last |
| `SessionEffects.CommandDelivered` | roborts_base/roborts_sdk/protocol/protocol.cpp:821-898 | a command that wants an acknowledgement is delivered if and only if its key is idle or acknowledged under another number; the log then grows by this delivery alone |
| `SessionEffects.MessageDelivered` | roborts_base/roborts_sdk/protocol/protocol.cpp:806-819 | a command on session 0 is always delivered, and leaves nothing but that |
| `SessionEffects.AckIsSent` | roborts_base/roborts_sdk/protocol/protocol.cpp:541-600 | an acknowledgement fails only for a session that has none or for want of room once the one before is given back; it goes out as one frame from which number, session and data are read, and is from then on the answer to this number |
| `SessionRuns.RetransmissionAnswered` | roborts_base/roborts_sdk/protocol/protocol.cpp:861-869 | a command already acknowledged under its number is answered with the very bytes of that acknowledgement, which compaction has not damaged |
| `SessionRuns.RetransmissionDropped` | roborts_base/roborts_sdk/protocol/protocol.cpp:856-859 | a command still in process leaves no trace |
| `SessionRuns.AcknowledgementAccepted` | roborts_base/roborts_sdk/protocol/protocol.cpp:767-803 | an acknowledgement is accepted if and only if its session waits, whatever its number, and ends it |
| `SessionRuns.RedeliveryOnlyOnSessionOne` | roborts_base/roborts_sdk/protocol/protocol.cpp:821-837 | the frame of a command just delivered is delivered once more, when it comes again at once, if and only if its session is 1 and was never acknowledged |
| `SessionRuns.DeliveredTwice` | roborts_base/roborts_sdk/protocol/protocol.cpp:821-837 | from the tables as set up, any command for session 1 that is received twice is delivered twice |
| `SessionRuns.UnfitAckDangles` | roborts_base/roborts_sdk/protocol/protocol.cpp:317-334 | the invariant survives an acknowledgement if and only if one that replaces another respects the block limit and fits the arena with the bytes held once the other is given back: otherwise the table keeps a slot already given back |
| `SessionRuns.UnfitAckReached` | roborts_base/roborts_sdk/protocol/protocol.cpp:317-334 | a run of five acknowledgements from the tables as set up leads to a state where a sixth breaks the invariant in this way |
| `SessionRuns.ZeroRetriesForever` | roborts_base/roborts_sdk/protocol/protocol.cpp:108-112 | with retry time zero a command is transmitted again at every timeout without end |
| `SessionRuns.ZeroRetriesReached` | roborts_base/roborts_sdk/protocol/protocol.cpp:108-112 | one command sent with retry time zero, after the tables are set up, and n timeouts: n + 1 transmissions |
| `ProtocolObject.Protocol.constructor` | roborts_base/roborts_sdk/protocol/protocol.cpp:255-270 | the tables as set up, over an empty pool |
| `ProtocolObject.Protocol.AllocCMDSession` | roborts_base/roborts_sdk/protocol/protocol.cpp:272-308 | a session of the mode with a block of its own, or nothing changed |
| `ProtocolObject.Protocol.FreeCMDSession` | roborts_base/roborts_sdk/protocol/protocol.cpp:310-315 | session and block given back together |
| `ProtocolObject.Protocol.AllocACKSession` | roborts_base/roborts_sdk/protocol/protocol.cpp:317-334 | the old block goes first; on failure the table is as before but the block is gone |
| `ProtocolObject.Protocol.SendCMD` | roborts_base/roborts_sdk/protocol/protocol.cpp:341-539 | on the shared arena and in place: exactly the step of the session machine that `SessionEffects.CommandSent` and `SessionEffects.SendingFails` speak of, the packet in its block included |
| `ProtocolObject.Protocol.SendACK` | roborts_base/roborts_sdk/protocol/protocol.cpp:541-600 | exactly the acknowledgement step of the session machine that `SessionEffects.AckIsSent` speaks of, with room or without; the object stays consistent if and only if it does not give up a stored acknowledgement without finding room |
| `ProtocolObject.Protocol.CheckSession` | roborts_base/roborts_sdk/protocol/protocol.cpp:88-117 | one look at a session is the timeout step that `SessionEffects.TimeoutDoes` speaks of, or nothing |
| `ProtocolObject.Protocol.AutoRepeatSendCheck` | roborts_base/roborts_sdk/protocol/protocol.cpp:86-118 | one round of the retry loop is a run of timeouts, one for each session overdue and in their order: each of these that waits is transmitted once more or, with its retry time used up, ended, and no other session is |
| `ProtocolObject.Protocol.ContainerHandler` | roborts_base/roborts_sdk/protocol/protocol.cpp:761-904 | a received frame does what the session machine says, deliveries as `SessionEffects.CommandDelivered` says, and the application gets the fields and data of the frame if it carries its fixed fields |
| `ProtocolObject.PackedLongEnough` | roborts_base/roborts_sdk/protocol/protocol.cpp:782-789 | every packed command carries its fixed fields, and a packed acknowledgement does if and only if it has data: a bare one is a frame for the receiver all the same |
| `ProtocolObject.CommandHanded` | roborts_base/roborts_sdk/protocol/protocol.cpp:806-853 | of a packed command the application is given sender, receiver, session, number, set, id and data as they were packed |
| `ProtocolObject.AckHanded` | roborts_base/roborts_sdk/protocol/protocol.cpp:767-795 | of a packed acknowledgement with data it is given these and, as set and id, those of the command that waits on its session |
| `ProtocolObject.AnswerIsFiled` | roborts_base/roborts_sdk/protocol/protocol.cpp:767-803 | an acknowledgement with data for the session of a command just sent, under whatever number, is accepted, handed over as one to this very command, and ends it |
| `KdTree.InsertKeepsInv` | roborts_localization/amcl/particle_filter/particle_filter_kdtree.cpp:92-155 | after a split every leaf is still where the pivots lead its key |
| `KdTree.InsertAddsWeight` | roborts_localization/amcl/particle_filter/particle_filter_kdtree.cpp:92-155 | insertion adds to the weight of its own key and leaves every other key's weight alone |
| `KdTree.FindNode` | roborts_localization/amcl/particle_filter/particle_filter_kdtree.cpp:174-191 | a leaf found is a leaf of that very key |
| `HistogramTree.MoreRepresents` | roborts_localization/amcl/particle_filter/particle_filter_kdtree.cpp:92-155 | leaf count is the number of distinct keys, node count is twice that less one, each key's weight is the sum inserted under it |
| `HistogramTree.CellIs` | roborts_localization/amcl/particle_filter/particle_filter_kdtree.cpp:84-90 | a key is the cell of a pose if and only if in each of the three coordinates the pose lies between that multiple of the cell size and the next |
| `Squares.SquareOf` | roborts_localization/amcl/particle_filter/particle_filter_kdtree.cpp:84-90 | the quotient rounded down is the one stretch of a divided line that holds the number |
| `HistogramTree.ParticleFilterKDTree.InsertNode` | roborts_localization/amcl/particle_filter/particle_filter_kdtree.cpp:92-155 | the in-place recursion from any node is the insertion of its specification |
| `HistogramTree.ParticleFilterKDTree.InsertPose` | roborts_localization/amcl/particle_filter/particle_filter_kdtree.cpp:84-90 | after any insertions the tree is the map from cells to summed weights, the cell of a pose being the one whose box it lies in; as many insertions as samples never exceed the node limit |
| `HistogramTree.ParticleFilterKDTree.ClusterNode` | roborts_localization/amcl/particle_filter/particle_filter_kdtree.cpp:232-259 | the recursive flood fill labels everything linked to its start and leaves nothing adjacent unlabelled; it terminates by the number of unlabelled leaves |
| `HistogramTree.ParticleFilterKDTree.Cluster` | roborts_localization/amcl/particle_filter/particle_filter_kdtree.cpp:197-230 | two keys get one label if and only if a chain of inserted keys, each step at most 1 in every coordinate, links them; labels are exactly 0 to n - 1; the tree is otherwise unchanged |
| `HistogramTree.ParticleFilterKDTree.GetCluster` | roborts_localization/amcl/particle_filter/particle_filter_kdtree.cpp:157-172 | the label of the cell whose box the pose lies in, -1 if no pose of that cell was inserted |
| `Clusters.LabelsAreClusters` | roborts_localization/amcl/particle_filter/particle_filter_kdtree.cpp:197-259 | same label if and only if linked |
| `Clusters.ChainKeepsLabel` | roborts_localization/amcl/particle_filter/particle_filter_kdtree.cpp:232-259 | along a chain of keys the label cannot change |
| `Particles.ScaledToOne` | roborts_localization/amcl/particle_filter/particle_filter.cpp:340-347 | weights divided by a number are one together exactly when it was their total |
| `Particles.HitIsPositive` | roborts_localization/amcl/particle_filter/particle_filter.cpp:411-419 | a sample a random number falls on has positive weight |
| `Particles.HitIsUnique` | roborts_localization/amcl/particle_filter/particle_filter.cpp:411-414 | no random number falls on two samples |
| `Particles.GroupedNext` | roborts_localization/amcl/particle_filter/particle_filter.cpp:204-212 | one more sample counted in its cluster keeps all cluster counts and weights equal to those of their members, and their sums equal to the totals |
| `ParticleFilter.Pick` | roborts_localization/amcl/particle_filter/particle_filter.cpp:411-415 | when the weights are one together, the search finds a sample for every random number below one |
| `ParticleFilter.Sums` | roborts_localization/amcl/particle_filter/particle_filter.cpp:383-389 | the cumulative table |
| `ParticleFilter.ParticleFilter.constructor` | roborts_localization/amcl/particle_filter/particle_filter.cpp:47-89 | the filter as asked for, with both sets beginning with weights that are one together and no averages yet |
| `ParticleFilter.ParticleFilter.ResampleLimit` | roborts_localization/amcl/particle_filter/particle_filter.cpp:305-334 | the wanted number kept between the two bounds; the upper bound for at most one cell |
| `ParticleFilter.ParticleFilter.UpdateOmega` | roborts_localization/amcl/particle_filter/particle_filter.cpp:336-367 | weights are one together afterwards exactly when the total passed in was the true one, or was not positive; the running averages take the mean weight in |
| `ParticleFilter.ParticleFilter.DrawSamples` | roborts_localization/amcl/particle_filter/particle_filter.cpp:391-438 | drawing stops at the first size that exceeds the limit for the cells occupied so far, or when the set is full; each pose is a fresh one or that of the sample its random number falls on |
| `ParticleFilter.ParticleFilter.UpdateResample` | roborts_localization/amcl/particle_filter/particle_filter.cpp:369-456 | weights are again equal and one together, the size is above the minimum or the maximum, the clusters partition the samples, and the set drawn from is unchanged; no pose is fresh while the fast average is not below the slow one |
| `ParticleFilter.FreshWhenFalling` | roborts_localization/amcl/particle_filter/particle_filter.cpp:397-405 | the chance of a fresh pose is positive exactly when the fast average lies below the slow one; it is the part by which it does, and at most one |
| `ParticleFilter.ParticleFilter.AveragedBetween` | roborts_localization/amcl/particle_filter/particle_filter.cpp:350-361 | a running average stays between its old value and the new one, and the first value is taken as it is |
| `ParticleFilter.ParticleFilter.WantedGrows` | roborts_localization/amcl/particle_filter/particle_filter.cpp:305-334 | the more cells are occupied, the more samples are wanted, for any square root |
| `ParticleFilter.ParticleFilter.WantedExamples` | roborts_localization/amcl/particle_filter/particle_filter.cpp:305-334 | the number wanted for three, nine and nineteen cells |
| `ParticleFilter.ParticleFilter.NothingFresh` | roborts_localization/amcl/particle_filter/particle_filter.cpp:391-420 | with no chance of a fresh pose every pose drawn is that of a sample with positive weight |
| `ParticleFilter.ParticleFilter.InitByModel` | roborts_localization/amcl/particle_filter/particle_filter.cpp:458-479 | equal weights that are one together, all samples in the tree and in clusters |
| `SampleSets.FewClusters` | roborts_localization/amcl/particle_filter/particle_filter.cpp:201-203 | there are never more clusters than samples, so none is skipped |
| `SampleSets.LabelsInRange` | roborts_localization/amcl/particle_filter/particle_filter.cpp:194-206 | every sample has a cluster and every cluster a sample |
| `SampleSets.SampleSet.Add` | roborts_localization/amcl/particle_filter/particle_filter.cpp:403-426 | one more sample, in the set and in the histogram |
| `SampleSets.SampleSet.Divide` | roborts_localization/amcl/particle_filter/particle_filter.cpp:444-448 | every weight divided, poses and the sum of old weights known |
| `SampleSets.SampleSet.ClusterStatistics` | roborts_localization/amcl/particle_filter/particle_filter.cpp:164-216 | cluster counts and weights are those of their members and add up to all samples; exactly the first cluster_count of them have any |
| `BehaviorSpec.NothingRunsBelow` | roborts_decision/behavior_tree/behavior_node.h:79-102 | nothing runs below a node that does not run |
| `BehaviorSpec.OneRunningAction` | roborts_decision/behavior_tree/behavior_node.h:79-102 | a tree without Parallel nodes has at most one running action |
| `BehaviorSpec.AllStopped` | roborts_decision/behavior_tree/behavior_node.h:338-357 | once no child runs, all that ran below has been stopped |
| `BehaviorSpec.PriorityIsKept` | roborts_decision/behavior_tree/behavior_node.h:518-554 | in a Selector whose children but the last are conditions with priority, one tick runs the children from the first on, once each, all but the last run failed, and what that one reports is the result |
| `BehaviorSpec.TickIsPrioritised` | roborts_decision/behavior_tree/behavior_node.h:518-554 | so it is in every tick of such a Selector that TickOk describes |
| `BehaviorSpec.PreconditionDecides` | roborts_decision/behavior_tree/behavior_node.h:746-782 | a Precondition whose condition holds runs its child; one whose condition does not hold fails without running it, unless the child runs and the condition is only for its start |
| `BehaviorSpec.SequenceFromFirst` | roborts_decision/behavior_tree/behavior_node.h:607-626 | a Sequence that starts runs its children from the first on until one does not succeed |
| `BehaviorSpec.SequenceGoesOn` | roborts_decision/behavior_tree/behavior_node.h:607-626 | a Sequence that goes on runs them from the one it was at |
| `BehaviorSpec.SelectorFromFirst` | roborts_decision/behavior_tree/behavior_node.h:518-554 | a Selector that starts runs its children from the first on until one does not fail |
| `BehaviorSpec.SelectorGoesOn` | roborts_decision/behavior_tree/behavior_node.h:518-554 | a Selector that goes on looks at nothing but conditions with priority left of where it was; the first that holds takes over, and if none does it goes on where it was |
| `BehaviorSpec.ParallelFromFirst` | roborts_decision/behavior_tree/behavior_node.h:684-710 | a Parallel that starts runs its children from the first on and reports as soon as as many have succeeded as its threshold, or as many have failed as there are children beyond it |
| `BehaviorSpec.ParallelStuck` | roborts_decision/behavior_tree/behavior_node.h:684-710 | with a threshold above the number of its children a Parallel that starts never ends by itself |
| `BehaviorTree.RunSanctioned` | roborts_decision/behavior_tree/behavior_node.h:746-782 | a Precondition that runs after a tick has been let run by its condition |
| `BehaviorTree.Engine.Tick` | roborts_decision/behavior_tree/behavior_node.h:79-92 | every tick keeps: a node not running has no running child, a running Selector or Sequence runs just the child at its index, a Parallel counts what ended; the root reports what its kind prescribes; and of all Preconditions in the tree that run afterwards, those that look at their condition in every tick and those that did not run before have one that holds |
| `BehaviorTree.Engine.Stop` | roborts_decision/behavior_tree/behavior_node.h:97-102 | afterwards no node of the tree runs |
| `BehaviorTree.Engine.Run` | roborts_decision/behavior_tree/behavior_node.h:79-92 | a run keeps the tree in order, reports once to its parent and changes nothing outside its subtree but what an abort changes; what it starts below has leave to run; of every Selector run whose children but the last are conditions with priority, the children reported from the first on, failing up to the one that decided |
| `BehaviorTree.Engine.Reset` | roborts_decision/behavior_tree/behavior_node.h:97-102 | all that runs in the subtree stops, and nothing else changes |
| `BehaviorTree.Engine.OnTerminate` | roborts_decision/behavior_tree/behavior_node.h:559-576 | however a node stops, nothing runs below it afterwards |
| `BehaviorTree.Engine.OnInitialize` | roborts_decision/behavior_tree/behavior_node.h:673-679 | a node that starts begins with its first child and empty counts |
| `BehaviorTree.Engine.Reevaluation` | roborts_decision/behavior_tree/behavior_node.h:746-782 | an abort stops the branch that runs and turns the parent to this child; otherwise nothing changes; the child is let run as `BehaviorSpec.PreconditionDecides` says |
| `BehaviorTree.Engine.PreconditionUpdate` | roborts_decision/behavior_tree/behavior_node.h:323-333 | a condition lets its child run or fails, and what runs below it afterwards has leave to run |
| `BehaviorTree.Engine.SelectorUpdate` | roborts_decision/behavior_tree/behavior_node.h:518-554 | from where it goes on, the first child that takes over or the one it was at: what was run before the last report failed, no child that counts was left out, and the Selector fails only with its last child |
| `BehaviorTree.Engine.SequenceUpdate` | roborts_decision/behavior_tree/behavior_node.h:607-626 | what was run before the last report succeeded, from where the last tick stopped, and the Sequence succeeds only with its last child |
| `BehaviorTree.Engine.ParallelUpdate` | roborts_decision/behavior_tree/behavior_node.h:684-710 | each child not done runs once until a report reaches one of the limits, the second one computed in unsigned arithmetic |
| `BehaviorTree.WatchedReport` | roborts_decision/behavior_tree/behavior_node.h:746-772 | run again left of its Selector's index, a condition with priority aborts or fails |
| `BehaviorTree.CountedMore` | roborts_decision/behavior_tree/behavior_node.h:692-705 | marking a child that has ended counts it once |
| `Grid.NearIsShift` | roborts_planning/global_planner/a_star_planner/a_star_planner.cpp:279-321 | a neighbour is at most one column and one row away, without wrapping around a row's end |
| `Grid.CostsAreRight` | roborts_planning/global_planner/a_star_planner/a_star_planner.cpp:249-266 | the price of a step tells straight from diagonal for all neighbours if and only if the grid is not two columns wide or has a single row |
| `Grid.PathIsPriced` | roborts_planning/global_planner/a_star_planner/a_star_planner.cpp:195-210 | where the price of a step is right, a path costs ten a step, four more a diagonal one, and what every cell entered costs |
| `Grid.ClosedHoldsPath` | roborts_planning/global_planner/a_star_planner/a_star_planner.cpp:172-213 | what holds at the start and passes to every accessible neighbour holds along every path |
| `Estimates.EstimateWithinPrice` | roborts_planning/global_planner/a_star_planner/a_star_planner.cpp:268-277 | no step is estimated above its price if and only if the heuristic factor is below 1.1, and below 0.75 where there are diagonal steps: with the configured factor of one the estimate is too high for them |
| `Estimates.EstimateCounts` | roborts_planning/global_planner/a_star_planner/a_star_planner.cpp:268-277 | at a factor of one the estimate is nothing at the goal, something elsewhere, and each straight step takes ten off or adds ten |
| `AStarSearch.PopKeepsInv` | roborts_planning/global_planner/a_star_planner/a_star_planner.cpp:172-176 | closing a waiting cell keeps scores exact, the open list equal to the waiting cells, and pushes at most one per cell |
| `AStarSearch.RelaxKeepsInv` | roborts_planning/global_planner/a_star_planner/a_star_planner.cpp:195-210 | so does offering a neighbour a way |
| `AStarSearch.AllReachedAreClosed` | roborts_planning/global_planner/a_star_planner/a_star_planner.cpp:172-213 | with nothing left to expand every reachable cell has been closed |
| `AStarSearch.ParentIsCloser` | roborts_planning/global_planner/a_star_planner/a_star_planner.cpp:235-237 | scores strictly fall along parents and parents are closed neighbours |
| `AStar.TopIsMinimum` | roborts_planning/global_planner/a_star_planner/a_star_planner.h:75-79 | the entry taken has the smallest f score of all waiting cells, because keys never change after the push |
| `AStar.AStarPlanner.GetNineNeighbors` | roborts_planning/global_planner/a_star_planner/a_star_planner.cpp:279-321 | exactly the neighbours inside the grid, each once |
| `AStar.AStarPlanner.Relax` | roborts_planning/global_planner/a_star_planner/a_star_planner.cpp:197-210 | a better score and a parent if this way is cheaper; a push at the first time only |
| `AStar.AStarPlanner.Expand` | roborts_planning/global_planner/a_star_planner/a_star_planner.cpp:182-211 | all neighbours handled, nothing closed meanwhile, and every cell stands as all offers of the closed cells have left it |
| `AStar.AStarPlanner.Take` | roborts_planning/global_planner/a_star_planner/a_star_planner.cpp:173-175 | a waiting cell of smallest f score is closed; the cells closed so far account for all that is known |
| `AStar.AStarPlanner.Rebuild` | roborts_planning/global_planner/a_star_planner/a_star_planner.cpp:221-246 | the way back along parents, turned around, is a route from start to goal priced like the goal; it terminates |
| `AStar.AStarPlanner.SearchPath` | roborts_planning/global_planner/a_star_planner/a_star_planner.cpp:144-247 | a route is returned if and only if the goal can be reached over neighbouring cells below the inaccessible cost; its steps are true neighbour steps, its summed price is the score of the goal; at most as many rounds as cells; and every score, parent and f score left behind is accounted for by the order in which cells were closed |
| `SearchOrder.GotMeans` | roborts_planning/global_planner/a_star_planner/a_star_planner.cpp:195-210 | a cell is known once a neighbour is closed; its score is then the least its closed neighbours offer, its parent the first to offer it, and its f score the very first offer and the estimate together |
| `SearchOrder.PopInTurn` | roborts_planning/global_planner/a_star_planner/a_star_planner.cpp:172-176 | closing a waiting cell of smallest f score keeps the account: each closed cell had the least f score of all known and not closed then, and stands as the cells closed before it left it |
| `SearchOrder.RelaxInTurn` | roborts_planning/global_planner/a_star_planner/a_star_planner.cpp:195-210 | so does offering a neighbour a way: it then stands as one closed cell more has left it |
| `SearchOrder.AllOffered` | roborts_planning/global_planner/a_star_planner/a_star_planner.cpp:178-211 | once every neighbour has had the offer, all cells stand as one closed cell more has left them |
| `SearchOrder.ClosedOverBest` | roborts_planning/global_planner/a_star_planner/a_star_planner.cpp:172-213 | no cell closed earlier offers a cheaper way to a neighbour closed later |
| `Lines.NearestUnique` | roborts_costmap/include/costmap/costmap_2d.h:422-436 | only one side offset is the nearest to the ideal line |
| `Lines.LineEnds` | roborts_costmap/include/costmap/costmap_2d.h:397-415 | a line begins at its first point and ends exactly at its last |
| `Lines.LineTouches` | roborts_costmap/include/costmap/costmap_2d.h:422-436 | each cell touches the one before |
| `Lines.LineInBox` | roborts_costmap/include/costmap/costmap_2d.h:422-436 | no cell lies outside the box of the two ends |
| `Lines.LineIsStraight` | roborts_costmap/include/costmap/costmap_2d.h:422-436 | no cell is further than half a cell from the ideal line |
| `Lines.HalfwayGoesFar` | roborts_costmap/include/costmap/costmap_2d.h:422-436 | halfway between two cells the one further from the first point is taken |
| `Lines.LineCrosses` | roborts_costmap/include/costmap/costmap_2d.h:422-436 | every column between the ends holds a cell of the line |
| `Raster.FastLineIterator.constructor` | roborts_decision/example_behavior/line_iterator.h:28-60 | the iterator starts on the first cell of the line |
| `Raster.FastLineIterator.Advance` | roborts_decision/example_behavior/line_iterator.h:66-77 | as long as it is valid the iterator stands on the cell of the line its count says |
| `Raster.Iterate` | roborts_decision/example_behavior/line_iterator.h:62-77 | the usual loop visits the cells of the line, all and in order |
| `Raster.Bresenham` | roborts_costmap/include/costmap/costmap_2d.h:421-436 | started with half the length rounded down, the walk visits the offsets of the nearest cells; cut short it visits a prefix |
| `Raster.RaytraceLine` | roborts_costmap/include/costmap/costmap_2d.h:394-415 | the offsets visited are the cells of the line in order, inside the map, never around a row's end |
| `Raster.SameCells` | roborts_costmap/include/costmap/costmap_2d.h:394-415 | both walks visit the same cells in the same order, though one starts its error at half the length rounded down and the other at half exactly |
| `Raster.IndexRoundTrip` | roborts_costmap/include/costmap/costmap_2d.h:186-199 | a cell on the map is an index inside it, and back |
| `Outline.TwoCrossings` | roborts_costmap/src/costmap_2d.cpp:269-278 | a way that ends where it began crosses each column it reaches by two of its sides |
| `Outline.TwoPerColumn` | roborts_costmap/src/costmap_2d.cpp:269-278 | every column from the outline's first to its last holds at least two of its entries |
| `ColumnSort.SwapLowers` | roborts_costmap/src/costmap_2d.cpp:286-296 | every exchange of the back-stepping sort lowers a weight that cannot fall forever |
| `ColumnSort.FillsRegion` | roborts_costmap/src/costmap_2d.cpp:299-330 | outline and fill together are exactly the region |
| `Costmap.CellList.SortByX` | roborts_costmap/src/costmap_2d.cpp:284-296 | the back-stepping sort terminates with the same entries in column order |
| `ColumnSort.ColumnFound` | roborts_costmap/src/costmap_2d.cpp:303-322 | in a sorted list a column with two entries is read as its lowest and highest entry, and the next begins behind it, though the list grows at its end |
| `ColumnSort.FillFromFills` | roborts_costmap/src/costmap_2d.cpp:299-330 | column after column, what the fill adds is what lies under a sorted outline with two entries in each column |
| `Costmap.CellList.Column` | roborts_costmap/src/costmap_2d.cpp:307-322 | two entries whatever they are, widened by those behind them in the column, as specified for any list |
| `Costmap.CellList.FillColumns` | roborts_costmap/src/costmap_2d.cpp:299-330 | for any list the columns filled one after the other until the entries run out; in a sorted list with two entries in each column, every column gets the cells from its lowest entry up to below its highest, each once |
| `Costmap.Costmap2D.World2Map` | roborts_costmap/src/costmap_2d.cpp:186-196 | the cell whose square holds a point, if and only if it is on the map |
| `Costmap.Costmap2D.GetConvexEdge` | roborts_costmap/src/costmap_2d.cpp:269-278 | the cells of all sides and of the one back to the first corner |
| `Costmap.Costmap2D.FillConvexCells` | roborts_costmap/src/costmap_2d.cpp:280-331 | for any list and any polygon of three corners or more: list and outline sorted by column and then filled; exactly the region of all of them if each column holds two entries, as it does when the list was empty; nothing for fewer corners |
| `Costmap.OutlineTwoEach` | roborts_costmap/src/costmap_2d.cpp:269-278 | the outline of a polygon holds two entries in each of its columns |
| `Costmap.FillingIsFill` | roborts_costmap/src/costmap_2d.cpp:299-330 | a list with two entries in each column is filled to its region |
| `Costmap.ForeignCellSpoils` | roborts_costmap/src/costmap_2d.cpp:299-330 | a single cell already listed in the column left of a polygon, and higher than it, makes the fill leave the region |
| `Costmap.Costmap2D.SetConvexRegionCost` | roborts_costmap/src/costmap_2d.cpp:251-267 | exactly the cells of the region get the cost; if a corner is off the map nothing changes |

## Left out

- Receiver.RecvStream.Receive: the device, and a read that fills the whole buffer: with the flag for large data set, as it is, the
  source copies such a read behind the bytes under inspection without looking at it, in a branch marked as unfinished.
- Receiver.RecvStream.ByteHandler: whether the application gets a frame is decided by the session machine, a separate object here; to
  the parser its answers are any sequence of truth values.
- Races on the in-use flags read without the lock, threads, clocks and sleeps: every locked region is one step, a timeout is a step
  that may happen at any time.
- ProtocolObject.Protocol.ContainerHandler: of a frame shorter than its fixed fields, a bare acknowledgement for instance, the source
  copies a number of bytes that wraps below zero, which has no defined outcome; here the step is taken and no container handed over.
- Take, ReceivePool and the circular buffers between receiver and application.
- ProtocolObject.Protocol.SendCMD: the device's answer to a write does not show in the result of the source either and is not modelled.
- Pointers: slots of the pool are numbers, and a session refers to its block by slot.
- HistogramTree.ParticleFilterKDTree.constructor: the null entries the source leaves in its node vector until the first clearing;
  every use in the source clears first. Memory reclamation of the tree is left out too.
- ParticleFilter.ParticleFilter.ResampleLimit: the square root is a parameter, nothing is assumed of it; rounding of floating point
  numbers is not modelled.
- SampleSets.SampleSet.ClusterStatistics: means and covariances of clusters (trigonometry and logarithms).
- UpdateConverged, the Gaussian initialisations and the laser and odometry models.
- Behaviour trees that are not trees: children are distinct and parents are set when children are added. Conditions and actions are
  answers of the environment that stay the same during one tick.
- AStar.AStarPlanner.SearchPath: routes are cells, not poses; the conversion back to world coordinates is left out. Nothing is claimed
  about routes being cheapest: the estimate exceeds the price of diagonal steps (`Estimates.EstimateWithinPrice`) and an entry keeps its key when a cheaper way is found.
  The f score is not bounded to 32 bits. Plan's search for an accessible goal near the wanted one is left out.
- Raster.RaytraceLine: the length cap, which needs a square root; Bresenham itself is modelled with any cap.
- Costmap.Costmap2D.FillConvexCells: of a list that already holds cells and leaves a column with a single entry, it is only said that
  the result is `ColumnSort.FillFrom` of the sorted list; whether that is the region then depends on how rows happen to coincide. The
  only caller passes an empty list.
- Costmap.Costmap2D.World2Map: coordinates too large for an integer.
- Costmap layers, inflation, origin updates, footprints, executors, nodes, launch files, cameras and tracking.
