# go2cloud, modelled and verified

go2cloud copies the disks of a running machine to a receiver, block by block: 1 MB blocks are read,
hashed, encoded, compressed, framed and sent over up to seven TCP connections; the receiver decodes
them, writes them and acknowledges them; a table of (disk, offset, hash, ack, version) rows decides
what a later pass sends again. This project models that path in Dafny and proves what it does and
does not guarantee.

`dafny verify dfyconfig.toml` checks everything.

## How it is laid out

| file | part |
|---|---|
| `Wrappers.dfy`, `Words.dfy`, `Bytes.dfy`, `Protocol.dfy` | optional values, 64-bit words, octets and big-endian numbers, shared sizes |
| `BlockHash.dfy` | the 64-bit block hash and exactly what it cannot see |
| `MsgPack.dfy`, `MsgPackFormat.dfy`, `Writer.dfy` | the block message: encoder, decoder, the format on its own, the growing buffer |
| `Wire.dfy`, `Streaming.dfy`, `Session.dfy` | frames, the streaming decoder, its buffer in place |
| `Disk.dfy` | target disks as octet images, confluence of writes |
| `Receiver.dfy`, `ReceiverService.dfy` | block writer, fsync policy, responses, the receive loop |
| `QueueLog.dfy`, `SendQueue.dfy` | the send queue as a log, and the ring array with heap payloads |
| `IncSync.dfy`, `IncSyncRuns.dfy`, `LossyRuns.dfy` | an incremental pass as a step machine; passes in succession, without and with loss |
| `Convergence.dfy`, `MigrateLoop.dfy` | the convergence loop, as functions and in place |
| `Timer.dfy`, `BlockIo.dfy` | timers, cutting disks into blocks |
| `Refinement.dfy` | the pass machine's queue and deliveries against the real queue, encoding and receiver |
| `SyncSystem.dfy`, `Simulation.dfy`, `Completion.dfy` | the whole pass down to octets on the wire and the receiver's disks, its simulation by the pass machine, and that it can complete |
| `HashedSync.dfy`, `EndToEnd.dfy` | results across parts |

Modelling choices. A `uint64_t` is a number below 2^64 and every operation that can wrap is reduced
modulo 2^64. Zstd is a parameter (`Wire.Codec`) with four hypotheses on non-empty input:
decompression undoes compression, the declared content size is exact (section 3.1.1.1.4 of RFC
8878), the output is not empty, and it meets the client's own length bound; `IdentityCodecIsFaithful`
shows they can be met. SQLite is a map from (devno, offset) to rows, with one remote. The operating
system - how much a write call takes, which fsync succeeds, the clock, the live disk, `rand`,
`malloc` - is an input, so every theorem holds for all its behaviours. Fields named `visited`,
`changed`, `delivered`, `torn` and `history` only record what happened.

Where the code and its documentation differ, the model follows the code:

- The protocol document says an ACK means written and fsynced; the code acknowledges after the
  write, and sends SERVER_DONE whatever fsync returned (server/main.c:264-287).
- The header octet 0x93 is called fixmap(3); the MessagePack specification (array format family)
  assigns it to a three-element array. The model states the code's own format.
- hash.h says equal hash at equal offset means equal content. `ByteCollision` and
  `HashSeesLowBitsOnly` say exactly when that fails.
- timer.c announces reconnect before retransmit; the scan order is retransmit, reconnect, action,
  incremental.
- `CTL_INCREMENTAL_LEN` counts the terminating NUL, `CTL_END_INCREMENTAL_LEN` does not.
- queue.h returns 2 for "backpressure triggered"; the entry is queued all the same, and callers
  push it again, so blocks are sent at least once.

## Model

| member | source | states |
|---|---|---|
| `BlockHash.HashBlock` | client/hash.c:24-80 | the loop computes the lane-wise hash for every input, reading only inside it |
| `BlockHash.AbsorbAll` | client/hash.c:30-64 | the main loop stops after exactly the stripes counted by `Stripes`, each lane having taken its own words |
| `BlockHash.FmixInjective` | client/hash.c:15-22 | the final mix is a bijection on 64 bits |
| `BlockHash.LaneStepInjective` | client/hash.c:46-64 | a lane step is injective in the lane, and two words act alike exactly if they agree modulo 2^63 |
| `BlockHash.HashSeesLowBitsOnly` | client/hash.c:30-80 | inputs of one length whose consumed words agree modulo 2^63 hash alike: top bits and everything after the last stripe are free |
| `BlockHash.WordCollision` | client/hash.c:46-77 | inputs that differ in one consumed word collide if and only if the two words agree modulo 2^63 |
| `BlockHash.ByteCollision` | client/hash.c:26-77 | a one-octet change is invisible if and only if it lies after the last stripe or flips only the top bit of a word's last octet; all lengths |
| `BlockHash.TailBlindSpot` | client/hash.c:30-46 | the last 32 octets of a 1 MB block never influence its hash |
| `BlockHash.LengthShiftsHash` | client/hash.c:74-77 | from 32 octets on, inputs with the same stripes and equal consumed words differ in hash by exactly their difference in length, so they collide if and only if the lengths are equal |
| `BlockHash.ShortHash` | client/hash.c:26-28 | below 32 octets the hash moves one for one with length and seed, from HASH_INIT_SHORT, whatever the data |
| `BlockHash.LaneSeesSeed` | client/hash.c:34-64 | each final lane is injective in the seed, after any number of stripes |
| `BlockHash.SealUndone` | client/hash.c:66-77 | taking length and lanes off the result again, last lane first, by an independently stated inverse, leaves HASH_XOR_CONST |
| `BlockHash.SeedRecovered` | client/hash.c:34-64 | each lane wound back over its words gives the seed plus the constant of that lane |
| `MsgPack.RoundTrip` | client/msgpack.c:68-166 | every int32 devno, int64 offset and data decodes to itself, whatever follows in the buffer |
| `Bytes.ToBEDigits` | client/msgpack.c:101-112 | integers are written most significant octet first: octet i of k is n / 256^(k-1-i) mod 256 |
| `MsgPack.Encode` | client/msgpack.c:141-166 | the message adds between 15 and 23 octets to the data |
| `MsgPack.ReadIntBounds` | server/protocol_decoder.c:36-76 | an integer read stays inside the buffer and in int64 range |
| `MsgPackFormat.DecodeIff` | server/protocol_decoder.c:89-150 | the decoder accepts exactly the buffers of an independently stated grammar, non-shortest integers and trailing octets included, and reads each as the block it spells |
| `MsgPackFormat.ShortestInt` | client/msgpack.c:64-95 | the encoder's devno is the shortest spelling the decoder would accept |
| `MsgPackFormat.ShortestBin` | client/msgpack.c:114-139 | so is the data header |
| `Writer.GrownCapacity` | client/msgpack.c:16-27 | the doubling loop ends with room for the need, at 8 KB or at most twice the old capacity or the need |
| `Writer.GrowthEndsIff` | client/msgpack.c:19-27 | for every size_t value the doubling loop is entered with: it ends if and only if there is room already or, below its top bit, the value is neither zero nor - for a need above 2^63 - a power of two; otherwise it wraps to zero and loops |
| `Writer.MsgpackWriter.constructor` | client/msgpack.c:47-51 | 8 KB, or nothing when malloc fails |
| `Writer.MsgpackWriter.Ensure` | client/msgpack.c:16-37 | growing keeps the contents; it fails only when memory is short |
| `Writer.MsgpackWriter.Append` | client/msgpack.c:40-45 | contents become old contents plus data, or stay |
| `Writer.MsgpackWriter.WriteBin` | client/msgpack.c:117-139 | header, then data |
| `Writer.MsgpackWriter.EncodeBlock` | client/msgpack.c:141-166 | whatever the buffer held, it then holds exactly the encoded block; succeeds when memory allows twice the message |
| `Wire.IdentityCodecIsFaithful` | client/wire.h:27-28 | the hypotheses on compression are satisfiable |
| `Wire.TransmitParses` | client/wire.c:63-116 | every block up to 1 MB passes the queue limit, the scratch bound and the receiver's limits and comes back unchanged; so do both control messages |
| `Wire.FrameLayout` | client/wire.c:63-116 | every frame announces its length most significant octet first and holds "abc" and the compressed block, or the control word, the first one with its NUL |
| `Wire.Refusals` | server/protocol_decoder.c:176-240 | a stream is given up at a frame of more than 100 MB and at a data frame that is empty or declares more than 1 MB and 4096 octets; a frame is waited for exactly while incomplete |
| `Wire.StreamRoundTrip` | server/protocol_decoder.c:166-297 | a stream of mixed frames parses to exactly the messages sent, leaving nothing |
| `Streaming.ParseSplit` | server/protocol_decoder.c:166-199 | parsing a prefix, then its unfinished tail with the rest, is parsing the whole |
| `Streaming.ChunkingIndependent` | server/main.c:221-305 | on a safe stream every chunking gives the same messages, the same first error, and no overflow |
| `Streaming.FittingIsSafe` | server/session.h:29-30 | streams whose frames are at most 4,128,765 octets are safe |
| `Streaming.ChunkingIndependentIff` | server/protocol_decoder.c:169-193 | all chunkings agree with the reference if and only if no frame start announces more than 4,128,765 octets with more than 4 MB still to come |
| `Streaming.HazardOverflows` | server/protocol_decoder.c:169-174 | at such a frame start a concrete chunking overflows the buffer |
| `Streaming.ConnectionDelivers` | server/main.c:245-298 | however TCP cuts it, a connection delivers exactly the messages sent on it, in order |
| `Sessions.Session.ProtocolDecode` | server/protocol_decoder.c:166-297 | append, decode one frame, shift the rest down: result and buffer for every outcome |
| `Sessions.Session.Consume` | server/protocol_decoder.c:278-284 | the memmove drops exactly the consumed octets |
| `Disk.Confluent` | server/block_writer.c:113-148 | the image depends only on which agreeing writes happened, not on order or repetition |
| `Disk.DeliveryConfluent` | server/main.c:259-298 | any two orders of serving the connections, each FIFO, leave the same disks, duplicates included |
| `Receiver.UnsyncedBound` | server/block_writer.c:150-160 | after every message of every run at most 1999 completed writes lie after the latest fsync of all disks |
| `Receiver.FsyncSchedule` | server/block_writer.c:150-160 | over every run, fsync of all disks happens exactly once per end marker and once per 2000 completed writes |
| `Receiver.ResponsesInOrder` | server/main.c:262-289 | each session's responses are exactly its completely written frames and end markers, in order |
| `Receiver.ReachedIsTotal` | server/block_writer.c:133-148 | the write loop writes exactly what the calls before the first failure took together, at most the block |
| `Receiver.InterruptsIgnored` | server/block_writer.c:142 | interrupted calls change nothing |
| `Receiver.AckedIff` | server/main.c:263-268 | a block is acknowledged if and only if its disk is one of the sixteen and open, its offset not negative and those calls took all of it |
| `Receiver.DoneDurableIff` | server/main.c:284-289 | after an end marker a disk is crash-safe if and only if its fsync succeeded or it already was; DONE is sent either way |
| `Receiver.DoneIsDurable` | server/main.c:262-289 | after DONE with a successful fsync every block acknowledged on any session survives a crash with the contents sent |
| `Receiver.DoneWithoutDurability` | server/main.c:284-287 | a failed fsync: block acknowledged, DONE sent, block lost in a crash |
| `ReceiverService.BlockWriter.constructor` | server/block_writer.c:49-58 | a fresh writer meets the invariant |
| `ReceiverService.BlockWriter.FsyncAll` | server/block_writer.c:99-111 | every open disk is tried; 0 exactly if all succeed; the rest is unchanged |
| `ReceiverService.BlockWriter.WriteAll` | server/block_writer.c:133-148 | the loop writes exactly the prefix that the write calls before the first failure took together, interrupts or not |
| `ReceiverService.BlockWriter.WriteBlock` | server/block_writer.c:113-167 | bad disk, bad offset, torn and complete writes, counters and periodic fsync |
| `ReceiverService.BlockWriter.HandleMessage` | server/main.c:262-294 | write and acknowledge, or fsync and DONE |
| `ReceiverService.FeedChunk` | server/main.c:245-305 | one received chunk: all complete frames handled in order, each before the next is decoded |
| `ReceiverService.HandleSession` | server/main.c:210-307 | the whole receive loop refines `Feed` and takes the writer through exactly the decoded messages |
| `QueueLog.TraceWellFormed` | client/queue.c:54-126 | count is pushes minus pops and never above 256, in every run |
| `QueueLog.PopsFollowPushes` | client/queue.c:54-126 | in every run the entries handed out by the pops are exactly the first entries pushed, in push order |
| `QueueLog.StepIntactIff` | client/queue.c:128-144 | an acknowledgement leaves every waiting entry its payload if and only if each waiting entry of that name has a popped, still pending copy in a lower slot |
| `QueueLog.PayloadsIntactIff` | client/queue.c:54-144 | the runs in which waiting entries always keep their payloads are exactly those whose acknowledgements all meet that condition |
| `QueueLog.PoppedPayloadsIntact` | client/queue.c:106-144 | so in such a run every pop hands out an entry with its payload |
| `QueueLog.DuplicateLosesPayload` | client/queue.c:128-144 | the condition is needed: a copy popped from slot 255 and a copy waiting in slot 0, and the acknowledgement of the first, which scans from slot 0, frees the second |
| `SendQueue.RingPush` | client/queue.c:69-91 | slot i keeps holding the latest push n with n mod 256 = i |
| `SendQueue.HeapPush` | client/queue.c:72-81 | reusing a slot frees exactly the payload still owned there |
| `SendQueue.RingAck` | client/queue.c:128-144 | a pending slot belongs to one pending push, and clearing it clears that push |
| `SendQueue.Queue.Push` | client/queue.c:54-104 | -1 exactly for too large, full or out of memory, changing nothing; otherwise appended, and 2 exactly at depth 40 or more |
| `SendQueue.Queue.Pop` | client/queue.c:106-126 | the entry of the oldest push not yet popped |
| `SendQueue.Queue.Ack` | client/queue.c:128-144 | clears the matching pending push in the lowest slot, or nothing if there is none |
| `SendQueue.Queue.GetPending` | client/queue.c:150-166 | the names of the pending pushes in slot order, all of them unless cut off at the limit |
| `SendQueue.PendingBelowIff` | client/queue.c:155-161 | that list misses no pending push and holds nothing else |
| `SendQueue.Queue.Destroy` | client/queue.c:39-52 | then every allocation ever made has been freed, each exactly once |
| `IncSync.StepKeepsInv` | client/main.c:2520-2599 | every step of a pass - scan, push, record, send, loss, delivery whole or torn, acknowledgement - keeps the invariant |
| `IncSync.TakeAckKeepsInv` | client/main.c:837-850 | marking a row on an acknowledgement keeps it |
| `IncSync.DeliverKeepsInv` | server/main.c:263-268 | a delivery, torn or not, spoils no other block and no block already right |
| `IncSync.AckedRowsMatch` | client/main.c:2498-2645 | at every moment of every interleaving, with any loss, each ack = 1 row has the hash of what the target holds, except the block being queued |
| `IncSyncRuns.LosslessPassSyncs` | client/main.c:2498-2645 | a pass that loses no frame and ends quiet leaves every scanned block hash-equal, those whose stored hash differed equal octet for octet, and every row true |
| `IncSyncRuns.EveryPassSyncs` | client/main.c:2464-2654 | so does every pass of any sequence of such passes, with sources changing in between |
| `IncSyncRuns.AckIff` | client/main.c:2542-2587 | at every moment a row has ack = 1 if and only if it was verified or its acknowledgement read, or it started so, and it has not been recorded since |
| `IncSyncRuns.VisitedRowsStamped` | client/main.c:2546-2585 | every block the pass is done with carries the pass's version, and its time if unchanged, 0 if queued |
| `IncSyncRuns.ScannedOnce` | client/main.c:2520-2599 | no block is looked at twice in a pass |
| `LossyRuns.RowTrueIffDelivered` | client/main.c:967-1001 | with any loss and torn writes, at every moment: the row of a queued block - new, resized or not - is true of the target if and only if some copy was delivered, or the longest torn copy over the old octets has the same hash by chance |
| `LossyRuns.RowTrueIffArrived` | client/main.c:2464-2654 | over any sequence of passes with any losses and changing sources, that holds of the last pass that recorded the row, and later passes neither repair nor spoil it; a row never recorded is as true as it was at the start |
| `LossyRuns.LossNotRepaired` | client/main.c:981-1001 | from any state and for any hash that tells source and target apart: the frame may be dropped after queueing, and the next pass then marks the row verified |
| `Convergence.RoundGrows` | client/main.c:1183-1286 | a round never unacknowledges a row nor lowers a version, and only writes the current version |
| `Convergence.LoopGrows` | client/main.c:1953-1995 | the same over the whole loop, and no version exceeds the current one |
| `Convergence.VersionsCounted` | client/main.c:1983-1993 | the version is the starting one plus the number of rounds that ended with a no |
| `Convergence.NextVersion` | client/sqlite.c:91-92 | one above the highest recorded version, or 1 |
| `Convergence.NextLoopBegins` | client/main.c:1942-1993 | however long a loop ran, its version log makes the next loop start one version up, with every row's version recorded and below it |
| `Convergence.FinishesInTime` | client/main.c:1410-1416 | should_finish says yes by round max(1, 60 - r0), whatever the disk does |
| `Convergence.FinishIff` | client/main.c:1371-1419 | the first yes comes if and only if every row is acknowledged or was re-sent this round; or three rounds in a row re-sent nothing and at most 512 or a twentieth of the rows are unacknowledged from earlier versions; or it is round 60 |
| `Convergence.QuietLoopFinishes` | client/main.c:1161-1246 | if at the start every unacknowledged row has the hash of a disk that then stays as it is and none is cooling down, the loop re-sends nothing and ends within max(1, ceil(U/4096)) rounds |
| `MigrateLoop.ShuffleBlocks` | client/main.c:1124-1137 | one permutation for all four arrays, so rows stay together, and it is the one the random numbers choose |
| `MigrateLoop.EveryOrderPossible` | client/main.c:1124-1137 | each of the n! orders is the outcome for some random numbers |
| `MigrateLoop.ShuffledIsBatch` | client/sqlite.c:56-58 | a shuffled query result is still a valid batch |
| `Convergence.RoundOutcome` | client/main.c:1183-1286 | the row of every block after a round, for every environment: untouched, acknowledged, recorded anew and unacknowledged, or changed in its time only, with exactly when each happens and when it counts as re-sent |
| `Convergence.MarkedIsResent` | client/main.c:1189-1285 | after a round an unacknowledged row carries the round's version exactly if it was re-sent in it or carried it before |
| `MigrateLoop.Migration.DoIncrementalRound` | client/main.c:1155-1293 | the loop computes `Round` and counts the blocks re-sent |
| `MigrateLoop.Migration.OnIncrementalTimer` | client/main.c:1963-1994 | round, verdict, next version or end |
| `Timer.TimerManager.constructor` | client/timer.c:14-27 | first due times, with the action timer's wrapped past |
| `Timer.TimerManager.Check` | client/timer.c:39-47 | the lowest-numbered due timer, or none exactly if none is due |
| `Timer.TimerManager.Drain` | client/main.c:1793-1833 | if handlers take under 10 s together: each timer fires at most once, at most four firings, none left due, and every timer due at the start has fired, wrapped start values included |
| `Timer.FirstDue` | client/timer.c:14-27 | the timers first come due after 18 s, 20 s, 5 s and 18 s, the third even where its start value wrapped |
| `Timer.NextDue` | client/timer.c:16-19 | and after a reset in 18 s, 20 s, 10 s and 18 s |
| `BlockIo.BlocksCoverDisk` | client/block_io.c:174-195 | the counted blocks reproduce the disk, none is empty, fewer would not do |
| `BlockIo.SeparateVolumesGiveLayout` | client/main.c:2517-2524 | volumes that do not overlap when rounded up to blocks give every block its own room |
| `Refinement.PushRefines` | client/main.c:2559-2571 | queueing an encoded block is the machine's push: within the size limit, same result code, same queue |
| `Refinement.PopRefines` | client/main.c:967-971 | popping takes the machine's first item, whose payload is there exactly if no acknowledgement freed it |
| `Refinement.AckRefines` | client/main.c:841-850 | an acknowledgement frees a waiting payload in the machine exactly if the real scan hits one |
| `Refinement.DeliverRefines` | server/main.c:263-268 | the machine's delivery is the receiver handling the message: same disks, acknowledged in one exactly if in the other |
| `HashedSync.ChangeSentIff` | client/main.c:2536-2587 | under the real hash a one-octet change is queued by the next pass if and only if it lies where the hash looks; otherwise the block is marked verified |
| `HashedSync.SeedsRepeat` | client/main.c:2536-2537 | the seed is the offset modulo 4 GB: blocks 4 GB apart hash alike, and short ones tell all other offsets apart |
| `HashedSync.SyncedUpToBlindSpots` | client/main.c:2536-2553 | a synced block can differ from its source in one octet only in a blind spot |
| `HashedSync.DropThenVerified` | client/main.c:981-1001 | under the real hash, for every tracked block and every one-octet change outside the blind spots: its frame may be dropped, and the next pass marks the row verified while the target still holds the old octet |
| `HashedSync.VisibleChange` | client/hash.c:24-80 | such passes exist: a zeroed 64-octet block whose first octet became 1 |
| `EndToEnd.DisksDetermined` | server/main.c:210-307 | two chunkings of the same streams and two orders of serving what the sessions decoded leave the same disks, and every block sent reads back |
| `Simulation.PartDecodes` | server/protocol_decoder.c:166-297 | any part of a sent stream decodes to the first messages, and what is left is the stream of the others |
| `Simulation.ActSimulated` | client/main.c:967-1001 | one act of the whole system is exactly the machine steps it should be - one flush per send, one delivery per block completed by a chunk, and so on - takes exactly the received octets off the wire, and loses nothing if the act does not |
| `Simulation.RunSimulated` | client/main.c:2498-2645 | every run of the whole system is a run of the pass machine with equal rows, queue, frames, acknowledgements and disks |
| `Simulation.SystemAckedRowsTrue` | client/main.c:2498-2645 | down to octets on the wire and the receiver's disks, with any interleaving, chunking and loss: an ack = 1 row has the hash of what the disks hold, except the block being queued |
| `Simulation.SystemPassSyncs` | client/main.c:2498-2645 | a run that loses nothing and comes to rest leaves the receiver's disks hash-equal to the source, blocks whose stored hash differed octet for octet, and every row true |
| `Completion.PassCanComplete` | client/main.c:2498-2645 | from every start with a link and every block on an open disk there is a run that loses nothing, comes to rest, has visited every readable block, acknowledged every row and left the disks hash-equal to the source |

## Left out

- VSS snapshots, driver injection, system checks and volume enumeration: foreign Windows interfaces.
- Configuration parsing, subcommands, progress output and logging.
- Zstd and SQLite internals: parameters and a map, as described above.
- Several remotes in one table: lookups ignore remote_id, and do_retransmit passes an empty one and so selects no row (client/main.c:1059); the model has a single remote and no retransmit step.
- The connection pool's bookkeeping and the rate limiter in flush_one.
- Partial reads of an acknowledgement and partial sends of a frame: an acknowledgement arrives whole or is lost, a frame is sent whole or dropped.
- The full sync of do_migrate, its VSS clamp and the GPT resend: coverage is stated for incremental passes only.
- Target agreement in TailSend mode: acknowledgements do not set ack there and two contents of one block can be in flight, so it is stated for incsync, which reads each block once a pass.
- The BINLOG alert: its counter is cleared after every write, so the threshold is not reached.
- Dry-run mode, tools/hash_block.c.
- The 64-bit wrap of the receiver's block and byte totals.
- Receiver.Durable: a failed fsync is taken to secure nothing and lose nothing, so a later successful one secures everything; pages dropped by the kernel after a failure are not modelled.
- Timer.TimerManager.Drain: the clock does not wrap during a pass, and "has fired" is stated for timers whose age does not wrap within those ten seconds.
