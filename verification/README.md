# blackwire: proofs about the relay path

This project models, in Dafny, the buffer, pipe, pool and selection state machines on the
relay path of the blackwire proxy, and proves what they are for: that nothing is lost,
duplicated or reordered, that counters are exact, that fast lookups agree with the simple
definitions they replace, and, where code falls short of that, exactly when.

`dafny verify dfyconfig.toml` checks everything.

| files | component |
|---|---|
| `Varint`, `GunFraming`, `GrpcStream`, `GunTunnel` | the gRPC "Gun" stream: varints, two-layer framing (Length-Prefixed-Message of the "gRPC over HTTP/2" protocol document around a protobuf bytes field), the coalescing writer and incremental reader, and both ends joined by a wire |
| `UringRelay`, `UringState`, `UringProgress`, `EpollSplice` | the splice relay: the io_uring state machine with its kernel, the in-place counters, what it can always do, and the epoll form |
| `Hotness`, `DestPool`, `PoolAccounting`, `PoolCalls` | the connection pool: the sliding-window meter, the idle queue, the accounting of slots by concurrent tasks, and the calls as those steps |
| `AdaptiveBalancer` | scoring, cooldown, hysteresis |
| `VisionUnpadding`, `VisionFraming` | the Vision unpadder against the frames it inverts |
| `StreamRecovery`, `Lanes`, `PooledCopy`, `AdaptiveCopy`, `RelayPaths` | recovering sockets from under prefixes, one direction of a relay over its life, the two copy loops, and the relay over all its paths |
| `CidrIndex`, `Routing` | range lookup, rule matching, domain strategies |
| `InstanceSlot`, `RestartDecision`, `GeoCache` | rebuilding the running instance, deciding whether to, and cached geo data |
| `Socks5` | addresses and datagrams of sections 5 and 7 of RFC 1928 |
| `Bytes`, `Options` | shared definitions |

Conventions. A peer, a kernel or a clock is an argument: a list of events, a schedule, a
time, each quantified over. Concurrent code is a state machine whose steps interleave
freely; a run is any list of enabled steps. Objects updated in place are classes whose
methods are proved against functions of their old state. Floating point is `real`.

Where code and documentation differ the code is followed: the plain-stream shutdown of the
Gun stream does not drain its write buffer; the reader's 16 MiB limit counts the hunk
header that the writer's does not; `inbound_listener_changes` looks twice at the new
inbounds and never at removed ones; a splice that returns success may have been cut off by
the drain window or have left bytes in its pipe, so success of the relay does not mean that
everything was forwarded; a splice that fails may have taken bytes, which the copy that
continues does not have; the Vision writer does not announce further chunks, so the header
of each chunk after the first reaches the reader as data; the time and byte thresholds of
adaptive splicing are implied by the streak of full reads.

## Model

| member | source | states |
|---|---|---|
| `Varint.PutVarint` | crates/blackwire-transport/src/grpc.rs:130-141 | the loop appends exactly the base-128 encoding of any 64-bit value |
| `Varint.PrecomputedLength` | crates/blackwire-transport/src/grpc.rs:315-320 | the length the writer computes ahead is the length of the encoding |
| `Varint.GetVarint` | crates/blackwire-transport/src/grpc.rs:146-160 | the shifting loop computes the closed form `Decode` on every input, truncated and overlong ones included |
| `Varint.DecodeSucceedsExactly` | crates/blackwire-transport/src/grpc.rs:146-160 | decoding succeeds exactly when one of the first ten bytes ends the number, and consumes up to the first such byte |
| `Varint.RoundTrip` | crates/blackwire-transport/src/grpc.rs:130-160 | decoding inverts encoding for every 64-bit value in front of any suffix |
| `Varint.GroupBytes` | crates/blackwire-transport/src/grpc.rs:130-160 | the bytes of one and of two groups, told as literals: low seven bits first, with the top bit set on all but the last |
| `Varint.OverflowsExactly` | crates/blackwire-transport/src/grpc.rs:119-120 | a decoded length carries the offset behind it past 64 bits exactly for ten bytes of one pattern: all ones but the lowest few bits |
| `GunFraming.HunkRoundTrip` | crates/blackwire-transport/src/grpc.rs:96-127 | a hunk decodes to its data for every chunk the writer can cut |
| `GunFraming.HunkBytes` | crates/blackwire-transport/src/grpc.rs:96-127 | the bytes of a hunk: 10, the length of the data as a varint, the data; nothing is a hunk without data, and what follows the data is ignored |
| `GunFraming.OtherFieldsRefused` | crates/blackwire-transport/src/grpc.rs:110-115 | any other first byte than 10 is refused |
| `GunFraming.HunkDecodesExactly` | crates/blackwire-transport/src/grpc.rs:106-127 | a payload decodes to that data if and only if both are empty or it has the tag, a varint of the length, and the data within its bounds |
| `GunFraming.FrameBytes` | crates/blackwire-transport/src/grpc.rs:167-197 | the bytes of a frame: a zero, four of length, most significant first, the payload; another flag, or more than 16777216 bytes, is refused; less than announced waits |
| `GunFraming.GunFrameBytes` | crates/blackwire-transport/src/grpc.rs:83-100 | the bytes the writer emits for a chunk of one and of two length bytes |
| `GunFraming.HunkPanicsExactly` | crates/blackwire-transport/src/grpc.rs:106-127 | the slice is out of order, and the source panics, exactly for a hunk of that byte pattern |
| `GunFraming.LargestLengthPanics` | crates/blackwire-transport/src/grpc.rs:106-127 | concrete case: a hunk that announces the largest length there is |
| `GunFraming.FrameAcceptedExactly` | crates/blackwire-transport/src/grpc.rs:83-94 | a frame of the writer is accepted by the reader exactly when its chunk has at most 16 MiB less five bytes, and refused otherwise |
| `GunFraming.NextFrameExtends` | crates/blackwire-transport/src/grpc.rs:167-197 | a frame found or refused stays so whatever arrives behind it: waiting for more never discards or changes anything |
| `GunFraming.DecodeResumes` | crates/blackwire-transport/src/grpc.rs:167-197 | decoding what arrived and then the remainder with what follows is decoding all at once |
| `GunFraming.RemainderIsFinal` | crates/blackwire-transport/src/grpc.rs:167-197 | a remainder holds no further complete frame |
| `GunFraming.RefragmentationInvariant` | crates/blackwire-transport/src/grpc.rs:167-197 | every cutting of a byte stream into pieces decodes to the same bytes, verdict and remainder |
| `GunFraming.WireRoundTrip` | crates/blackwire-transport/src/grpc.rs:309-326 | decoding everything framed yields a prefix of the chunks, and all of them exactly when every chunk is acceptable |
| `GrpcStream.GrpcStream.EncodePendingPlain` | crates/blackwire-transport/src/grpc.rs:309-326 | conserves accepted = framed and sent, framed and waiting, still plain; all cut when forced, else less than 16 KiB left; the cut is acceptable exactly when at most 16 MiB less five bytes waited |
| `GrpcStream.GrpcStream.CutFrame` | crates/blackwire-transport/src/grpc.rs:309-326 | one chunk of at most 16 MiB moves from plain to framed, nothing lost |
| `GrpcStream.GrpcStream.AssembleFrame` | crates/blackwire-transport/src/grpc.rs:315-324 | prefix with the precomputed length, tag, varint and data are one well-formed frame |
| `GrpcStream.GrpcStream.Drain` | crates/blackwire-transport/src/grpc.rs:278-307 | partial sends in any sizes keep what was sent a prefix of the framed stream; without an error nothing is dropped |
| `GrpcStream.GrpcStream.PollWrite` | crates/blackwire-transport/src/grpc.rs:381-416 | takes at most 16 MiB, never pends, conserves the bytes; exact condition for the reader to accept what is cut |
| `GrpcStream.GrpcStream.PollFlush` | crates/blackwire-transport/src/grpc.rs:418-442 | everything accepted is framed; ready means all of it was sent and, over a plain byte stream, that this was flushed in turn; a failed flush of it is an error |
| `GrpcStream.GrpcStream.PollShutdown` | crates/blackwire-transport/src/grpc.rs:444-461 | ready means all was sent exactly if the stream is HTTP/2 or nothing was waiting: the plain branch does not drain; a closing send that fails is an error |
| `GrpcStream.GrpcStream.ServeDecodedFrames` | crates/blackwire-transport/src/grpc.rs:249-276 | data already decoded first, then frame by frame; delivered plus buffered is always the decoding of what was received; it crashes exactly where decoding stops at a hunk whose slice is out of order |
| `GrpcStream.GrpcStream.PollRead` | crates/blackwire-transport/src/grpc.rs:338-377 | over any fragmentation the bytes given out plus those buffered are the decoding of those received; malformed input is reported, and a crash happens, with everything before it delivered, the crash exactly for a hunk whose slice is out of order |
| `GrpcStream.WaitsExactly` | crates/blackwire-transport/src/grpc.rs:249-276 | a read waits exactly when nothing is decodable or an empty message comes first |
| `GrpcStream.EmptyMessageHidesData` | crates/blackwire-transport/src/grpc.rs:249-276 | concrete case: an empty message makes the reader wait with a decodable byte in hand |
| `GunTunnel.DeliveredIsPrefix` | crates/blackwire-transport/src/grpc.rs:249-442 | whatever part of the wire has arrived, what is given out is a prefix of what was accepted |
| `GunTunnel.ExhaustedIsComplete` | crates/blackwire-transport/src/grpc.rs:249-442 | with everything arrived and nothing decodable left, all was delivered exactly when every chunk left room for its header |
| `GunTunnel.RejectedIsIncomplete` | crates/blackwire-transport/src/grpc.rs:249-442 | a rejection happens only for an oversized chunk and then not all is delivered |
| `GunTunnel.Tunnel.Safety` | crates/blackwire-transport/src/grpc.rs:249-442 | in every state of writer, wire and reader: delivered is a prefix of accepted |
| `GunTunnel.Tunnel.NeverCrashes` | crates/blackwire-transport/src/grpc.rs:249-442 | nothing the writer emits, however cut, makes the reader crash |
| `GunTunnel.Tunnel.Completeness` | crates/blackwire-transport/src/grpc.rs:249-442 | after flush and drain: delivered equals accepted exactly when every chunk is acceptable |
| `GunTunnel.Run` | crates/blackwire-transport/src/grpc.rs:249-442 | for every schedule of writes, flushes, partial sends, cuts and reads: delivered is a prefix of what was offered, and if no event ends the stream it is all of it exactly when each write fitted (waiting plus written at most 16 MiB less five) |
| `UringRelay.StepKeeps` | crates/blackwire-common/src/splice.rs:343-515 | every step of the program and of the kernel keeps the relay invariant |
| `UringRelay.HandledMeans` | crates/blackwire-common/src/splice.rs:398-491 | in every state: handling a splice in ends the relay in an error exactly for a negative result other than -125, and its source exactly for 0 and -125; handling a splice out retries behind a poll exactly for -11, goes on with the rest of the pipe or the next splice in for a positive result, and otherwise ends the direction with its bytes in the pipe; the other direction is untouched |
| `UringRelay.ErrorsAreReturned` | crates/blackwire-common/src/splice.rs:365-515 | over every run: an error was returned if and only if a failed splice in was handled or the ring itself failed |
| `UringRelay.KernelMayReport` | crates/blackwire-common/src/splice.rs:398-491 | nothing the kernel may report is left out: any error, the end, any bytes of the source up to 262144, any part of what was asked out of the pipe |
| `UringRelay.RingMeans` | crates/blackwire-common/src/splice.rs:308-341 | the ring can fail exactly while waiting and at every submission after a batch that does not end the relay; a parked task wakes up exactly if signalled; entries an operation takes |
| `UringRelay.NoByteLostOrReordered` | crates/blackwire-common/src/splice.rs:384-491 | in every reachable state consumed = delivered followed by the pipe, in order |
| `UringRelay.DirectionDiscipline` | crates/blackwire-common/src/splice.rs:172-188 | at most one outstanding splice a direction, none exactly at its end; splice-in only with an empty pipe; half-close only after everything consumed was delivered |
| `UringRelay.CountsAreExact` | crates/blackwire-common/src/splice.rs:384-515 | a direction's total is what was delivered, short exactly of a posted and unhandled completion |
| `UringRelay.DoneIsQuiet` | crates/blackwire-common/src/splice.rs:172-188 | when both directions are done nothing is outstanding, the totals are exact, and a direction delivered all it took exactly if its destination was half-closed or is about to be |
| `UringRelay.SuccessMeans` | crates/blackwire-common/src/splice.rs:365-515 | success means both directions are done, or one ended and the drain window cut the other off; each delivered a prefix of what it took and counted at most that; all of it if and only if the direction is not stranded, told from its last operation |
| `UringRelay.HalfCloseLosesTheReply` | crates/blackwire-common/src/splice.rs:369-378 | concrete run: one side half-closes, the other answers after the drain window, and the relay succeeds without the answer |
| `UringRelay.FailedOutKeepsBytes` | crates/blackwire-common/src/splice.rs:444-447 | concrete run: a failed splice out ends its direction with a byte in the pipe, and the relay succeeds |
| `UringRelay.NoCompletionDropped` | crates/blackwire-common/src/splice.rs:384-396 | at most four completions wait at any collection, so the 16-slot batch takes them all |
| `UringRelay.SubmissionQueueNeverFull` | crates/blackwire-common/src/splice.rs:218-306 | the 32-entry submission queue never holds more than four entries |
| `UringRelay.NoLostWakeup` | crates/blackwire-common/src/splice.rs:308-341 | a parked task with a completion waiting is signalled or about to be, and all it queued was submitted |
| `UringProgress.AnyStreamsAreRelayed` | crates/blackwire-common/src/splice.rs:343-515 | for any two byte streams in chunks of at most 262144 bytes there is a run that delivers both whole, counts them exactly, half-closes both sides and returns success |
| `UringState.State.OnCompletion` | crates/blackwire-common/src/splice.rs:384-491 | the in-place update of counters and flags for one completion is the reaction of the state machine |
| `UringState.State.OnBatch` | crates/blackwire-common/src/splice.rs:384-491 | the loop over a batch is the reactions in turn, stopping at a failure |
| `UringState.BatchIsSteps` | crates/blackwire-common/src/splice.rs:384-491 | handling a whole batch is handling its completions one step at a time |
| `EpollSplice.RelayOneDirection` | crates/blackwire-common/src/splice.rs:591-658 | the nested loops are one walk along the source: exactly the bytes it reaches are delivered, and the outcome is the one it leads to; only a source delivered whole closes the destination |
| `EpollSplice.EndsExactly` | crates/blackwire-common/src/splice.rs:591-658 | told from the events: it finishes if and only if the source ends before any failure and all of it got out, and fails if and only if a write fails with bytes left or the source fails with all before it out; what got out is what the writes before a failing one moved |
| `EpollSplice.EnoughWritesDeliverAll` | crates/blackwire-common/src/splice.rs:591-658 | with as many writes that move something as there are bytes, all are delivered, and it finishes exactly if the source ends |
| `EpollSplice.RelayBothWays` | crates/blackwire-common/src/splice.rs:660-693 | the first direction to end decides; the other counts in full if it ends within its window and as nothing otherwise, whatever it delivered |
| `EpollSplice.CutOffCountsNothing` | crates/blackwire-common/src/splice.rs:660-667 | concrete case: a direction that delivered a byte before it was cut off |
| `Hotness.ReadingBounds` | crates/blackwire-protocol/src/freedom.rs:124-156 | a reading counts at least the hits of the last window and at most those of the last three |
| `Hotness.RecordTracks` | crates/blackwire-protocol/src/freedom.rs:124-144 | recording keeps the two buckets in step with the hit history across rotations and gaps |
| `Hotness.ColdReadsZero` | crates/blackwire-protocol/src/freedom.rs:146-156 | with no hit in two windows the estimate is zero |
| `Hotness.HotnessMeter.RecordAndGet` | crates/blackwire-protocol/src/freedom.rs:124-144 | over every monotone history: the window bounds, counting the hit just made |
| `Hotness.HotnessMeter.Estimate` | crates/blackwire-protocol/src/freedom.rs:146-156 | the same bounds without recording, and zero when cold |
| `DestPool.DestPool.TryTake` | crates/blackwire-protocol/src/freedom.rs:267-309 | the first socket neither expired nor dead, the number discarded before it, and the queue left behind it |
| `DestPool.UsableUntil` | crates/blackwire-protocol/src/freedom.rs:270-297 | a live socket can be used to the end of its time to live and not after, a dead one never |
| `DestPool.DestPool.Push` | crates/blackwire-protocol/src/freedom.rs:358-380 | a connected refill is queued exactly if there is room |
| `PoolAccounting.StepKeeps` | crates/blackwire-protocol/src/freedom.rs:267-396 | every step of connections, refills and evictions keeps the accounting invariant |
| `PoolAccounting.AccountingLaw` | crates/blackwire-protocol/src/freedom.rs:314-478 | in every interleaving: counter + evicted credit = idle sockets in all queues + unsettled reservations and pops; both ceilings; the exact drift of the counter |
| `PoolAccounting.UnheldStays` | crates/blackwire-protocol/src/freedom.rs:445-478 | an evicted queue nobody holds is out of reach for good |
| `PoolAccounting.StuckForGood` | crates/blackwire-protocol/src/freedom.rs:326-350 | with the counter at its ceiling, no idle socket and no slot owed, no run of any tasks reserves a slot again |
| `PoolAccounting.QuietEvictionsKeepCounterExact` | crates/blackwire-protocol/src/freedom.rs:462-478 | if every eviction finds its queue unheld the counter is exact and non-negative |
| `PoolAccounting.SlotLeaksAfterEviction` | crates/blackwire-protocol/src/freedom.rs:314-478 | concrete run: a refill finishing after its queue was evicted loses a slot, and no continuation of it has an idle socket or a reservation again |
| `PoolAccounting.SlotReturnedTwice` | crates/blackwire-protocol/src/freedom.rs:462-606 | concrete run: a pop from an evicted queue returns a slot twice and the counter goes below zero |
| `PoolCalls.TierMeans` | crates/blackwire-protocol/src/freedom.rs:158-172 | how many connections a destination deserves: never fewer for more hits, between a quarter and a half of them from 4 to 63, all that is allowed from 64 on, none below the threshold |
| `PoolCalls.ConnectRuns` | crates/blackwire-protocol/src/freedom.rs:565-609 | an uninterrupted connection is a run of the accounting machine, with the pool it leads to |
| `PoolCalls.AdaptivePool.Connect` | crates/blackwire-protocol/src/freedom.rs:565-609 | on the counter and the queue themselves: the first usable socket, slots given back for stale ones and for the one taken, refills exactly as far as hits and ceiling allow; it is those steps of the machine |
| `PoolCalls.AdaptivePool.Replenish` | crates/blackwire-protocol/src/freedom.rs:314-352 | reserves the smaller of what is missing to the tier, refills in flight counted, and what is left under the ceiling |
| `PoolCalls.AdaptivePool.Refill` | crates/blackwire-protocol/src/freedom.rs:356-394 | keeps a connected socket exactly if the queue has room and otherwise gives the slot back; it is the machine's step |
| `PoolCalls.AdaptivePool.Evict` | crates/blackwire-protocol/src/freedom.rs:462-478 | gives back the slots of the sockets in the queue; it is the machine's three steps |
| `AdaptiveBalancer.ScoreInUnit` | crates/blackwire-app/src/balancer.rs:374-390 | scores stay in [0,1] while successes do not exceed attempts |
| `AdaptiveBalancer.LatencyCosts` | crates/blackwire-app/src/balancer.rs:374-390 | of two members alike but for the smoothed latency the slower scores less by 0.3 of their difference in units of five seconds, and past five seconds not less |
| `AdaptiveBalancer.LatencyUsed` | crates/blackwire-app/src/balancer.rs:377-381 | a smoothed latency takes precedence over the probe, the probe over the five seconds assumed |
| `AdaptiveBalancer.FailuresCost` | crates/blackwire-app/src/balancer.rs:383-388 | failures of probes and connects count alike: each costs 0.2 over the threshold until that is reached, further ones nothing |
| `AdaptiveBalancer.SuccessPays` | crates/blackwire-app/src/balancer.rs:389 | success is worth half: s of a attempts score s/2a above none; untried counts as all |
| `AdaptiveBalancer.PerfectScore` | crates/blackwire-app/src/balancer.rs:374-390 | an untried member at 0 ms without failures scores one, alive or not |
| `AdaptiveBalancer.FastestWins` | crates/blackwire-app/src/balancer.rs:256-306 | a first pick among untried, alive members without failures has the least latency, as far as the first five seconds tell |
| `AdaptiveBalancer.ObservedTracks` | crates/blackwire-app/src/balancer.rs:392-428 | every connect result keeps successes within attempts and the smoothed latency between two of its samples |
| `AdaptiveBalancer.SmoothStaysInRange` | crates/blackwire-app/src/balancer.rs:410-415 | one smoothing step stays in any range holding sample and previous value, whatever the factor |
| `AdaptiveBalancer.SmoothingStep` | crates/blackwire-app/src/balancer.rs:410-415 | smoothing goes the part alpha of the way to the sample, at least a hundredth and at most all; a first sample is taken as it is |
| `AdaptiveBalancer.HistoryTells` | crates/blackwire-app/src/balancer.rs:392-428 | over any history of results: attempts, successes, failures since the last success, and a cooldown exactly from the last failure that reached the threshold |
| `AdaptiveBalancer.CoolsExactly` | crates/blackwire-app/src/balancer.rs:279-291 | a member is passed over exactly while its cooldown lasts or a probe found it dead |
| `AdaptiveBalancer.ProbeCools` | crates/blackwire-app/src/balancer.rs:351-372 | a probe round with as many failures as the threshold starts a cooldown exactly if none is running, and otherwise changes nothing |
| `AdaptiveBalancer.RuleIsLawful` | crates/blackwire-app/src/balancer.rs:279-301 | comparing the current member with the best one alone decides as comparing it with all available ones |
| `AdaptiveBalancer.ChoiceIsGood` | crates/blackwire-app/src/balancer.rs:279-301 | with anyone available the choice is available and within the margin of the best |
| `AdaptiveBalancer.Balancer.LawfulIsGood` | crates/blackwire-app/src/balancer.rs:279-301 | a choice by the rule over the recorded availability and scores is that guarantee over the members themselves |
| `AdaptiveBalancer.SwitchGain` | crates/blackwire-app/src/balancer.rs:279-301 | a voluntary switch gains more than the margin; a forced one costs at most one |
| `AdaptiveBalancer.AntiFlapping` | crates/blackwire-app/src/balancer.rs:256-306 | over any run of picks: voluntary switches times margin are at most one plus forced switches plus the downward drift of the current score |
| `AdaptiveBalancer.Balancer.ApplyProbeCooldowns` | crates/blackwire-app/src/balancer.rs:351-372 | exactly the members over the failure threshold and not cooling start a cooldown, and are listed in order |
| `AdaptiveBalancer.Balancer.BestAvailable` | crates/blackwire-app/src/balancer.rs:261-277 | the scan finds the first of the highest scores among the alive and not cooling, or that there is none |
| `AdaptiveBalancer.Balancer.Select` | crates/blackwire-app/src/balancer.rs:279-301 | the selection obeys the rule (keep the current member within the margin, else the best, else the first configured), so with anyone available it is available and within the margin of every available one |
| `AdaptiveBalancer.Balancer.PickAdaptive` | crates/blackwire-app/src/balancer.rs:256-306 | every member has had its probe cooldown applied; with anyone then available the pick is available and scores within the margin of every available member; the pick is recorded with the availability and scores it saw; no member gives none |
| `AdaptiveBalancer.Balancer.ObserveConnectResult` | crates/blackwire-app/src/balancer.rs:392-428 | counters, smoothed latency and cooldown of one member change as observed, all others not; an unknown index changes nothing |
| `AdaptiveBalancer.Balancer.NeverFlaps` | crates/blackwire-app/src/balancer.rs:256-306 | the bound on switches holds for every balancer, whatever probes and results came between its picks |
| `VisionUnpadding.VisionUnpaddingState.Feed` | crates/blackwire-common/src/stream.rs:114-173 | the piecewise parser computes the byte-wise unpadder from the state it was left in, or opens or passes a piece outside the framing |
| `VisionUnpadding.VisionUnpaddingState.Unframe` | crates/blackwire-common/src/stream.rs:132-171 | inside the framing the bulk-copying loop is the byte-wise unpadder |
| `VisionUnpadding.UnpadSplits` | crates/blackwire-common/src/stream.rs:114-173 | the byte-wise unpadder does not see where input is cut |
| `VisionUnpadding.StretchIsRun` | crates/blackwire-common/src/stream.rs:132-156 | one turn of the loop, a header byte or a stretch of content or padding, is that many single bytes |
| `VisionUnpadding.LowByteStaysClear` | crates/blackwire-common/src/stream.rs:133-139 | a low length byte is only ever or-ed into a value whose low byte is zero, so it is added |
| `VisionFraming.WholeFrame` | crates/blackwire-common/src/stream.rs:132-171 | a frame yields its content and leads to the next header, or out of the framing, with the direct flag exactly for DIRECT |
| `VisionFraming.FrameBytes` | crates/blackwire-common/src/stream.rs:113-173 | the bytes of a frame as literals: command, two lengths, high byte first, content, padding; the content comes out, command 0 and only it goes on to another header, command 2 and only it switches to direct copy |
| `VisionFraming.OpeningBytes` | crates/blackwire-common/src/stream.rs:113-173 | the same behind the sixteen bytes of the uuid, in one piece to a fresh unpadder, with the bytes after it passed on |
| `VisionFraming.UnpadShowsContent` | crates/blackwire-common/src/stream.rs:114-173 | after any number of bytes exactly the content among them has come out |
| `VisionFraming.SessionIsInStep` | crates/blackwire-common/src/stream.rs:114-173 | fed in pieces the unpadder stands where the byte-wise one does, and reports direct in the piece where a DIRECT frame ends and in no other |
| `VisionFraming.UnpadInvertsFraming` | crates/blackwire-common/src/stream.rs:114-173 | any prefix of uuid, frames and tail, cut anywhere: output is exact after every piece if and only if the first piece holds 21 bytes and no piece after the switch is 21 bytes long and starts with the uuid |
| `VisionFraming.UuidAloneLeaks` | crates/blackwire-common/src/stream.rs:114-129 | a uuid that arrives alone is passed through instead of opening the framing |
| `VisionFraming.Deliver` | crates/blackwire-common/src/stream.rs:114-173 | feeding a whole stream yields all contents and then the tail |
| `VisionFraming.ChunkIsAStream` | crates/blackwire-common/src/stream.rs:374-387 | a padded chunk with the uuid, of any length, is one frame of the content up to its sixteen-bit length and the rest as tail |
| `VisionFraming.ChunkRoundTrip` | crates/blackwire-common/src/stream.rs:374-387 | a padded chunk with the uuid read in one piece gives back its content whatever its length, and direct exactly if written so |
| `VisionFraming.TwoChunksExactly` | crates/blackwire-common/src/stream.rs:330-339 | two chunks in a row, the second without the uuid, come back as their contents if and only if the first says that more follow; otherwise the second passes with its header |
| `StreamRecovery.RecoveryKeepsTheBytes` | crates/blackwire-common/src/stream.rs:537-592 | recovery succeeds exactly over a socket under any nesting; in both results the remaining bytes are the same and in order |
| `StreamRecovery.RefusedStaysRefused` | crates/blackwire-common/src/stream.rs:566-592 | a stream handed back gives the same outcome when tried again |
| `StreamRecovery.BareRecovery` | crates/blackwire-common/src/stream.rs:514-520 | the strict form succeeds exactly when no layer holds unread bytes, and otherwise keeps them |
| `StreamRecovery.PrependedStream.PollRead` | crates/blackwire-common/src/stream.rs:695-712 | what a read returns and what remains are what remained before; nothing is returned only at the end |
| `StreamRecovery.PrependedStream.IntoParts` | crates/blackwire-common/src/stream.rs:684-692 | unread prefix and inner stream together are what remained |
| `PooledCopy.CopyOne` | crates/blackwire-common/src/relay.rs:54-89 | for every script of reads, writes and failures the loop sends and counts exactly what the run of that script does; all of it, counted, if nothing fails |
| `PooledCopy.CopyBidirectional` | crates/blackwire-common/src/relay.rs:39-52 | both directions run to their own ends: the result is exactly that of the two runs |
| `PooledCopy.FailsWhereItStands` | crates/blackwire-common/src/relay.rs:54-89 | the first turn that fails makes the copy fail where it stands, with the bytes of an unfinished write uncounted, unless the source has ended before; without one nothing fails |
| `PooledCopy.ReadsFillTheBuffer` | crates/blackwire-common/src/relay.rs:59-75 | a read brings what the socket has, up to 16384 bytes |
| `PooledCopy.JoinedMeans` | crates/blackwire-common/src/relay.rs:39-52 | success takes both directions; an error of either comes out once both are over |
| `PooledCopy.CopyBothLaw` | crates/blackwire-common/src/relay.rs:39-89 | in order, nothing lost; success means both sides were taken to their ends and counted; it succeeds if nothing fails |
| `PooledCopy.CompleteExactly` | crates/blackwire-app/src/relay.rs:64-158 | success has delivered everything if and only if no failed splice left a byte in its pipe and the splice that succeeded, if any, went on to the end |
| `AdaptiveCopy.BulkIsStreak` | crates/blackwire-app/src/relay.rs:503-531 | with full reads counted as copied the streak of four alone decides; byte thresholds and time never do |
| `AdaptiveCopy.ReadyMeans` | crates/blackwire-app/src/relay.rs:503-510 | ready means four full reads in a row and 262144 bytes, or 65536 after 30 ms |
| `AdaptiveCopy.AdaptiveCopyThenSplice` | crates/blackwire-app/src/relay.rs:359-446 | the loop is the run of the script: thresholds, failed splices, turns and the final splice, with exactly its lanes, counts and outcome |
| `AdaptiveCopy.AdaptivelyLaw` | crates/blackwire-app/src/relay.rs:359-446 | of that run: every byte taken was sent, in order, or lost in a pipe; counts are prefix, bytes copied and what the splice reports, less only what failed splices forwarded; the splice is one the script holds, taken only after 256 KiB; nothing is lost, or uncounted, unless a failed splice left, or forwarded, a byte; done if nothing fails |
| `AdaptiveCopy.SplicedExactly` | crates/blackwire-app/src/relay.rs:359-446 | told from the sizes of the reads: the run is spliced if and only if it comes to a turn at which both sides are open, the last four reads of either filled 65536 bytes and the splice works, and then from the lanes of that turn; it fails if and only if it comes to a turn that fails |
| `AdaptiveCopy.AdaptiveTurnKeeps` | crates/blackwire-app/src/relay.rs:375-445 | one turn, with a splice that fails or without, keeps both directions in order and accounted for, and makes progress unless it breaks the relay |
| `Lanes.ForwardKeeps` | crates/blackwire-app/src/relay.rs:418-441 | bytes copied on, whatever was lost before: every byte taken is sent, in the order of the source with nothing added or repeated, or lost; and what was sent is a prefix until a byte follows a lost one |
| `Lanes.FailKeeps` | crates/blackwire-app/src/relay.rs:396-405 | the same across a splice that fails after taking some bytes and forwarding some of those |
| `Lanes.NothingTwice` | crates/blackwire-app/src/relay.rs:396-441 | of what is sent in that order, nothing arrives more often than it was taken |
| `Lanes.PrefixExactly` | crates/blackwire-app/src/relay.rs:396-405 | after a failed splice what is sent stays a prefix if and only if the bytes sent next equal those right behind what was sent: always if none was left in the pipe |
| `Lanes.LostByteTears` | crates/blackwire-app/src/relay.rs:402-403 | concrete case: a byte left in the pipe and one copied after it is no prefix, though the comment there has it that a failed splice took nothing |
| `RelayPaths.RelaySockets` | crates/blackwire-app/src/relay.rs:115-158 | prefixes go first, then the path the policy names, exactly; each prefix is counted once; a splice is taken if and only if the prefixes went out and the first one works under Always, or the stream proves bulky under Adaptive; a prefix that fails is a failure with what went out; nothing is lost or uncounted unless a splice the policy allows failed with bytes moved |
| `RelayPaths.RelayBidirectional` | crates/blackwire-app/src/relay.rs:64-158 | the result is exactly the relay function of inputs and events, and for every nesting of wrappers, policy, fragmentation, failure and splice result: each side was sent, in order, what the other yields, a prefix unless a byte was sent after one left in a pipe; on success the counts are what was copied plus what the splice reports, and everything was sent if and only if nothing was left in a pipe and the last splice went on to the end; a splice is taken exactly when the policy comes to it with success; success if nothing fails |
| `RelayPaths.CountsAreExact` | crates/blackwire-app/src/relay.rs:64-158 | if splices that fail move nothing: success by copying returns exactly the lengths of what both sides yield, all of it delivered, and success by a splice what was sent before it plus what it reports |
| `RelayPaths.RunIsASplice` | crates/blackwire-common/src/splice.rs:343-515 | every successful run of the io_uring relay is such a splice result: prefixes, counts at most their lengths, to the end if and only if both sides were read to their ends and neither direction is stranded |
| `RelayPaths.FailedRunIsASplice` | crates/blackwire-common/src/splice.rs:343-515 | every run that failed is such a failed splice: what it took, what it forwarded, and its pipe as what is lost |
| `RelayPaths.EpollIsASplice` | crates/blackwire-common/src/splice.rs:660-693 | every successful epoll relay of both ways is such a splice result, to the end if and only if both sources were read out and the direction that ended last got all of its own out |
| `RelayPaths.SplicedRelay` | crates/blackwire-app/src/relay.rs:140-148 | the relay of two sockets down to the io_uring steps: either side is sent the prefix and what the run delivered, the counts are prefix and run total, and each side got everything if and only if the run read all of its source and stranded nothing |
| `RelayPaths.HalfCloseCutsTheAnswer` | crates/blackwire-app/src/relay.rs:140-148 | concrete case: a client that half-closes and is answered late; with the io_uring run of that case the relay of the two sockets succeeds without any of the answer |
| `CidrIndex.Build` | crates/blackwire-app/src/router.rs:446-456 | the ranges are sorted and none is lost or added |
| `CidrIndex.PartitionPoint` | crates/blackwire-app/src/router.rs:472 | the binary search finds the split at the probe |
| `CidrIndex.ContainsMeans` | crates/blackwire-app/src/router.rs:461-480 | a range contains exactly the addresses of its family with the same leading bits, as many as its prefix, of 32 or 128 |
| `CidrIndex.Matches` | crates/blackwire-app/src/router.rs:461-477 | never a false positive; on any ranges it agrees with the linear scan if and only if some containing range is in sight (written no later than the address, at most three ranges up to it in between); on canonical ranges it agrees with the linear scan if and only if no more than three ranges lie between the innermost containing range and the address |
| `CidrIndex.AgreesExactly` | crates/blackwire-app/src/router.rs:461-477 | the exact condition on any ranges, host bits included |
| `CidrIndex.Nested` | crates/blackwire-app/src/router.rs:444-477 | two canonical ranges that share an address are nested |
| `CidrIndex.InnermostIsLast` | crates/blackwire-app/src/router.rs:472-476 | of the ranges containing an address the innermost is the last in order |
| `CidrIndex.LookupIsExact` | crates/blackwire-app/src/router.rs:461-477 | the exact condition on canonical ranges, told by the innermost containing range |
| `CidrIndex.ShallowIsExact` | crates/blackwire-app/src/router.rs:461-477 | if no range has another inside it four places on, the lookup is exact for every address |
| `CidrIndex.DisjointIsExact` | crates/blackwire-app/src/router.rs:461-477 | in particular for disjoint ranges |
| `CidrIndex.NestedRangeIsMissed` | crates/blackwire-app/src/router.rs:472-476 | concrete case: 10.0.0.0/8 with 10.0.0.1 to 10.0.0.4, looking up 10.0.0.9 |
| `CidrIndex.HostBitsAreMissed` | crates/blackwire-app/src/router.rs:446-477 | concrete case: 10.0.0.200/24 does not find 10.0.0.5 |
| `Routing.WalkSuffixes` | crates/blackwire-app/src/router.rs:408-420 | the walk finds a suffix exactly if the name from some label on is listed |
| `Routing.SuffixMeans` | crates/blackwire-app/src/router.rs:408-420 | which is: some pattern is the name itself or the name ends in a dot and the pattern |
| `Routing.MatchesWithGeo` | crates/blackwire-app/src/router.rs:269-347 | the test of a rule, condition by condition with early returns, is the conjunction of its conditions |
| `Routing.PortRule` | crates/blackwire-app/src/router.rs:291-300 | a rule without conditions matches everything; a rule with one port range matches exactly the ports from its low to its high end, both included; of several any will do |
| `Routing.InboundRule` | crates/blackwire-app/src/router.rs:275-279 | a rule with inbound tags matches exactly the connections of a listed one |
| `Routing.ProtocolRule` | crates/blackwire-app/src/router.rs:281-288 | a rule with protocols matches exactly if one was sniffed and is listed |
| `Routing.DomainRule` | crates/blackwire-app/src/router.rs:302-325 | a rule with names matches exactly a name that is listed, is or ends below a listed suffix, fits the pattern or is in a known group; an address has the sniffed name |
| `Routing.IpRule` | crates/blackwire-app/src/router.rs:327-343 | a rule with ranges or a country matches exactly addresses in them, never a name |
| `Routing.GroupRule` | crates/blackwire-app/src/router.rs:314-336 | of several groups, and of several countries, any will do |
| `Routing.RuleIsItsParts` | crates/blackwire-app/src/router.rs:269-347 | any rule matches if and only if each kind of its conditions alone does |
| `Routing.RouteIsUnique` | crates/blackwire-app/src/dispatcher.rs:484-566 | the declared route is unique |
| `Routing.LiveRouter.constructor` | crates/blackwire-app/src/router.rs:106-128 | the precomputed flag says exactly whether some rule looks at addresses |
| `Routing.LiveRouter.Swap` | crates/blackwire-app/src/router.rs:132-151 | a swap replaces everything and keeps the flag exact |
| `Routing.LiveRouter.PickRouteMatch` | crates/blackwire-app/src/router.rs:163-181 | the first matching rule, or the default and the news that none matched |
| `Routing.LiveRouter.PickRoute` | crates/blackwire-app/src/dispatcher.rs:484-566 | the result is the first matching rule of the first matching candidate of the strategy, else the default |
| `Routing.StrategyOrder` | crates/blackwire-app/src/dispatcher.rs:484-566 | for a name with answers: AsIs decides by the name, IpIfNonMatch by the first answer only if no rule fits the name, IpOnDemand by the first answer before the name if some rule looks at addresses |
| `Routing.AddressesAreFinal` | crates/blackwire-app/src/dispatcher.rs:484-566 | an address is looked at alone under every strategy |
| `Routing.NonMatchKeepsAsIs` | crates/blackwire-app/src/dispatcher.rs:530-537 | IpIfNonMatch routes as AsIs whenever AsIs finds a rule |
| `Routing.WithoutIpRules` | crates/blackwire-app/src/router.rs:269-346 | without address conditions a rule matches a resolved address as it matches the sniffed name |
| `Routing.DnsDoesNotMatter` | crates/blackwire-app/src/dispatcher.rs:484-566 | with no address rules and nothing sniffed the route is the AsIs route for every DNS answer |
| `Routing.AnswersMatterExactly` | crates/blackwire-app/src/dispatcher.rs:539-562 | with no address rules an answer changes the route if and only if the given name finds no rule and the sniffed one diverts |
| `Routing.SniffedNameNeedsDns` | crates/blackwire-app/src/dispatcher.rs:539-562 | concrete case in which it does |
| `InstanceSlot.StepKeeps` | crates/blackwire-cli/src/main.rs:282-326 | every step of the reload task, of management calls and of shutdown keeps the slot invariant |
| `InstanceSlot.SlotProtocol` | crates/blackwire-cli/src/main.rs:282-457 | in every interleaving: slot and builders in flight are at most one, at most one instance is alive, the stored configuration is that of its instance |
| `InstanceSlot.StoreIsSafe` | crates/blackwire-cli/src/main.rs:324-326 | a store never overwrites an instance, and stores what was wanted, or after a rollback what had been taken, or nothing |
| `InstanceSlot.RollbackRestores` | crates/blackwire-cli/src/main.rs:411-455 | from any reachable take to its store, whatever others do meanwhile: the wanted configuration, or the one running at the take, or nothing, according to which builds worked |
| `InstanceSlot.ReadsAgainExactly` | crates/blackwire-cli/src/main.rs:324-326 | after its store, or after giving a change up, an actor can read again if and only if it is the reload task |
| `InstanceSlot.GoneStays` | crates/blackwire-cli/src/main.rs:329-333 | an actor that is gone takes no further step in any run |
| `InstanceSlot.ShutdownIsFinalExactly` | crates/blackwire-cli/src/main.rs:393-396 | after shutdown the slot can fill again if and only if a rebuild was under way that had not already failed |
| `InstanceSlot.AppliedToItsBaseExactly` | crates/blackwire-cli/src/main.rs:459-475 | a change is applied to the configuration it was computed from if and only if nothing was stored since it was read or the last store brought that configuration back |
| `InstanceSlot.UpdateIsLost` | crates/blackwire-cli/src/main.rs:459-475 | concrete run: two overlapping changes, the first is lost |
| `InstanceSlot.RuntimeControl.RebuildWithConfig` | crates/blackwire-cli/src/main.rs:411-457 | uninterrupted, the call is the steps of the machine for its actor; invalid input or an empty slot changes nothing |
| `RestartDecision.InboundListenerChanges` | crates/blackwire-core/src/reload.rs:322-339 | lists, in order, exactly the new inbounds whose listener is not the one running under their tag, and then the new ones again; removed ones are not listed |
| `RestartDecision.RequiresInstanceRestart` | crates/blackwire-core/src/reload.rs:346-387 | asks for a restart unless settings and number of inbounds are equal and each new inbound equals the first old one of its tag |
| `RestartDecision.ComparesEqualExactly` | crates/blackwire-core/src/reload.rs:389-404 | any two inbounds compare equal if and only if they differ only in sniffing and, between VLESS inbounds, in settings.clients |
| `RestartDecision.TagsStayExactly` | crates/blackwire-core/src/reload.rs:375-383 | with every new inbound found among the old, no old tag is missing if and only if the new have as many different tags |
| `RestartDecision.EveryTagStays` | crates/blackwire-core/src/reload.rs:375-383 | as many, distinct, and each found among the old: so no old tag is missing |
| `RestartDecision.NoRestartMeans` | crates/blackwire-core/src/reload.rs:322-404 | with distinct new tags: no restart if and only if equal settings, as many inbounds, equal tag sets, and under each tag inbounds equal but for sniffing and VLESS clients |
| `RestartDecision.NoRestartInGeneral` | crates/blackwire-core/src/reload.rs:346-387 | for any two configurations without a restart: each new inbound equals the first old one of its tag but for sniffing and VLESS clients, with the exact condition for no inbound being gone |
| `RestartDecision.RepeatedTagHidesRemoval` | crates/blackwire-core/src/reload.rs:375-383 | with a repeated tag an inbound can vanish without a restart |
| `GeoCache.GeoCache.LoadCached` | crates/blackwire-core/src/reload.rs:260-316 | each of the two files is replaced exactly if it missed, the other kept |
| `GeoCache.GeoCache.Reload` | crates/blackwire-core/src/reload.rs:260-316 | on a disk that holds still: what an uncached load returns |
| `GeoCache.Serve` | crates/blackwire-core/src/reload.rs:260-316 | over every sequence of reloads and edits each answer is that of an uncached load |
| `GeoCache.StoredEntryIsFreshExactly` | crates/blackwire-core/src/reload.rs:280-313 | an entry stored across an edit answers a restored file rightly if and only if the file was still there to be read, with the content that was fingerprinted |
| `GeoCache.EditDuringReload` | crates/blackwire-core/src/reload.rs:276-298 | concrete cases in which it does not: the file replaced, or gone, between fingerprint and read, and then put back |
| `Socks5.WriteAddress` | crates/blackwire-common/src/socks5_address.rs:114-134 | appends type, address and port, failing exactly for domains over 255 bytes |
| `Socks5.Reader.ReadAddress` | crates/blackwire-common/src/socks5_address.rs:25-57 | the streaming decoder agrees with the slice decoder on success, address and bytes consumed, for every input |
| `Socks5.DecodeInvertsBody` | crates/blackwire-common/src/socks5_address.rs:62-109 | decoding inverts encoding in front of any suffix |
| `Socks5.BodyInvertsDecode` | crates/blackwire-common/src/socks5_address.rs:62-109 | an address that decodes has only that encoding |
| `Socks5.EncodeDatagram` | crates/blackwire-protocol/src/socks5_udp.rs:42-48 | encodes exactly the encodable addresses, and parsing gives address and payload back |
| `Socks5.ParsesExactly` | crates/blackwire-protocol/src/socks5_udp.rs:19-38 | a datagram parses to an address and payload if and only if it is their encoding |
| `Socks5.DatagramBytes` | crates/blackwire-protocol/src/socks5_udp.rs:19-38 | the bytes of a datagram as literals: three zeros, type 1, 4 or 3, four or sixteen octets or a length and a name, the port high byte first, the payload |
| `Socks5.RefusedDatagrams` | crates/blackwire-protocol/src/socks5_udp.rs:19-31 | other reserved bytes, a fragment number, and other types are refused |
| `Socks5.OutOfBoundsExactly` | crates/blackwire-protocol/src/socks5_udp.rs:19-31 | the type byte is read past the end exactly for three zero bytes |

## Left out

- Syscalls, ring memory, tokio scheduling and the internals of h2, quinn and rustls: only their contracts appear (partial progress, end of stream, errors, capacity).
- Cryptography and the VLESS, VMess, Trojan, Shadowsocks, REALITY, ShadowTLS, Hysteria2, mKCP, TUN, FakeIP and DNS-cache code.
- The Vision stream's poll wrappers under backpressure and the Vision relay path with its splice-error fallback; a Vision inbound only leaves the relay model.
- `tls_sni` and protocol sniffing; a sniffed name is an input of routing.
- `guard_pooled_first_write`, and the latency, random and round-robin balancer strategies.
- BufferPool, metrics, statistics counters, logging, URL and JSON escaping.
- The management UI, configuration schema and validation, benches and fuzz targets.
- GunTunnel.Run: schedules end in a flush and reads; closing a stream is covered by `GrpcStream.GrpcStream.PollShutdown` alone.
- UringRelay.CountsAreExact: the drain timeout is a step that may end the relay at any moment; how long it takes is not modelled.
- EpollSplice.RelayBothWays: the two directions are run one after the other on scripts of their own; the drain window is the end of a script.
- RelayPaths.RelayBidirectional: one splice call is one io_uring or one epoll relay; that the first call of a process may turn from one to the other in the middle is not modelled.
- Hotness.HotnessMeter.RecordAndGet: counts are unbounded; saturation and overflow at 64 bits are not modelled.
- PoolAccounting.AccountingLaw: addresses and the bound on the number of destinations are not modelled; which queue is evicted and how many slots a refill wants are free, and the retries of the compare-and-exchange loop are its last, successful one.
- PoolCalls.AdaptivePool.Connect: calls that no other task interrupts; the clock, the hits of a destination and its refills in flight are arguments, and the map from addresses to queues is not modelled.
- AdaptiveBalancer.Balancer.PickAdaptive: one snapshot of the health reports for a whole pick; the program reads the shared table again for each member and again for the current one.
- AdaptiveBalancer.AntiFlapping: exact arithmetic; the rounding of `f64`, the saturation of counters and the time of last selection are not modelled.
- VisionUnpadding.VisionUnpaddingState.Feed: the output buffer is returned rather than appended to.
- CidrIndex.Matches: parsing of range text, and its errors, are not modelled.
- Routing.LiveRouter.PickRoute: one table for the whole call, though the program loads it anew for each candidate; lowercasing of names, keyword and regex matchers, geo databases and the address matcher of a rule are given as predicates.
- InstanceSlot.SlotProtocol: hot reloads change routing inside an instance and not the slot; configurations are opaque, and editing them is the caller's choice of a new one.
- RestartDecision.RequiresInstanceRestart: the shapes of outbounds, TUN, API, transport and limit settings are opaque JSON; serialising an inbound does not fail.
- GeoCache.Serve: the second cache inside the loader, keyed by a content hash, is taken to return what parsing would.
- Socks5.Reader.ReadAddress: kinds of error are not distinguished.
