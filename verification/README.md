# librtpsynth, verified

A Dafny model of the stateful core of librtpsynth, with proofs of what it promises. Each module follows one
component of the library.

| modules | component |
|---|---|
| `Rtp` | the RTP packet parser, against a specification encoder for sections 5.1 and 5.3.1 of RFC 3550 |
| `JitterBuffer`, `JitterClass` | the jitter buffer: as a function of its state, and as an object with loops that is proved equal to that function |
| `JitterInvariant`, `JitterAsserts`, `JitterRuns` | what every call and every run of calls keeps: the state invariant, the assertions of the source, the tiling of the output, the conservation of packets |
| `JitterNumbers`, `JitterReady` | which sequence numbers are extended exactly, what is dropped, and when packets are handed out |
| `JitterDrift`, `JitterDivisor` | how long erasures are, and when a timestamp span divides by zero |
| `JitterShapes`, `JitterLimits` | concrete runs, step by step, and what they show: where the guarantees end |
| `Synth`, `EndToEnd`, `Reorder` | the packet generator, generator and jitter buffer composed, and feeds that arrive out of order |
| `BitMask`, `SpmcQueue` | the lock-free single-producer multi-consumer ring as a transition system |
| `ProcRuns`, `ProcList`, `ProcSchedule` | the deadline scheduler: its runs, its intrusive list, and the worker's operations in place |
| `Sync`, `CommandProtocol` | the command queue, and the protocol between client threads and the worker |
| `ProcSystem`, `ProcStatus`, `ProcClose` | clients, protocol and scheduler together: what the outcomes of `create_channel` and `close` mean |
| `RefTable` | the table that keeps buffered datagrams alive beside the jitter buffer |
| `PollCache`, `TickClock` | the server's channel table with its poll cache, and its tick arithmetic |
| `MuLaw` | the mu-law codec after ITU-T G.711 |
| `Common` | what several modules share |

The shape is the same throughout. Where the library changes state step by step there is a class or a method with
loops, proved against a specification function or predicate; the properties are then lemmas about that
specification, for every input, every run or every interleaving.

The main results, in the order of their difficulty:

* **Jitter buffer, every run.** With a capacity of 0 or of at least 3, any interleaving of `udp_in` and `flush` without
  an underflow keeps the buffer strictly ascending, its size exact and below the capacity, and its marks in place
  (`JitterRuns.RunKeeps`), so that no assertion of the source fires (`JitterAsserts.AssertsHold`, and the assertions in
  `JitterClass`). The ready lists tile the line of logical numbers without hole or overlap (`RunTiles`), and every parsed
  packet is in exactly one place (`RunConserves`).
* **Numbering.** A packet is given the sender's own number if and only if that number lies in a window of 65536 numbers
  around the largest one, of which the lower end is stated (`JitterNumbers.AssignedIff`), for whole runs too
  (`RunNumbersTrueIff`).
* **End to end.** Whatever the generator is asked for, its packets fed in order come out in order with their payloads,
  with a capacity of at least 3, or of 0 if the feed fits (`EndToEnd.GeneratedStreamDelivered`).
* **Reordering.** A packet beyond a gap waits until the gap is filled or the buffer is full (`JitterReady.UdpInReadyExactly`);
  a feed in which no packet is overtaken by more than capacity - 2 others comes out in order, with no drop and no erasure
  before the flush (`Reorder.ReorderedDelivery`).
* **Ring.** In every interleaving of one producer and any number of consumers, what is popped is a prefix of what was
  pushed (`SpmcQueue.PopsArePrefixOfPushes`).
* **Scheduler and commands.** Each callback is called with exactly the deadlines it asked for, never early and never
  again once it stopped (`ProcRuns.RunsAreGood`, performed by `ProcSchedule.Scheduler`); commands are processed once
  and in order, and waiters get their own answers (`CommandProtocol`, performed by `Sync.CommandQueue`); once `close` was
  answered the callback never runs again (`ProcClose.CloseIsFinal`).
* **Caches.** The reference table holds exactly the buffered datagrams, and the poll cache exactly the channels.

Nine properties one might expect are false of the code. The model shows for each how it fails and says precisely when it
holds:

* With capacity 1 or 2 a packet that was already handed out can be buffered again; on every run it cannot if and only if
  the capacity is 0 or at least 3 (`JitterLimits.CapacityBound`).
* In the first epoch a pre-wrap packet is numbered near 2^64; one `udp_in` keeps the invariant if and only if this does
  not happen (`JitterInvariant.UdpInKeepsIff`). If that packet is 65535, and only then, the next one makes the source
  abort (`JitterAsserts.UnderflowAborts`, for capacities from 3 on).
* A purge can leave the epoch base ahead of the largest number; it keeps the two together if and only if it does not
  cross an epoch boundary (`JitterNumbers.PurgeKeepsEpochIff`).
* A packet within 535 of the largest number can then be misnumbered: with capacity 3, after the packets 65400, 10, 10
  and 10, packet 65401 becomes number 130937 (`JitterLimits.CrossingHappens`). Such a packet is numbered right if and only
  if the purge did not cross an epoch boundary or the packet's number is not below the epoch base
  (`JitterNumbers.AssignedNearIff`).
* On a stream whose timestamps advance by a fixed step, an erasure of g packets spans step * g if and only if
  step * (g + 1) * g < 2^32 (`JitterNumbers.ErasureTsIff`, and `RunErasuresSpanGaps` for whole runs); with a step of 160
  an erasure of 5181 packets spans 135 ticks instead of 828960 (`JitterLimits.LongGapMisspans`).
* The divisor of a timestamp span can wrap to 0; no run makes it do so if and only if the capacity lies between 3 and
  65536 (`JitterDivisor.DivisorBound`), with a run for capacity 0 and one for every capacity from 65537 on.
* An in-order feed can lose packets with capacity 0: nothing is dropped if and only if the capacity is at least 3, or the
  feed starts at number 0, or it is shorter than 2^32 (`EndToEnd.InOrderDeliveryIff`).
* A `close` that comes after shutdown was requested is refused, reports success all the same, and does not remove the
  channel; its callback can run again (`ProcClose.RefusedCloseRunsAgain`). After a successful `close` it never does if and
  only if the worker is past its due channels or has seen shutdown, or the channel has no deadline, or shutdown or the
  channel's removal is already detached (`ProcClose.CloseFinalIff`); a `close` that was answered is always final.
* The reference table is exhausted as soon as the buffer keeps a packet if the capacity is 0, and never otherwise
  (`RefTable.Table.UdpIn`).

`dafny verify dfyconfig.toml` checks the whole project.

## Model

| member | source | states |
|---|---|---|
| `Rtp.CountG723Samples` | src/rtp.c:126-138 | the loop computes the count of the specification, reading only inside the payload |
| `Rtp.G723SamplesCountFrames` | src/rtp.c:104-138 | a known count is 240 for each frame of a partition of the payload that starts at its first octet and reaches its end |
| `Rtp.G723Lengths` | src/rtp.c:104-124 | a G.723 frame has 24, 20 or 4 octets by the two low bits of its first octet, and one code is reserved |
| `Rtp.G723UnknownMeetsReserved` | src/rtp.c:126-138 | the count is unknown because the walk over whole frames comes to one with the reserved code |
| `Rtp.FillInfo` | src/rtp.c:212-229 | the closing part fills in what the specification has; what that is for the derived fields is stated by ParsedSamples |
| `Rtp.ParseRaw` | src/rtp.c:166-230 | the parser returns, for every byte string, the record or the error of the specification, tests made in the same order, every read in bounds |
| `Rtp.ParseEncode` | src/rtp.c:166-230 | parsing inverts the specification encoder: every field of every well-formed packet is recovered |
| `Rtp.ParsedSamples` | src/rtp.c:140-164 | samples of a parsed packet by type: the octets for types 0, 8 and 9; 80 for each 10-octet frame begun for 18; 160 for each whole 33-octet frame for 3; the frame walk for 4; unknown for every other type and for an empty payload; also when it is appendable |
| `Rtp.EncodeDecode` | src/rtp.c:166-230 | an accepted byte string is the encoding of the well-formed packet read out of it |
| `Rtp.ParserAcceptsExactly` | src/rtp.c:166-230 | a byte string is accepted if and only if it is the encoding of a well-formed version 2 packet with CSRC list, extension and padding |
| `Rtp.ParsedExtent` | src/rtp.c:198-215 | offset, data size and padding add up to the length; the fields fit their widths |
| `Rtp.ParseErrorIff` | src/rtp.c:182-210 | each error of the parser if and only if its own condition on the octets holds, and acceptance otherwise |
| `JitterInvariant.RunLengthRun` | src/rtpjbuf.c:268-272 | the head run found by the loop is the longest prefix of consecutive numbers |
| `JitterInvariant.InsertPosSplits` | src/rtpjbuf.c:239-248 | the scan stops where all smaller numbers are before and all larger ones behind |
| `JitterInvariant.PurgeKeeps` | src/rtpjbuf.c:69-95 | the purge keeps the invariant, drops at most one frame and never empties the buffer, for a capacity of 0 or of at least 3 |
| `JitterInvariant.AdmitKeeps` | src/rtpjbuf.c:212-291 | late, duplicate, first and inserted packets all keep the invariant |
| `JitterInvariant.UdpInKeeps` | src/rtpjbuf.c:165-292 | every udp_in that does not underflow keeps the invariant |
| `JitterInvariant.UdpInKeepsIff` | src/rtpjbuf.c:204-206 | one udp_in keeps the invariant if and only if it does not take the pre-wrap branch in the first epoch |
| `JitterAsserts.AssertsHold` | src/rtpjbuf.c:165-292 | in a good state no assertion of udp_in fails, whatever the packet |
| `JitterAsserts.UnderflowAborts` | src/rtpjbuf.c:165-292 | after an underflow an assertion of udp_in fails on the next packet, whatever it is, if and only if the packet that underflowed had sequence number 65535 |
| `JitterInvariant.UdpInFits` | src/rtpjbuf.c:37-41 | the size field fits its 32 bits whatever the capacity, 0 included |
| `JitterInvariant.FlushSplitRun` | src/rtpjbuf.c:305-317 | the relinking loop of flush ends with the longest consecutive suffix |
| `JitterInvariant.FlushKeeps` | src/rtpjbuf.c:294-323 | flush keeps the invariant |
| `JitterRuns.RunKeeps` | src/rtpjbuf.c:165-323 | every run of udp_in and flush keeps the invariant |
| `JitterRuns.TilesCover` | src/rtpjbuf.c:134-163 | in a tiling every number of the range is covered by one frame and by no other |
| `JitterRuns.TilesAscend` | src/rtpjbuf.c:134-163 | in a tiling numbers strictly increase from frame to frame |
| `JitterRuns.UdpInTiled` | src/rtpjbuf.c:165-292 | the ready list of a udp_in continues the tiling exactly where it ended |
| `JitterRuns.FlushTiled` | src/rtpjbuf.c:294-323 | the ready list of a flush continues the tiling exactly where it ended |
| `JitterRuns.RunTiles` | src/rtpjbuf.c:165-323 | the ready lists of any run, put together, tile the line of numbers up to the last one handed out |
| `JitterRuns.StepConserves` | src/rtpjbuf.c:165-323 | what was held and taken in equals, as a multiset, what is held, handed out and dropped, for each call |
| `JitterRuns.RunConserves` | src/rtpjbuf.c:165-323 | over any run each parsed packet is in exactly one place: buffered, handed out or dropped |
| `JitterRuns.FlushReturnsSuffix` | src/rtpjbuf.c:294-323 | flush hands out the longest consecutive suffix, drops exactly the frames before it, the latest run first, and empties the buffer |
| `JitterNumbers.UnwrapNear` | src/rtpjbuf.c:191-211 | in an exact epoch any packet gets a number congruent to its sequence number and within 65000 of the largest |
| `JitterNumbers.UnwrapExactIff` | src/rtpjbuf.c:191-211 | extension gives the true number if and only if that number lies in a window of 65536 numbers, wherever the epoch base stands |
| `JitterNumbers.NearInWindow` | src/rtpjbuf.c:191-211 | a number within 535 of the largest lies in the window if and only if the epoch base is not ahead of both |
| `JitterNumbers.UnwrapExact` | src/rtpjbuf.c:191-211 | in an exact epoch a packet whose true number is within 535 of the largest gets exactly that number, without underflow |
| `JitterNumbers.PurgeKeepsEpochIff` | src/rtpjbuf.c:83-92 | a purge keeps the epoch exact if and only if it does not cross into an earlier one |
| `JitterNumbers.UdpInKeepsEpoch` | src/rtpjbuf.c:191-292 | the rest of a udp_in keeps the epoch exact |
| `JitterNumbers.AssignedIff` | src/rtpjbuf.c:173-211 | a packet is given the sender's own number if and only if that number lies in the window of the purged buffer |
| `JitterNumbers.AssignedNearIff` | src/rtpjbuf.c:173-211 | within 535 of the largest number, and the epoch exact before the call, a packet is given its true number if and only if the purge does not cross into an earlier epoch or the number is not below the epoch base |
| `JitterNumbers.WindowRunKeeps` | src/rtpjbuf.c:165-323 | a run whose packets lie in the window takes only safe steps and keeps the invariant |
| `JitterNumbers.RunNumbersTrueIff` | src/rtpjbuf.c:165-323 | over any run every packet is given the sender's own number if and only if each lies in the window when it arrives; the sender's numbers go by place in the run |
| `JitterNumbers.RunNumbersAreTrue` | src/rtpjbuf.c:165-323 | over a run whose packets lie in the window, everything held, handed out or dropped bears the sender's number of a place where it arrived |
| `JitterNumbers.UdpInDropsExactly` | src/rtpjbuf.c:165-292 | udp_in drops its packet if and only if its number was passed or is buffered, and besides it only the purged frame; it counts it as a duplicate if and only if its number is the last one handed out or is buffered, and otherwise as late |
| `JitterNumbers.UdpInMalformed` | src/rtpjbuf.c:180-186 | a datagram that does not parse is reported with its error and counted once; nothing else changes but by the purge |
| `JitterNumbers.RunCountsWraps` | src/rtpjbuf.c:207-211 | over every run the epoch base is 65536 times the wraps counted |
| `JitterReady.UdpInReadyExactly` | src/rtpjbuf.c:221-285 | packets are handed out if and only if the packet is the next number, or number 0 before any other, or fills the buffer; an erasure comes first if and only if it fills the buffer and is not the next number; a passed or buffered packet hands nothing out |
| `JitterNumbers.ErasureTsIff` | src/rtpjbuf.c:144-152 | on an evenly spaced stream an erasure of g packets spans step * g, also across the 32-bit timestamp wrap, if and only if step * (g + 1) * g < 2^32 |
| `JitterNumbers.RunErasuresSpanGaps` | src/rtpjbuf.c:134-154 | over any run on such a stream an erasure of g packets after warm-up spans step * g if and only if step * (g + 1) * g < 2^32 |
| `JitterDrift.RunDrift` | src/rtpjbuf.c:69-95 | in every run the epoch base is at most one epoch ahead of the largest number, and neighbours in the buffer are at most one epoch apart |
| `JitterDrift.UdpInErasuresShort` | src/rtpjbuf.c:264-285 | an erasure made by udp_in stands for fewer than 2^17 - 1 numbers |
| `JitterDrift.FlushErasuresShort` | src/rtpjbuf.c:305-318 | an erasure made by flush stands for fewer than 65536 * capacity - 1 numbers |
| `JitterDrift.RunDivisorsNonzero` | src/rtpjbuf.c:151-152 | for capacities from 3 to 65536 no run makes the divisor of a timestamp span wrap to 0 |
| `JitterDivisor.DivisorVanishes` | src/rtpjbuf.c:151-152 | from capacity 65537 on a run makes the divisor wrap to 0 |
| `JitterDivisor.DivisorVanishesUnbounded` | src/rtpjbuf.c:151-152 | with capacity 0 a run makes the divisor wrap to 0 |
| `JitterDivisor.DivisorBound` | src/rtpjbuf.c:151-152 | over all capacities the buffer works with, no run makes the divisor wrap to 0 if and only if the capacity lies between 3 and 65536 |
| `JitterLimits.SmallCapacityFails` | src/rtpjbuf.c:75-92 | with capacity 1 or 2 a concrete run buffers a packet that was already handed out |
| `JitterLimits.CapacityBound` | src/rtpjbuf.c:69-95 | what is buffered stays beyond what was handed out on every run if and only if the capacity is 0 or at least 3 |
| `JitterLimits.UnderflowHappens` | src/rtpjbuf.c:196-206 | packet 0 followed by packet 65535 breaks the invariant, and whatever packet comes next makes udp_in abort |
| `JitterLimits.CrossingHappens` | src/rtpjbuf.c:83-92 | with capacity 3 the packets 65400, 10, 10, 10 lead to a purge across the epoch boundary, after which packet 65401 is numbered 130937 |
| `JitterLimits.LongGapMisspans` | src/rtpjbuf.c:151-152 | on a stream with step 160 an erasure of 5181 packets spans 135 instead of 828960 |
| `JitterClass.Buffer.constructor` | src/rtpjbuf.c:97-111 | a new buffer is in the initial state |
| `JitterClass.Buffer.PurgeStaleTail` | src/rtpjbuf.c:69-95 | the walk to the tail, its aging and its removal are the purge of the specification |
| `JitterClass.Buffer.ExtendSeq` | src/rtpjbuf.c:191-211 | the wrap check yields the number and the epoch base of the specification |
| `JitterClass.Buffer.InsertErsFrame` | src/rtpjbuf.c:134-154 | the erasure before a frame, with the assertion of the source |
| `JitterClass.Buffer.SaveLast` | src/rtpjbuf.c:156-163 | records number and timestamp; the source's assertion is the precondition |
| `JitterClass.Buffer.AdmitToEmpty` | src/rtpjbuf.c:221-238 | the first packet is handed out or starts the buffer, as specified |
| `JitterClass.Buffer.FindPlace` | src/rtpjbuf.c:239-248 | the scan finds the number of smaller frames, and a duplicate if there is one |
| `JitterClass.Buffer.WalkHeadRun` | src/rtpjbuf.c:267-272 | the walk ends at the last frame of the head run and uncounts exactly that run |
| `JitterClass.Buffer.Release` | src/rtpjbuf.c:264-285 | hands out erasure and head run as specified; the source's assertions hold |
| `JitterClass.Buffer.InsertFrame` | src/rtpjbuf.c:249-286 | inserts at the place found and hands out when due, as specified |
| `JitterClass.Buffer.Admit` | src/rtpjbuf.c:202-291 | the late and duplicate checks and the insertion, as specified; the source's assertions hold |
| `JitterClass.Buffer.UdpIn` | src/rtpjbuf.c:165-292 | new state, error, ready list and drop list are those of the specification, and the invariant is kept |
| `JitterClass.Buffer.SplitRuns` | src/rtpjbuf.c:305-317 | one pass over the list yields the last run and the dropped runs in the order of the source |
| `JitterClass.Buffer.Flush` | src/rtpjbuf.c:294-323 | new state, ready list and drop list are those of the specification, and the buffer is empty |
| `Synth.PacketsConsecutive` | src/rtpsynth.c:143-218 | whatever is called in between, packets carry consecutive sequence numbers modulo 65536 and the payloads asked for, in order |
| `Synth.PacketOfCall` | src/rtpsynth.c:143-218 | every packet by the call that asked for it: its number counts the packets before it, its timestamp the packets made and skipped before it times the step, modulo 2^32; payload and type as asked; the marker if and only if it was set since the packet before, or from the start if there is none |
| `Synth.Generator.constructor` | src/rtpsynth.c:116-141 | the counters start from the random values: an even timestamp, a 16-bit sequence number, the marker set, a step of 8 ticks per millisecond |
| `Synth.Generator.NextPktPa` | src/rtpsynth.c:143-177 | the buffer holds the encoding of the next packet and zeros behind it, a payload already there having been moved; too small a buffer changes nothing |
| `Synth.Generator.SkipPackets` | src/rtpsynth.c:196-204 | skipping moves the timestamp only |
| `Synth.Generator.SetMbt` | src/rtpsynth.c:206-218 | sets the marker and returns the old one |
| `EndToEnd.InOrderDelivery` | src/rtpjbuf.c:165-323 | packets numbered consecutively and fed in order come out once each, in order, as parsed, across any number of wraps, whenever the feed fits |
| `EndToEnd.InOrderDeliveryIff` | src/rtpjbuf.c:69-95 | nothing is dropped from an in-order feed if and only if it fits: with capacity 0, unless it starts at number 0, it must be shorter than 2^32 |
| `EndToEnd.GeneratedStreamDelivered` | src/rtpsynth.c:143-177 | the generator's packets, fed in order and flushed, come out in order with the payloads asked for, with no drop and no erasure before the flush |
| `Reorder.ReorderedDelivery` | src/rtpjbuf.c:165-323 | a feed in which no packet is overtaken by more than capacity - 2 others, and numbers stay within 535, comes out in order, each packet as it arrived, with no drop and no erasure before the flush |
| `BitMask.AndMask` | src/SPMCQueue.c:79-79 | masking with 2^k - 1 is the remainder by 2^k |
| `BitMask.PowerOfTwoTest` | src/SPMCQueue.c:69-70 | capacity & (capacity - 1) is 0 if and only if the capacity is a power of two |
| `SpmcQueue.CreateQueue` | src/SPMCQueue.c:62-85 | a ring is made if and only if the capacity is a power of two that fits and there is memory; it satisfies the invariant |
| `SpmcQueue.ProduceKeeps` | src/SPMCQueue.c:109-131 | every step of a push keeps the ring's invariant and never overwrites a value not yet consumed |
| `SpmcQueue.ConsumeKeeps` | src/SPMCQueue.c:135-188 | every step of a pop keeps the invariant, although the write cache may move backwards |
| `SpmcQueue.ApplyKeeps` | src/SPMCQueue.c:109-188 | every step of any thread keeps what every other thread relies on |
| `SpmcQueue.RunKeeps` | src/SPMCQueue.c:109-188 | every interleaving keeps the invariant |
| `SpmcQueue.HistoryRun` | src/SPMCQueue.c:109-188 | the recorded histories are exactly what pushes accepted and pops returned |
| `SpmcQueue.PopsArePrefixOfPushes` | src/SPMCQueue.c:109-188 | in every interleaving the values popped, in the order of their swaps, are a prefix of the values pushed: none lost, repeated, reordered or overwritten |
| `SpmcQueue.ReachableBounds` | src/SPMCQueue.c:112-153 | in every reachable state readIdxCache <= readIdx <= writeIdx <= readIdxCache + capacity and writeIdxCache <= writeIdx |
| `SpmcQueue.PushRefusedOnlyWhenFull` | src/SPMCQueue.c:121-130 | a push is refused if and only if the ring is full when it loads the read index |
| `SpmcQueue.PopRefusedOnlyWhenEmpty` | src/SPMCQueue.c:144-153 | a pop is refused only if the ring was empty when it loaded the write index; the assertion after it never fails |
| `SpmcQueue.PopReturnsCount` | src/SPMCQueue.c:161-188 | a successful pop returns the next values pushed: one, or exactly as many as were asked for and were available at the write index it loaded |
| `SpmcQueue.LoadsAreCurrent` | src/SPMCQueue.c:141-147 | the indices a pop works with are those of the ring when it loads them |
| `SpmcQueue.PopCarriesCall` | src/SPMCQueue.c:161-188 | a pop carries its call until it returns, and no step touches another consumer |
| `SpmcQueue.PushesTheArgument` | src/SPMCQueue.c:109-131 | after any run a push under way is about the value it was called with |
| `ProcRuns.NextKeeps` | python/RtpProc_mod.c:726-831 | every step keeps the log good and each channel's deadline the one its latest event left |
| `ProcRuns.RunsAreGood` | python/RtpProc_mod.c:726-831 | each callback is called first with deadline 0, then only with, and not before, the time it asked for last (raised to now for the initial call only) |
| `ProcRuns.CallFollows` | python/RtpProc_mod.c:726-831 | the first call of a channel has deadline 0; each later one follows a call that asked for a time, has that time as its deadline, raised to the time of asking for the first call only, and is not early |
| `ProcRuns.NeverAgain` | python/RtpProc_mod.c:726-831 | once a channel stopped, raised or was removed it is never called again |
| `ProcList.InsertLinked` | python/RtpProc_mod.c:402-406 | relinking one place inserts one slot and leaves the list acyclic and otherwise the same |
| `ProcList.RemoveLinked` | python/RtpProc_mod.c:369-384 | relinking one place removes one slot and leaves the list acyclic and otherwise the same |
| `ProcList.ScheduleKeeps` | python/RtpProc_mod.c:387-407 | scheduling keeps the list sorted, acyclic and exactly the active scheduled channels |
| `ProcList.UnscheduleKeeps` | python/RtpProc_mod.c:358-385 | unscheduling keeps the list sorted, acyclic and exactly the active scheduled channels |
| `ProcSchedule.HeadIsEarliest` | python/RtpProc_mod.c:433-445 | the head of the list is an earliest deadline of all active scheduled channels, and there is a head exactly if there is such a channel |
| `ProcSchedule.Scheduler.constructor` | python/RtpProc_mod.c:921-924 | an empty scheduler satisfies the invariant |
| `ProcSchedule.Scheduler.FindPlace` | python/RtpProc_mod.c:402-404 | the walk ends behind every channel due no later and before one due later |
| `ProcSchedule.Scheduler.LinkBehind` | python/RtpProc_mod.c:405-406 | the two pointer writes are the insertion at that place |
| `ProcSchedule.Scheduler.FindSlot` | python/RtpProc_mod.c:369-373 | the walk finds the slot in the list |
| `ProcSchedule.Scheduler.UnlinkBehind` | python/RtpProc_mod.c:379-384 | the pointer writes are the removal of that place |
| `ProcSchedule.Scheduler.Schedule` | python/RtpProc_mod.c:387-407 | the list invariant holds and the one channel has its new deadline, all else unchanged |
| `ProcSchedule.Scheduler.Unschedule` | python/RtpProc_mod.c:358-385 | the list invariant holds and the one channel is not scheduled, all else unchanged |
| `ProcSchedule.Scheduler.PopDue` | python/RtpProc_mod.c:433-445 | yields a due channel with a minimum deadline, or shows that nothing is due |
| `ProcSchedule.Scheduler.Rebuild` | python/RtpProc_mod.c:409-431 | from slots alone, whatever their links, the list invariant is established and nothing but links changes |
| `ProcSchedule.Scheduler.EnsureCapacity` | python/RtpProc_mod.c:479-509 | growth doubles the array until it suffices and keeps all channels and the list, also when the array moves; it fails only for lack of memory or of address space |
| `ProcSchedule.Scheduler.AllocSlot` | python/RtpProc_mod.c:511-527 | the first free slot, growing when there is none; fails only when every slot is taken and growth fails |
| `ProcSchedule.Scheduler.FindChannel` | python/RtpProc_mod.c:529-539 | finds the slot of an identifier, or shows that none holds it |
| `ProcSchedule.Scheduler.ReleaseSlot` | python/RtpProc_mod.c:447-463 | frees one slot out of the list, all else unchanged |
| `ProcSchedule.Scheduler.ProcessAdd` | python/RtpProc_mod.c:736-769 | the add command performs exactly the add step with status 0, initial call with deadline 0, first deadline raised to now; or nothing with status ENOMEM |
| `ProcSchedule.Scheduler.ProcessRemove` | python/RtpProc_mod.c:541-562 | the remove command performs exactly the remove step, also for an unknown channel |
| `ProcSchedule.Scheduler.ProcessCommand` | python/RtpProc_mod.c:736-783 | one command is handled, up to its status, exactly as in the composed system |
| `ProcSchedule.Scheduler.RunOneDue` | python/RtpProc_mod.c:806-831 | one turn of the loop performs an enabled run step on an earliest due channel with its own deadline, or nothing is due |
| `ProcSchedule.Scheduler.ClearChannels` | python/RtpProc_mod.c:465-477 | on exit every channel is released |
| `ProcSystem.NextKeeps` | python/RtpProc_mod.c:640-890 | every move of clients and worker together keeps identifiers fresh until they are added and every completed command witnessed in the log, with its status |
| `ProcSystem.NextInStep` | python/RtpProc_mod.c:792-851 | every move keeps the worker in its loop: commands, then due channels, then commands again; commands are refused only after shutdown was requested |
| `ProcSystem.RunKeeps` | python/RtpProc_mod.c:640-890 | so does every run, and the log only grows |
| `ProcSystem.CreateHasCalled` | python/RtpProc_mod.c:1016-1097 | once create_channel was answered with success the callback has had its initial call with deadline 0 |
| `ProcStatus.StatusExact` | python/RtpProc_mod.c:726-790 | in every reachable state a completed removal or shutdown has status 0, and a completed add has status 0 if its initial call is in the log and ENOMEM otherwise |
| `ProcClose.CloseIsFinal` | python/RtpProc_mod.c:1128-1199 | once close was answered the callback never runs again, whatever happens afterwards |
| `ProcClose.CloseFinalIff` | python/RtpProc_mod.c:1171-1194 | after a close that reported success, answered with status 0 or refused, the callback never runs again if and only if the worker is past its due channels or has seen shutdown, or the channel has no deadline, or shutdown or its removal is already detached |
| `ProcClose.RefusedCloseRunsAgain` | python/RtpProc_mod.c:1171-1194 | a run in which close is refused because shutdown was requested, reports success, and the callback runs again |
| `Sync.ChainKept` | src/rtp_sync.c:94-115 | a chain none of whose links changed is still the same chain |
| `Sync.PushThreads` | src/rtp_sync.c:104-114 | pushing writes two links, appends to the queue and leaves the detached list the worker is walking |
| `Sync.CommandQueue.constructor` | python/RtpProc_mod.c:918-919 | an empty queue and no detached list, in step with the start of the protocol |
| `Sync.CommandQueue.Push` | src/rtp_sync.c:94-115 | the push performs the protocol's enqueueing action; only the links of the new command and of the old tail are written, and the detached list stays what it is |
| `Sync.CommandQueue.DetachAll` | src/rtp_sync.c:117-130 | detaching performs the protocol's detaching action: the whole chain is handed over in order and the queue is empty |
| `Sync.CommandQueue.TakeNext` | python/RtpProc_mod.c:732-788 | one turn of the worker's loop performs the protocol's processing action on the first detached command, frees it and leaves the queue |
| `CommandProtocol.ApplyKeeps` | python/RtpProc_mod.c:640-790 | every action of clients and worker keeps the protocol's invariant |
| `CommandProtocol.RunKeeps` | python/RtpProc_mod.c:640-890 | every interleaving keeps it |
| `CommandProtocol.ClientCarriesKind` | python/RtpProc_mod.c:315-356 | a client is about what it asked for from taking the waiter until giving it back, and takes it only while it is free |
| `CommandProtocol.EnqueuedAsAsked` | python/RtpProc_mod.c:640-678 | an accepted command is what its client asked for, at the end of the queue and with its waiter; otherwise the client is refused |
| `CommandProtocol.CommandsProcessedInOrder` | python/RtpProc_mod.c:640-851 | accepted commands are processed once each in the order of acceptance, none is accepted behind a shutdown, and the worker's exit frees none unprocessed |
| `CommandProtocol.WaitersAnswered` | src/rtp_sync.c:52-92 | a waiting client's command is queued, detached or completed, at most one live command carries the waiter, and an answer is the status of the client's own command |
| `RefTable.TableAfter` | python/RtpJBuf_mod.c:896-908 | what was buffered, with the input if neither list names it, is what is buffered now and all that the lists name besides the input |
| `RefTable.Table.constructor` | python/RtpJBuf_mod.c:967-993 | a new table is empty, as is its buffer; for a capacity of 0 or of at least 3 they satisfy the invariant |
| `RefTable.Table.StoreDataRef` | python/RtpJBuf_mod.c:747-766 | a reference goes into a free slot; it fails if and only if there is none |
| `RefTable.Table.FetchCachedRef` | python/RtpJBuf_mod.c:704-727 | takes the reference at an address out of its slot, or shows that there is none |
| `RefTable.Table.ProcessReadyList` | python/RtpJBuf_mod.c:729-820 | each ready packet gets its own datagram and tag, and exactly these leave the table |
| `RefTable.Table.ProcessDropList` | python/RtpJBuf_mod.c:822-840 | dropped packets are counted and exactly their references leave the table |
| `RefTable.Table.ReadyHasDataPtr` | python/RtpJBuf_mod.c:768-777 | tells whether a packet of a ready list lies at an address, passing over erasures |
| `RefTable.Table.DropHasDataPtr` | python/RtpJBuf_mod.c:768-777 | tells whether a packet of a drop list lies at an address |
| `RefTable.Table.KeepInput` | python/RtpJBuf_mod.c:896-905 | the input is stored if and only if neither list names it, and this fails if and only if no slot is free |
| `RefTable.Table.HandOut` | python/RtpJBuf_mod.c:907-908 | the ready and the drop list take exactly their own references, and what is buffered stays |
| `RefTable.Table.TakeParsed` | python/RtpJBuf_mod.c:896-910 | for a packet that parses, the table afterwards holds exactly what is buffered, or it has no slots at all |
| `RefTable.Table.UdpIn` | python/RtpJBuf_mod.c:861-911 | the table holds exactly the buffered datagrams afterwards, every ready packet comes with its own datagram and tag, and the table is exhausted if and only if it has no slots at all and the buffer keeps the packet |
| `RefTable.Table.Flush` | python/RtpJBuf_mod.c:913-930 | the same for flush, after which table and buffer are empty |
| `PollCache.Server.constructor` | python/RtpServer_mod.c:1156-1163 | an empty server satisfies the invariant |
| `PollCache.Server.EnsureCapacity` | python/RtpServer_mod.c:359-386 | growth doubles the table until it suffices, keeps the channels and marks the cache dirty; it fails only for lack of memory or of address space |
| `PollCache.Server.AllocSlot` | python/RtpServer_mod.c:388-406 | the first free slot, growing when there is none |
| `PollCache.Server.Add` | python/RtpServer_mod.c:901-918 | the add command fills one free slot, counts it and marks the cache dirty, or changes no channel |
| `PollCache.Server.Find` | python/RtpServer_mod.c:408-420 | finds the slot of a channel, or shows that no slot holds it |
| `PollCache.Server.Remove` | python/RtpServer_mod.c:431-448 | the remove command empties that slot, uncounts it and marks the cache dirty, or finds nothing |
| `PollCache.Server.DropAll` | python/RtpServer_mod.c:341-357 | the drop command leaves no channel and an empty, clean cache |
| `PollCache.Server.Refresh` | python/RtpServer_mod.c:516-563 | a clean cache lists exactly the channels in slot order; a reallocation that fails midway leaves a valid, dirty cache |
| `PollCache.Server.Rebuild` | python/RtpServer_mod.c:551-561 | the loop writes exactly the channels in slot order, inside the capacity |
| `PollCache.ListedSlots` | python/RtpServer_mod.c:551-559 | the listing names the slots that hold a channel, each once, in slot order |
| `TickClock.NextTickWithin` | python/RtpServer_mod.c:1007-1018 | the next tick lies in (now, now + tick] on the grid of the old one |
| `TickClock.NextTickUnique` | python/RtpServer_mod.c:1007-1018 | it is the only such point |
| `TickClock.CatchUp` | python/RtpServer_mod.c:1007-1018 | the loop terminates with that tick, or with now if it would not fit 64 bits |
| `TickClock.TickNs` | python/RtpServer_mod.c:1184-1186 | the period is the whole nanoseconds in one cycle, and 1 beyond 10^9 Hz |
| `TickClock.LookPerformsRound` | python/RtpServer_mod.c:998-1019 | a look at or after the next tick, or the first after an idle reset, performs a round; an earlier one changes nothing |
| `TickClock.TicksStayOnGrid` | python/RtpServer_mod.c:972-1019 | between idle resets all ticks lie on the grid of the first round and no period sees two rounds |
| `TickClock.NeverLongWithoutRound` | python/RtpServer_mod.c:972-1019 | the next tick always lies within one period after the latest round |
| `MuLaw.LinearToUlawScalar` | python/RtpUtils_mod.c:68-92 | the search for the highest bit yields the code with that segment, for every sample |
| `MuLaw.DecodeSteps` | python/RtpUtils_mod.c:94-111 | decoded levels start at 0 and rise by 8 * 2^e inside segment e and by 12 * 2^e at its end; negative codes mirror positive ones |
| `MuLaw.QuantiseClose` | python/RtpUtils_mod.c:68-111 | decoding an encoded sample is within 4 * 2^e of the sample clipped to +/-32635 |
| `MuLaw.QuantiseMonotone` | python/RtpUtils_mod.c:68-111 | the quantiser keeps the order of samples |
| `MuLaw.QuantiseIdempotent` | python/RtpUtils_mod.c:68-111 | quantising twice is quantising once |
| `MuLaw.DecodeEncode` | python/RtpUtils_mod.c:68-111 | encoding a decoded code gives it back if and only if it is not the code of negative zero |
| `MuLaw.Tables.constructor` | python/RtpUtils_mod.c:21-21 | the tables start out unfilled |
| `MuLaw.Tables.EnsureTables` | python/RtpUtils_mod.c:113-127 | both tables hold the scalar conversion of every index |
| `MuLaw.Tables.LinearToUlaw` | python/RtpUtils_mod.c:360-363 | bulk encoding is the scalar encoding of every sample |
| `MuLaw.Tables.UlawToLinear` | python/RtpUtils_mod.c:409-410 | bulk decoding is the scalar decoding of every code |

## Left out

- JitterClass.Buffer.UdpIn: asks for the invariant, for room for another epoch below 2^64, and that the call does not underflow; the invariant asks for a capacity of 0 or of at least 3. Capacities 1 and 2 and the underflow are treated by `JitterLimits.CapacityBound`, `JitterLimits.SmallCapacityFails`, `JitterLimits.UnderflowHappens`, `JitterAsserts.UnderflowAborts` and `JitterInvariant.UdpInKeepsIff`; the out-of-memory return is not modelled.
- JitterClass.Buffer.Flush: asks for the invariant, and so leaves out capacities 1 and 2, for which the assertions of the source need not hold.
- JitterClass.Buffer.PurgeStaleTail: the linked list is a field of type `seq`, so that relinking is splicing; the in-place `next` pointers of the frames are not represented here.
- JitterClass.Buffer.InsertErsFrame: a divisor that wraps to 0 is given the quotient 0, where the C program is undefined; `JitterDivisor.DivisorBound` says for which capacities a run meets it. The one erasure frame that the source reuses is a value here.
- JitterDivisor.DivisorBound: leaves out capacities 1 and 2, for which the invariant fails.
- JitterAsserts.UnderflowAborts: leaves out capacity 0, where a purge may drop the packet that underflowed once 2^32 - 1 frames are held.
- JitterNumbers.RunErasuresSpanGaps: leaves out an erasure that flush puts first during warm-up, whose reference timestamp is the initial 0 and belongs to no packet.
- EndToEnd.GeneratedStreamDelivered: asks that the feed fits, as `EndToEnd.InOrderDeliveryIff` says, leaves out capacities 1 and 2, and is bounded by 2^64 - 262144 packets, which keeps logical numbers below 2^64.
- Reorder.ReorderedDelivery: asks for a capacity of at least 3, for numbers within 535 of the largest so far, and for a feed without loss; with larger depths a packet can be released past or purged, and the theorem says nothing.
- Rtp.ParseRaw: sizes are unbounded, so the narrowing of a sample count to `int` for payloads of 2^31 bytes and more is not represented; the profile pointer is the index into the profile table, whose contents are not modelled.
- Synth.Generator.NextPktPa: takes no negative payload length, and `int` overflow of the timestamp step is not represented; the SSRC is the value as it reads in the header, whatever the byte order of the machine; the clock reading is left out.
- SpmcQueue.PopsArePrefixOfPushes: memory is sequentially consistent, so nothing is said about the C11 orderings; indices are unbounded, so wrap-around of a 64-bit index or of `readIdx + howmany` is excluded.
- SpmcQueue.PopRefusedOnlyWhenEmpty: one direction, because a consumer with an outdated read index retries on an empty ring instead of reporting it.
- ProcSchedule.Scheduler.RunOneDue: one turn of the worker's loop; the endless loop is any sequence of such turns and of commands, as in `ProcRuns.RunsAreGood`. Waiting for deadlines and conversion between clocks are left out. Callbacks are arbitrary functions and cannot reach into the scheduler.
- ProcSchedule.Scheduler.EnsureCapacity: the slot array is a `seq` with a block number that stands for its address; byte sizes are not modelled, so a product that overflows `size_t` is not represented.
- ProcSchedule.Scheduler.Unschedule: the branch for a scheduled channel that is missing from the list is left out, since the invariant excludes it.
- Sync.CommandQueue.Push: commands go by serial numbers, so that an address used again after a command was freed counts as a new command.
- ProcClose.CloseFinalIff: clients are threads other than the worker, and close only channels whose creation was answered. A `close` that fails because another synchronous command is in progress reports an error and is not a success. That each step of the machine is performed by the worker is in the contracts of `ProcSchedule.Scheduler`.
- CommandProtocol.WaitersAnswered: safety only; that an answer comes eventually rests on the fairness of threads. Failures of mutexes and the delivery of callback exceptions through `close_exc` are left out.
- RefTable.Table.constructor: capacities 1 and 2 give no invariant, as for the buffer itself.
- RefTable.Table.UdpIn: asks that the input's address is not already retained; handing in the same object twice while it is buffered is outside the model. A slot's data, tag and pointer are set and cleared together and are one value. Failures while building Python objects are left out.
- PollCache.Server.Refresh: event masks are left out; entries of a reallocated array that were never written are arbitrary parameters.
- TickClock.TicksStayOnGrid: unbounded time; what the loop does when the next tick would not fit 64 bits is stated by `TickClock.CatchUp`.
- MuLaw.LinearToUlawScalar: samples are unbounded integers, so the 64-bit minimum, whose negation overflows in C, is treated like any other sample.
- Statistics counters of the jitter buffer and the drop counter are unbounded.
- Sockets, `poll`, address handling, send queues and the set-target command of the server.
- CPython objects, reference counts, the interpreter lock, threads, mutexes and condition variables.
- `resample_linear`, whose IEEE double arithmetic real numbers would not represent, and `rsynth_resync`, which depends on the wall clock.
- Memory exhaustion, except in growing the two channel tables and the poll cache and in creating a ring.
