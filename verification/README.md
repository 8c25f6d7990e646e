# JackOSX: the stateful core, modelled and proved

This project models the parts of JackOSX whose correctness depends on state carried from one
call, cycle or sample to the next, and proves what they keep over every run.

- **Block-size adapter.** `RingBuffer.dfy` is the byte ring with its extra index bit, as a class
  over an array, proved to be a bounded queue; `RingProtocol.dfy` is the same ring shared by one
  writing and one reading thread, step by step; `BSizeAlign.dfy` collects or splits blocks;
  `JARInsert.dfy` negotiates block sizes and moves both stereo sides through four aligners, and
  proves that both streams are unbroken over every run; `PlugInPorts.dfy` is the port numbering.
- **IOProc list and engine.** `IOProcState.dfy` and `IOProcDevice.dfy` say what every operation
  makes of the list, its buffers and the engine, and what any sequence of operations keeps;
  `IOProcEffects.dfy` says what each does to the entries, counters and buffers one by one;
  `IOProcList.dfy` has the classes with the source's fields and loops, proved to do exactly that.
- **Mixing.** `Mixing.dfy` is the audio cycle over port and scratch arrays with its first-proc
  flags, proved to leave the ordered sum in every port.
- **Sample conversion.** `Rounding.dfy`, `SampleFormats.dfy` and `Dither.dfy` are the strided
  conversions between packed bytes and floats, the noise generator, triangular dither and noise
  shaping.
- **Time.** `DeviceTime.dfy` is the conversion between sample and host time, the nearest start
  time, and the sample count behind the cycle's time stamps.
- **Timebase.** `Timebase.dfy` is the bar/beat/tick callback, its absolute and its incremental
  computation, and the drift between them.

Where the source updates objects in place, the model is a class whose methods are proved against
functions on values (`Align`, `Channel`, `ListState`, `DeviceState`, `Mix`, `PutAll`, `ShapeAll`,
`Clock`, `BBT`); the theorems about runs are about those functions. `Bits.dfy` has two's-complement
masking and the arithmetic of remainders.

## What the code does not meet

Where a natural property fails, lemmas give an input and the exact condition.

- A block-size request of zero host frames is accepted when the JACK size is a power of two: the
  power-of-two test lets zero pass, and nothing else that is no power of two (`Bits.PowerTest`,
  `JarInserts.ZeroHostSizeFits`).
- A timed start of the NULL IOProc counts a start but looks only at the number of enabled IOProcs:
  the engine is right afterwards exactly if something was enabled (`DeviceStates.TimedNullStart`,
  `DeviceStates.FirstTimedNullStartFails`). The entry point for clients hands such a request to the
  untimed start (jackosx/jackrouter2/Source/HPBase/HP_Device.cpp:1555-1558).
- The buffer count in the nearest start time is a 32-bit number; the time granted for a late request
  comes after it exactly if that does not overflow (`TimeMath.GrantAfterRequestIffCountFits`,
  `TimeMath.LateRequestOverflows`).
- A request moved to the minimum start time takes over the clock's whole reading, host time included,
  and only its sample time is shifted afterwards. With IOProcs running nothing marks the host time
  as stale (jackosx/jackrouter2/Source/JackRouterDevice.cpp:1058-1067); with NULL starts only, the
  flag is set on another time stamp (line 1048). The host time returned belongs to the sample time
  exactly if the request is not so moved (`DeviceTime.RouterClock.HostTimeFitsIff`,
  `DeviceTime.RouterClock.HostTimeFitsIffNotClamped`, `DeviceTime.RouterClock.ClampedHostTimeIsStale`).
- The sample count wraps if the timing services start before one buffer of frames has passed, and
  the first input time is then negative (`CycleTime.AnchorNeedsOneBuffer`,
  `CycleTime.EarlyAnchorFails`; over histories, `CycleTime.InputTimeNotNegative`).
- The tempo command accepts a negative tempo. The computed position is then out of range from the
  frame on whose ticks come to -1, not at frame 0 itself, and a period takes it out of range exactly
  if its ticks and the position's come to -1 or less (`Timebase.RecomputedInRange`, `Timebase.MovedOnInRange`,
  `Timebase.NegativeTempoLeavesRange`, `Timebase.NegativePeriodLeavesRange`, `Timebase.FrameZero`).
- With one enabled IOProc, a port of a stream it does not use keeps what was in it, so it is right
  exactly if it was silent (`MixSpec.DirectAgreesWithMix`). On streams it uses, the direct path agrees
  with mixing exactly if all streams it uses have ports: it hands out nothing for a missing port,
  where mixing hands out scratch (`MixSpec.DirectAgreesForEveryCallback`, `MixSpec.MissingPortIsHeard`).
- A dither value is within 1 exactly if the random number is in the lower half of its range, and can
  come to just under 3 (`Dithering.NoiseWithinOneIff`, `Dithering.FirstNoiseAboveOne`).

## Model

| member | source | states |
|---|---|---|
| Bits.MaskIsMod | jackosx/jackplugins/JACK-insert/JARInsert/ringbuffer.c:63-69 | `x & (n - 1)` is `x mod n` for every integer x, negative ones too, when n is a power of two |
| Bits.PowerTest | jackosx/jackplugins/JACK-insert/JARInsert/ringbuffer.c:48-49 | `(n - 1) & n` is zero exactly for zero and the powers of two, so the init test accepts exactly those |
| Bits.PowersOfTwo | jackosx/jackplugins/JACK-insert/JARInsert/ringbuffer.c:48-49 | the powers of two are the numbers 2^k |
| RingIndex.SlotIsPlace | jackosx/jackplugins/JACK-insert/JARInsert/ringbuffer.c:83-108 | the two-region rule addresses byte index + j modulo the size, and never leaves the storage |
| RingIndex.FillOfTotals | jackosx/jackplugins/JACK-insert/JARInsert/ringbuffer.c:59-68 | masked indices give back total written minus total read, anywhere from 0 to n inclusive |
| RingIndex.FullOrEmpty | jackosx/jackplugins/JACK-insert/JARInsert/ringbuffer.c:46-63 | read and write addresses coincide exactly when the ring is full or empty, and the big-masked indices coincide only when it is empty |
| RingIndex.AdvanceOfTotal | jackosx/jackplugins/JACK-insert/JARInsert/ringbuffer.c:111-118 | masking after every advance is the same as masking the running total once |
| RingIndex.FillAfterWrite | jackosx/jackplugins/JACK-insert/JARInsert/ringbuffer.c:111-114 | advancing the write index by what fits raises the fill by exactly that much, up to full |
| RingIndex.FillAfterRead | jackosx/jackplugins/JACK-insert/JARInsert/ringbuffer.c:149-152 | advancing the read index by what is queued lowers the fill by exactly that much, down to empty |
| RingBuffers.RingBuffer.Init | jackosx/jackplugins/JACK-insert/JARInsert/ringbuffer.c:46-56 | refuses every size but zero and powers of two without touching the record, and otherwise leaves an empty queue over the storage given |
| RingBuffers.RingBuffer.Flush | jackosx/jackplugins/JACK-insert/JARInsert/ringbuffer.c:72-76 | empties the queue |
| RingBuffers.RingBuffer.GetReadAvailable | jackosx/jackplugins/JACK-insert/JARInsert/ringbuffer.c:59-62 | the number of queued bytes |
| RingBuffers.RingBuffer.GetWriteAvailable | jackosx/jackplugins/JACK-insert/JARInsert/ringbuffer.c:65-68 | capacity minus the number of queued bytes |
| RingBuffers.RingBuffer.SplitIsRegions | jackosx/jackplugins/JACK-insert/JARInsert/ringbuffer.c:90-105 | splitting where the transfer would run over the end gives two regions in range, disjoint, that list index, index + 1, ... once each in order |
| RingBuffers.RingBuffer.GetWriteRegions | jackosx/jackplugins/JACK-insert/JARInsert/ringbuffer.c:83-108 | the longest transfer that fits, as regions that start at the write index |
| RingBuffers.RingBuffer.GetReadRegions | jackosx/jackplugins/JACK-insert/JARInsert/ringbuffer.c:122-146 | the longest transfer available, as regions that start at the read index |
| RingBuffers.RingBuffer.WriteRegionIsFree | jackosx/jackplugins/JACK-insert/JARInsert/ringbuffer.c:83-108 | the write region continues the queue and shares no address with it |
| RingBuffers.RingBuffer.AdvanceWriteIndex | jackosx/jackplugins/JACK-insert/JARInsert/ringbuffer.c:111-114 | the queue grows by bytes already in the storage; the old ones do not move |
| RingBuffers.RingBuffer.AdvanceReadIndex | jackosx/jackplugins/JACK-insert/JARInsert/ringbuffer.c:149-152 | the queue loses exactly its oldest bytes |
| RingBuffers.RingBuffer.CopyIn | jackosx/jackplugins/JACK-insert/JARInsert/ringbuffer.c:156-172 | the copying half of a write: the queue is untouched and the new bytes lie behind it in order |
| RingBuffers.RingBuffer.CopyOut | jackosx/jackplugins/JACK-insert/JARInsert/ringbuffer.c:175-190 | the copying half of a read: the front of the queue arrives in the caller's buffer, the rest of which is untouched |
| RingBuffers.RingBuffer.Write | jackosx/jackplugins/JACK-insert/JARInsert/ringbuffer.c:156-172 | appends exactly the longest prefix of the data that fits and returns its length |
| RingBuffers.RingBuffer.Read | jackosx/jackplugins/JACK-insert/JARInsert/ringbuffer.c:175-190 | removes exactly the longest available prefix, delivers it, and leaves the rest of the caller's buffer alone |
| RingProtocol.WriteNeverHitsUnread | jackosx/jackplugins/JACK-insert/JARInsert/ringbuffer.c:156-172 | whatever the reader did since the writer loaded the indices, a byte being written lands on no published unread byte |
| RingProtocol.ReadSlotHolds | jackosx/jackplugins/JACK-insert/JARInsert/ringbuffer.c:175-190 | whatever the writer did since the reader loaded the indices, a byte being read is the right byte of the stream |
| RingProtocol.StepKeeps | jackosx/jackplugins/JACK-insert/JARInsert/ringbuffer.c:82-189 | every single index load, byte copy and index store of either thread stays in the storage and keeps the invariant |
| RingProtocol.Linearizes | jackosx/jackplugins/JACK-insert/JARInsert/ringbuffer.c:82-189 | in every interleaving of one writer and one reader, bytes read are in order a prefix of bytes written, at most n behind, and no unread byte is overwritten |
| RingProtocol.WriterTakesWhatFits | jackosx/jackplugins/JACK-insert/JARInsert/ringbuffer.c:82-97 | at its load a writer takes the longest prefix of its data that fits beside the unread bytes |
| RingProtocol.ReaderTakesWhatThereIs | jackosx/jackplugins/JACK-insert/JARInsert/ringbuffer.c:121-135 | at its load a reader takes as many bytes as it asks for, or all unread ones |
| RingProtocol.WriteAppends | jackosx/jackplugins/JACK-insert/JARInsert/ringbuffer.c:156-172 | in every interleaving a write appends exactly the longest prefix of its data that fitted when it loaded the indices |
| RingProtocol.ReadConsumes | jackosx/jackplugins/JACK-insert/JARInsert/ringbuffer.c:175-190 | in every interleaving a read returns exactly the next bytes of the stream, as many as it asked for or all that were unread when it loaded |
| RingProtocol.WriteCompletes | jackosx/jackplugins/JACK-insert/JARInsert/ringbuffer.c:156-172 | from any consistent state an idle writer's load, copies and store lead to the stream grown by what fits |
| RingProtocol.ReadCompletes | jackosx/jackplugins/JACK-insert/JARInsert/ringbuffer.c:175-190 | the same for an idle reader |
| Aligners.Align.Get | jackosx/jackplugins/JACK-insert/JARInsert/BSizeAlign.cpp:90-111 | a request delivers the front of the queue and keeps the rest |
| Aligners.AddInBytes | jackosx/jackplugins/JACK-insert/JARInsert/BSizeAlign.cpp:66-87 | what adding does in bytes: as much as fits is queued, all of it exactly if it fits; ready when full (collecting) or holding more than a small block (splitting) |
| Aligners.GetInBytes | jackosx/jackplugins/JACK-insert/JARInsert/BSizeAlign.cpp:90-111 | what taking does in bytes: nothing unless ready; else the front of the queue, ready again only when splitting and not run empty |
| Aligners.BSizeAlign.constructor | jackosx/jackplugins/JACK-insert/JARInsert/BSizeAlign.cpp:26-56 | ready exactly if the larger size is zero or a power of two, and then empty and collecting |
| Aligners.BSizeAlign.AddBuffer | jackosx/jackplugins/JACK-insert/JARInsert/BSizeAlign.cpp:66-87 | the ring and flag do exactly what the value model's Add does: the part of the block that fits is queued, ready when full (collecting) or when more than a small block is queued (splitting); true exactly if all of it fitted |
| Aligners.BSizeAlign.GetBuffer | jackosx/jackplugins/JACK-insert/JARInsert/BSizeAlign.cpp:90-111 | nothing unless ready; else delivers a block and clears the flag at once (collecting) or when empty (splitting) |
| InsertStreams.TickAdvances | jackosx/jackplugins/JACK-insert/JARInsert/JARInsert.cpp:263-293 | one call in any phase: every aligner call moves a whole block, the next phase is reached, each queue passes on its bytes in order |
| InsertStreams.Unbroken | jackosx/jackplugins/JACK-insert/JARInsert/JARInsert.cpp:263-293 | over any number of calls: no aligner call fails; the host's output is every (j/h)-th JACK block end to end; each (j/h)-th call gives JACK the last j/h host blocks |
| InsertStreams.FillsSumToZeroOrBlock | jackosx/jackplugins/JACK-insert/JARInsert/JARInsert.cpp:263-293 | send fill plus return fill is always 0 or one JACK block |
| InsertStreams.JackBlockIsHostStream | jackosx/jackplugins/JACK-insert/JARInsert/JARInsert.cpp:263-293 | byte m of block b given to JACK is byte b * j + m of the host's stream |
| InsertStreams.HostBlockIsJackStream | jackosx/jackplugins/JACK-insert/JARInsert/JARInsert.cpp:263-293 | byte m of the host's output in call c is in part c mod q of the JACK block taken in at call c - c mod q (q the number of host blocks in a JACK block) |
| JarInserts.HostDividesJack | jackosx/jackplugins/JACK-insert/JARInsert/JARInsert.cpp:221-261 | whenever aligners are on, the host size divides the JACK size at least twice |
| JarInserts.ZeroHostSizeFits | jackosx/jackplugins/JACK-insert/JARInsert/JARInsert.cpp:226-231 | a host size of zero is accepted exactly with a power-of-two JACK size |
| JarInserts.AcceptedSizesStreamUnbroken | jackosx/jackplugins/JACK-insert/JARInsert/JARInsert.cpp:221-293 | for all unequal positive sizes AllocBSizeAlign accepts, every run is an unbroken pair of streams |
| JarInserts.JARInsert.constructor | jackosx/jackplugins/JACK-insert/JARInsert/JARInsert.cpp:135-213 | takes the next two port numbers of its kind, with zeroed port buffers, and waits for a block size |
| JarInserts.JARInsert.AllocBSizeAlign | jackosx/jackplugins/JACK-insert/JARInsert/JARInsert.cpp:221-261 | succeeds exactly if the sizes are equal, or host < JACK with both powers of two (host may be 0); new, empty aligners exactly for unequal sizes; a failure leaves an error and gives the ports back. Also for a repeated call: aligners once on stay on, untouched by equal sizes and deleted by a failure |
| JarInserts.JARInsert.Process | jackosx/jackplugins/JACK-insert/JARInsert/JARInsert.cpp:263-309 | 0 exactly if the block size is the one fixed and aligners are on or sizes agree; then each side does one tick, or plain copies; a refusal changes nothing |
| JarInserts.JARInsert.ProcessAligned | jackosx/jackplugins/JACK-insert/JARInsert/JARInsert.cpp:278-293 | both stereo sides do one tick of the value model, on their own buffers only |
| JarInserts.ProcessExtendsRun | jackosx/jackplugins/JACK-insert/JARInsert/JARInsert.cpp:263-293 | each call of Process takes the run of each side one call further: the host's output buffer starts with the next block of its stream, and the port holds the next JACK block after every (j/h)-th call and its old contents after any other |
| JarInserts.JARInsert.Flush | jackosx/jackplugins/JACK-insert/JARInsert/JARInsert.cpp:378-446 | deletes the aligners in use, releases this instance's two ports and restarts the numbering when no instance is left; without a router client only the first |
| JarInserts.JARInsert.Destroy | jackosx/jackplugins/JACK-insert/JARInsert/JARInsert.cpp:215-219 | flushes exactly if no error has flushed before |
| PlugInPorts.NextKeeps | jackosx/jackplugins/JACK-insert/JARInsert/JARInsert.cpp:178-207 | one creation or flush keeps the numbers of live instances disjoint and their map entries their own |
| PlugInPorts.PortsStayDisjoint | jackosx/jackplugins/JACK-insert/JARInsert/JARInsert.cpp:178-219 | the same after any history of creations and flushes |
| PlugInPorts.FlushReleasesOwn | jackosx/jackrouter2/Source/JackRouterDevice.cpp:2014-2084 | a flush finds its own two map entries, removes them, and leaves every other instance's in place |
| PlugInPorts.AllocateTakesNextTwo | jackosx/jackplugins/JACK-insert/JARInsert/JARInsert.cpp:178-207 | a new instance's two entries are the next two numbers of its kind, and no other entry changes |
| PlugInPorts.ReleaseFreesTwo | jackosx/jackplugins/JACK-insert/JARInsert/JARInsert.cpp:378-446 | a release frees exactly its two numbers; the numbering restarts with the last instance; without a client nothing changes |
| IOMemory.AllocateWorks | jackosx/jackrouter2/Source/HPBase/HP_IOProcList.cpp:416-508 | a buffer list gets one registered buffer for exactly the streams in use, and nothing already live changes |
| IOMemory.ReturnWorks | jackosx/jackrouter2/Source/HPBase/HP_IOProcList.cpp:571-586 | freeing a buffer leaves the registers in order exactly if it is unregistered with the stream it was registered with |
| IOMemory.FreeWorks | jackosx/jackrouter2/Source/HPBase/HP_IOProcList.cpp:550-598 | freeing a list whose buffers are registered at their places finds every registration and frees exactly its buffers |
| IOProcStates.ReallocateProcWorks | jackosx/jackrouter2/Source/HPBase/HP_IOProcList.cpp:1135-1155 | after reallocation the entry's buffers fit its state and no other list is disturbed |
| IOProcStates.ReallocateSharedWorks | jackosx/jackrouter2/Source/HPBase/HP_IOProcList.cpp:1205-1248 | the shared input list is rebuilt to the union of the enabled entries' usages, and no other list is disturbed |
| IOProcStates.SameUnion | jackosx/jackrouter2/Source/HPBase/HP_IOProcList.cpp:854-883 | changes that leave an entry's enabling and usage alone leave the union of usages alone |
| IOProcStates.DisabledDoesNotCount | jackosx/jackrouter2/Source/HPBase/HP_IOProcList.cpp:854-883 | a disabled entry contributes nothing to the union of usages |
| IOProcStates.StopAllKeeps | jackosx/jackrouter2/Source/HPBase/HP_IOProcList.cpp:1357-1386 | stopping all keeps everything in order and leaves nothing enabled |
| IOProcStates.RemoveKeeps | jackosx/jackrouter2/Source/HPBase/HP_IOProcList.cpp:763-800 | removing an entry stops it first, so no buffer is lost |
| IOProcStates.SetUsageKeeps | jackosx/jackrouter2/Source/HPBase/HP_IOProcList.cpp:836-852 | a usage change reallocates where needed and nowhere else |
| IOProcStates.NextKeeps | jackosx/jackrouter2/Source/HPBase/HP_IOProcList.cpp:746-1386 | every list operation keeps the list's invariant |
| IOProcStates.BuffersAlwaysFit | jackosx/jackrouter2/Source/HPBase/HP_IOProcList.cpp:746-1386 | after any sequence of operations: the enabled count is right, an entry has buffers iff enabled and for exactly its used outputs, shared inputs are exactly those in use, every live buffer is in one list and registered with the stream at its place there, and nothing else is registered |
| IOProcEffects.StartStarts | jackosx/jackrouter2/Source/HPBase/HP_IOProcList.cpp:1250-1308 | a start of a stopped entry: it is enabled with the start time given and has registered buffers for its outputs, the count is one higher, the shared inputs are those now used, and nothing else changes |
| IOProcEffects.OtherStarts | jackosx/jackrouter2/Source/HPBase/HP_IOProcList.cpp:1250-1308 | a start of a running entry or of none changes nothing; a NULL start counts |
| IOProcEffects.StopStops | jackosx/jackrouter2/Source/HPBase/HP_IOProcList.cpp:1310-1355 | a stop of a running entry: it is disabled without buffers, the count is one lower, and nothing else changes |
| IOProcEffects.OtherStops | jackosx/jackrouter2/Source/HPBase/HP_IOProcList.cpp:1310-1355 | a stop of a stopped entry or of none changes nothing; a NULL stop takes back one NULL start if there is one |
| IOProcEffects.StopAllStops | jackosx/jackrouter2/Source/HPBase/HP_IOProcList.cpp:1357-1386 | every entry is disabled without buffers and otherwise as it was; no count, no NULL starts |
| IOProcEffects.RemoveRemoves | jackosx/jackrouter2/Source/HPBase/HP_IOProcList.cpp:763-800 | the entry named is gone, the others are in order and as they were |
| IOProcEffects.UsageIsSet | jackosx/jackrouter2/Source/HPBase/HP_IOProcList.cpp:836-852 | the side named has the usage given, up to its streams; the other side, the other entries and the counters are as they were; a running entry has the buffers it now uses |
| IOProcLists.AllocateBufferList | jackosx/jackrouter2/Source/HPBase/HP_IOProcList.cpp:416-508 | the loop over streams allocates what the value model allocates |
| IOProcLists.FreeBufferList | jackosx/jackrouter2/Source/HPBase/HP_IOProcList.cpp:550-598 | the loop over buffers frees what the value model frees, unregistering each with the stream at its index |
| IOProcLists.HP_IOProc.SetStreamUsage | jackosx/jackrouter2/Source/HPBase/HP_IOProcList.cpp:268-284 | keeps the given usage up to the number of streams |
| IOProcLists.HP_IOProcList.GetIOProcByIOProcID | jackosx/jackrouter2/Source/HPBase/HP_IOProcList.cpp:637-666 | the first entry that the ID names, by address or by function, or none |
| IOProcLists.HP_IOProcList.HasIOProc | jackosx/jackrouter2/Source/HPBase/HP_IOProcList.cpp:711-744 | whether some entry has the function and, where it counts for both, the client data |
| IOProcLists.HP_IOProcList.AddIOProc | jackosx/jackrouter2/Source/HPBase/HP_IOProcList.cpp:746-761 | a new disabled entry at the end; its ID is its address if client data matters, else its function |
| IOProcLists.HP_IOProcList.GetIOProcStreamUsageUnion | jackosx/jackrouter2/Source/HPBase/HP_IOProcList.cpp:854-883 | a stream is in the union iff some enabled entry uses it |
| IOProcLists.HP_IOProcList.StartIOProc | jackosx/jackrouter2/Source/HPBase/HP_IOProcList.cpp:1250-1308 | starts a stopped entry and reallocates, counts a NULL start, ignores anything else |
| IOProcLists.HP_IOProcList.StopIOProc | jackosx/jackrouter2/Source/HPBase/HP_IOProcList.cpp:1310-1355 | stops a started entry and reallocates, takes back a NULL start if there is one, ignores anything else |
| IOProcLists.HP_IOProcList.StopAllIOProcs | jackosx/jackrouter2/Source/HPBase/HP_IOProcList.cpp:1357-1386 | stops every enabled entry, one by one, then rebuilds the shared list and forgets NULL starts |
| IOProcLists.HP_IOProcList.RemoveIOProc | jackosx/jackrouter2/Source/HPBase/HP_IOProcList.cpp:763-800 | stops and removes the entry the ID names |
| IOProcLists.HP_IOProcList.SetIOProcStreamUsage | jackosx/jackrouter2/Source/HPBase/HP_IOProcList.cpp:836-852 | sets the usage and, for an enabled entry, reallocates |
| DeviceStates.IDResolves | jackosx/jackrouter2/Source/HPBase/HP_IOProcList.cpp:637-666 | with distinct entries an ID matches the entry it was issued for and no other, also among entries that share a function |
| DeviceStates.NextKeepsDistinct | jackosx/jackrouter2/Source/HPBase/HP_Device.cpp:1436-1501 | the duplicate guards keep entries distinct through every operation |
| DeviceStates.Totals | jackosx/jackrouter2/Source/HPBase/HP_IOProcList.cpp:1250-1355 | a start adds at most one thing enabled, a stop takes at most one away, the count never goes below zero |
| DeviceStates.NextKeepsEngine | jackosx/jackrouter2/Source/HPBase/HP_Device.cpp:1521-1632 | every operation allowed keeps: engine running iff something is enabled |
| DeviceStates.EngineAndIDs | jackosx/jackrouter2/Source/HPBase/HP_Device.cpp:1436-1632 | after any sequence of registrations, removals, starts, timed starts, stops and usage changes: the engine runs iff enabled entries plus NULL starts is positive, buffers fit, and every ID resolves to its own entry |
| DeviceStates.TimedNullStart | jackosx/jackrouter2/Source/HPBase/HP_Device.cpp:1581-1591 | a timed NULL start keeps that exactly if something was already enabled |
| DeviceStates.FirstTimedNullStartFails | jackosx/jackrouter2/Source/HPBase/HP_Device.cpp:1581-1591 | on a fresh device it counts a start and leaves the engine stopped |
| IOProcEffects.RegisterAdds | jackosx/jackrouter2/Source/HPBase/HP_Device.cpp:1436-1507 | unless an entry has the function (and the data, where it counts for both), a stopped entry with them is added at the end and nothing else changes |
| IOProcEffects.StartRunsEngine | jackosx/jackrouter2/Source/HPBase/HP_Device.cpp:1540-1591 | a start or timed start of a stopped entry leaves the engine running |
| IOProcEffects.NullStartRunsEngine | jackosx/jackrouter2/Source/HPBase/HP_Device.cpp:1540-1550 | so does a NULL start |
| IOProcEffects.StopLeavesEngine | jackosx/jackrouter2/Source/HPBase/HP_Device.cpp:1605-1615 | after a stop the engine runs exactly if something still is enabled |
| IOProcEffects.DeviceRemoveRemoves | jackosx/jackrouter2/Source/HPBase/HP_Device.cpp:1521-1526 | a removal takes the entry out, running or not, and leaves the others, the counters and the engine right |
| IOProcEffects.StopAllStopsEngine | jackosx/jackrouter2/Source/HPBase/HP_Device.cpp:1624-1632 | afterwards no entry is enabled, nothing counts and the engine is off |
| IOProcLists.HP_Device.Register | jackosx/jackrouter2/Source/HPBase/HP_Device.cpp:1436-1507 | refused exactly if the function (or the function with its data) is known; else handed an ID that resolves to a fresh entry; buffers, engine and IDs stay right |
| IOProcLists.HP_Device.StartIOProc | jackosx/jackrouter2/Source/HPBase/HP_Device.cpp:1540-1550 | list and engine end as the value model says, and buffers, engine and IDs stay right |
| IOProcLists.HP_Device.StartIOProcAtTime | jackosx/jackrouter2/Source/HPBase/HP_Device.cpp:1581-1591 | likewise, the engine being started only by the first enabled IOProc; all stays right exactly if an entry is named or something was enabled |
| IOProcLists.HP_Device.StopIOProc | jackosx/jackrouter2/Source/HPBase/HP_Device.cpp:1605-1615 | likewise, stopping the engine when nothing is enabled |
| IOProcLists.HP_Device.RemoveIOProc | jackosx/jackrouter2/Source/HPBase/HP_Device.cpp:1521-1526 | a stop and then a removal by ID |
| IOProcLists.HP_Device.StopAllIOProcs | jackosx/jackrouter2/Source/HPBase/HP_Device.cpp:1624-1632 | nothing if nothing is enabled, else all stopped and the engine too |
| IOProcLists.HP_Device.SetIOProcStreamUsage | jackosx/jackrouter2/Source/HPBase/HP_Device.cpp:1642-1647 | likewise for a change of usage |
| MixSpec.NoneFeeds | jackosx/jackrouter2/Source/JackRouterDevice.cpp:1628-1636 | procs that do not feed a stream leave it silent |
| MixSpec.MixIsHeard | jackosx/jackrouter2/Source/JackRouterDevice.cpp:1623-1791 | each sample of the mix is a sum of numbers over the procs |
| MixSpec.HeardTogether | jackosx/jackrouter2/Source/JackRouterDevice.cpp:1742-1745 | what two groups of procs play together is the sum of what each plays, sample by sample |
| MixSpec.OneProcIsHeard | jackosx/jackrouter2/Source/JackRouterDevice.cpp:1648-1716 | one enabled proc that uses a stream is heard as its callback plays, given the inputs it uses that have a port and silent blocks for the outputs wanted |
| MixSpec.OtherProcsAreNotHeard | jackosx/jackrouter2/Source/JackRouterDevice.cpp:1648-1736 | a proc that is not enabled or does not use the stream adds nothing |
| MixSpec.DirectIsHeard | jackosx/jackrouter2/Source/JackRouterDevice.cpp:1500-1592 | for a sole enabled proc each port it uses holds what its callback plays, given silent blocks for the outputs it uses that have a port; another port keeps its contents |
| MixSpec.DirectAgreesWithMix | jackosx/jackrouter2/Source/JackRouterDevice.cpp:1494-1568 | for a sole enabled proc writing to the ports directly equals mixing on every stream it uses if all streams it uses have ports, and on one it does not use exactly if the port was silent already |
| MixSpec.DirectAgreesForEveryCallback | jackosx/jackrouter2/Source/JackRouterDevice.cpp:1502-1539 | on a stream it uses the two paths agree, whatever the callback does, exactly if it has not said what it uses or every stream it uses has a port |
| MixSpec.MissingPortIsHeard | jackosx/jackrouter2/Source/JackRouterDevice.cpp:1518-1526 | an IOProc that has set its input usage only, and one of whose outputs has lost its port, for which they differ |
| Mixing.JackRouterDevice.PrepareInputs | jackosx/jackrouter2/Source/JackRouterDevice.cpp:1654-1688 | a proc sees the inputs it uses that have a port, and no others |
| Mixing.JackRouterDevice.PrepareScratch | jackosx/jackrouter2/Source/JackRouterDevice.cpp:1664-1700 | a proc with several gets zeroed scratch for exactly its outputs |
| Mixing.JackRouterDevice.PrepareDirect | jackosx/jackrouter2/Source/JackRouterDevice.cpp:1516-1568 | a sole proc gets the zeroed port buffers it uses; the other ports keep their contents |
| Mixing.JackRouterDevice.MixOne | jackosx/jackrouter2/Source/JackRouterDevice.cpp:1732-1787 | copy, add or clear as the first-proc flag says: the port then holds the mix including this proc |
| Mixing.JackRouterDevice.MixProcIn | jackosx/jackrouter2/Source/JackRouterDevice.cpp:1644-1790 | one round of the loop over procs keeps every port at the mix of the procs so far |
| Mixing.JackRouterDevice.RunIOProcs | jackosx/jackrouter2/Source/JackRouterDevice.cpp:1494-1811 | every sample of every registered port is the sum of what the enabled procs using its stream play (0 if none), or with one enabled proc what it wrote directly |
| Mixing.JackRouterDevice.Process | jackosx/jackrouter2/Source/JackRouterDevice.cpp:1494-1828 | the same, and then every plug-in's buffer is in its port and cleared |
| Mixing.CopyPlugInPorts | jackosx/jackrouter2/Source/JackRouterDevice.cpp:1813-1826 | each plug-in's buffer goes to its own port and is zero afterwards |
| Rounding.Truncate | jackosx/jackdrivers/jackcoreaudio/memops.c:52-60 | a cast rounds towards zero |
| Rounding.Round | jackosx/jackdrivers/jackcoreaudio/memops.c:341-348 | lrintf: nearest, halves to even |
| SampleFormats.LowBytesOfSigned | jackosx/jackdrivers/jackcoreaudio/memops.c:184-223 | the low bytes of the integer read from any bytes are those bytes again |
| SampleFormats.EncodeOfDecode | jackosx/jackdrivers/jackcoreaudio/memops.c:52-80 | any sample of any of the three formats, in either byte order, survives conversion to float and back exactly, but for the low byte of a 32-bit one, which is cleared |
| SampleFormats.DecodeOfEncode | jackosx/jackdrivers/jackcoreaudio/memops.c:184-223 | any float converted to a sample and back is less than a step off inside the range, at most half a step for 16-bit samples, and the end of the range outside it |
| SampleFormats.EncodedInteger | jackosx/jackdrivers/jackcoreaudio/memops.c:52-60 | the integer in the bytes of an undithered sample: rounded or cast, scaled, and cut off at the ends of its format |
| SampleFormats.CastsTowardsZero | jackosx/jackdrivers/jackcoreaudio/memops.c:184-197 | 24-bit and 24-in-32-bit samples are cut towards zero |
| SampleFormats.PackedByteAt | jackosx/jackdrivers/jackcoreaudio/memops.c:198-202 | byte i from the lowest is at place i on a little-endian machine and at the i-th from the end on a big-endian one |
| StridedSamples.PutAllFrame | jackosx/jackdrivers/jackcoreaudio/memops.c:184-205 | a byte outside every stored sample keeps its value, whatever the stride |
| StridedSamples.PutAllAt | jackosx/jackdrivers/jackcoreaudio/memops.c:184-205 | where samples do not overlap, each is found where it was stored |
| StridedSamples.PutAllSplits | jackosx/jackdrivers/jackcoreaudio/memops.c:184-205 | storing k samples and then the rest from where that stopped is storing them all |
| StridedSamples.RoundTrip | jackosx/jackdrivers/jackcoreaudio/memops.c:184-223 | a channel of 16- or 24-bit samples converted to float and back restores the whole buffer, for every offset, stride and count |
| StridedSamples.RoundTrip32 | jackosx/jackdrivers/jackcoreaudio/memops.c:52-80 | a channel of 24-in-32-bit samples that do not overlap loses the low byte of each sample, and no other byte of the buffer changes |
| StridedSamples.MoveFromFloat | jackosx/jackdrivers/jackcoreaudio/memops.c:341-360 | the loop stores exactly the encoded samples, each at its place, and no other byte |
| StridedSamples.MoveToFloat | jackosx/jackdrivers/jackcoreaudio/memops.c:459-468 | the loop loads exactly the decoded samples and leaves the rest of the output alone |
| Dithering.NoiseWithinOneIff | jackosx/jackdrivers/jackcoreaudio/memops.c:45-50 | a dither value lies between -1 and just under 3, and within 1 exactly if the random number is in the lower half of the unsigned range |
| Dithering.FirstNoiseAboveOne | jackosx/jackdrivers/jackcoreaudio/memops.c:45-50 | the very first dither value is above 1 |
| Dithering.SeedStepIsBijective | jackosx/jackdrivers/jackcoreaudio/memops.c:45-50 | the generator's step is a bijection of the 32-bit numbers, with its inverse |
| Dithering.PackedReadsBack | jackosx/jackdrivers/jackcoreaudio/memops.c:268-283 | a stored value read back is the 16-bit number as a fraction, cut off at the ends of the format, in every format and byte order |
| Dithering.TriReadsBack | jackosx/jackdrivers/jackcoreaudio/memops.c:384-411 | after a triangular conversion of samples that do not overlap, the channel reads back as the run's values so cut off |
| Dithering.ShapedReadsBack | jackosx/jackdrivers/jackcoreaudio/memops.c:413-457 | the same after a shaped conversion |
| Dithering.TriSampleBySample | jackosx/jackdrivers/jackcoreaudio/memops.c:384-411 | each value is the scaled sample plus this noise less the last, rounded |
| Dithering.ShapedSampleBySample | jackosx/jackdrivers/jackcoreaudio/memops.c:413-457 | each value is the scaled sample less the filtered last five errors plus the noise, rounded, with the numbers of the filter; the new error replaces the oldest |
| Dithering.TriTelescopes | jackosx/jackdrivers/jackcoreaudio/memops.c:384-411 | noise added over any run adds up to last minus first, so stays within 4 |
| Dithering.TriDoesNotDrift | jackosx/jackdrivers/jackcoreaudio/memops.c:384-411 | stored values add up to the scaled input within half a step a sample plus 4, however long the run |
| Dithering.BufferIsHistory | jackosx/jackdrivers/jackcoreaudio/memops.c:413-457 | the masked eight-slot buffer gives exactly the outputs of the five-tap filter over the unbounded error history, over any run |
| Dithering.ShapingIsStable | jackosx/jackdrivers/jackcoreaudio/memops.c:413-457 | from errors within 4.5 every later error is within 4.5 for any input, and unsaturated outputs within 4.5 * 9.3619 steps of the scaled input |
| Dithering.TriCallsJoin | jackosx/jackdrivers/jackcoreaudio/memops.c:384-411 | a second triangular call from where the first stopped leaves the bytes, noise and seed of one call over all samples |
| Dithering.ShapedCallsJoin | jackosx/jackdrivers/jackcoreaudio/memops.c:413-457 | the same for the shaped conversion, with its error buffer and index |
| Dithering.MoveDitherTriTwice | jackosx/jackdrivers/jackcoreaudio/memops.c:384-411 | two runs of the loop leave exactly what one leaves |
| Dithering.MoveDitherShapedTwice | jackosx/jackdrivers/jackcoreaudio/memops.c:413-457 | the same for the shaped loop |
| Dithering.BytesIgnoreBlocks | jackosx/jackdrivers/jackcoreaudio/memops.c:384-457 | the bytes stored do not depend on where the values are cut into two calls |
| Dithering.MoveDitherTri | jackosx/jackdrivers/jackcoreaudio/memops.c:384-411 | the loop stores exactly the run's values and leaves the run's state |
| Dithering.MoveDitherShaped | jackosx/jackdrivers/jackcoreaudio/memops.c:413-457 | the loop stores exactly the shaped values and leaves the circular buffer, index and noise of the run |
| TimeMath.SampleHostSample | jackosx/jackrouter2/Source/JackRouterDevice.cpp:913-971 | a whole sample s to host time and back is s or s - 1, and s exactly if it lies on a whole host tick (tick length at least 1) |
| TimeMath.HostSampleHost | jackosx/jackrouter2/Source/JackRouterDevice.cpp:913-971 | a host time at or after the anchor to samples and back is at most less than a frame and a tick earlier and never later |
| TimeMath.ConversionsMonotone | jackosx/jackrouter2/Source/JackRouterDevice.cpp:913-971 | both conversions keep order |
| TimeMath.SampleHoldsHost | jackosx/jackrouter2/Source/JackRouterDevice.cpp:923-939 | before the anchor as after it, a host time lies in the frame it is converted to |
| TimeMath.GrantOnGrid | jackosx/jackrouter2/Source/JackRouterDevice.cpp:1069-1077 | a grant is never before the minimum and, if the count fits 32 bits, a whole number of buffers past it; past the minimum it is more than one and at most two buffers after the request |
| TimeMath.GrantAfterRequestIffCountFits | jackosx/jackrouter2/Source/JackRouterDevice.cpp:1072-1076 | a grant for a request past the minimum comes after the request exactly if the 32-bit buffer count does not overflow (buffers of up to 2^31 frames) |
| TimeMath.LateRequestOverflows | jackosx/jackrouter2/Source/JackRouterDevice.cpp:1072-1076 | a request 2^32 frames past the minimum that is granted two buffers past it |
| DeviceTime.RouterClock.TranslateTime | jackosx/jackrouter2/Source/JackRouterDevice.cpp:904-987 | refuses a stamp without sample and host time; fills exactly the fields asked for, copied where known, else converted |
| DeviceTime.RouterClock.SampleTimeOfStamp | jackosx/jackrouter2/Source/JackRouterDevice.cpp:914-946 | a stamp's sample time is its own, or the number of the frame its host time lies in |
| DeviceTime.RouterClock.HostTimeOfStamp | jackosx/jackrouter2/Source/JackRouterDevice.cpp:949-977 | its host time is its own, or the tick its sample begins in |
| DeviceTime.RouterClock.ConsultHAL | jackosx/jackrouter2/Source/JackRouterDevice.cpp:1023-1091 | the request is shifted, granted, and shifted back; one moved to the minimum also takes over the clock's host time |
| DeviceTime.RouterClock.GetNearestStartTime | jackosx/jackrouter2/Source/JackRouterDevice.cpp:999-1106 | the whole answer: when refused, the sample time granted, and which host time goes with it |
| DeviceTime.RouterClock.HostTimeFitsIff | jackosx/jackrouter2/Source/JackRouterDevice.cpp:1043-1097 | for a request by sample time, the host time granted belongs to the sample time granted exactly if the request was not moved to the minimum or the clock's host time happens to be that of the minimum |
| DeviceTime.RouterClock.HostTimeFitsIffNotClamped | jackosx/jackrouter2/Source/JackRouterDevice.cpp:1043-1097 | with a consistent clock that is exactly if it was not moved, or the client's minimum is now itself |
| DeviceTime.RouterClock.ClampedHostTimeIsStale | jackosx/jackrouter2/Source/JackRouterDevice.cpp:1058-1067 | a request whose grant lies 1536 frames from now at the host time of now |
| DeviceTime.RouterClock.GrantedWhileRunning | jackosx/jackrouter2/Source/JackRouterDevice.cpp:1014-1097 | while an IOProc runs: in IO-thread time never before now plus two buffers, on the grid of whole buffers, and one to two buffers after a later request; the shifts cancel |
| DeviceTime.RouterClock.GrantedWithNullStartsOnly | jackosx/jackrouter2/Source/JackRouterDevice.cpp:1039-1055 | with NULL starts only, a request at least two buffers and the safety offset from now is granted as it is, host time and all; an earlier one is moved exactly there, with the host time of now |
| DeviceTime.RouterClock.GrantedWhenIdle | jackosx/jackrouter2/Source/JackRouterDevice.cpp:1039-1091 | with nothing enabled every request is granted as it is |
| DeviceTime.RouterClock.AnsweredWhileRunning | jackosx/jackrouter2/Source/JackRouterDevice.cpp:1056-1097 | while an IOProc runs, which sample and host time an early, an exact and a late request get |
| CycleTime.CountIsElapsed | jackosx/jackrouter2/Source/JackRouterDevice.cpp:793-814 | after any history of starts, stops, overloads and size changes the 64-bit count is the anchor plus the frames elapsed |
| CycleTime.StampsCountFrames | jackosx/jackrouter2/Source/JackRouterDevice.cpp:1446-1468 | the time stamps are the elapsed frames, the input time not negative, exactly if the count does not run over its 64 bits |
| CycleTime.AnchorNeedsOneBuffer | jackosx/jackrouter2/Source/JackRouterDevice.cpp:804-804 | right after anchoring this holds exactly if at least one buffer of frames had passed |
| CycleTime.EarlyAnchorFails | jackosx/jackrouter2/Source/JackRouterDevice.cpp:804-804 | an anchor 100 frames in, with buffers of 512, that makes the first input time negative |
| CycleTime.InputTimeNotNegative | jackosx/jackrouter2/Source/JackRouterDevice.cpp:793-814 | over every history with 32-bit frame times and sizes, exactly when the next input time is negative, in terms of the positions anchored at and cycled through |
| CycleTime.NoCycleGoesNegative | jackosx/jackrouter2/Source/JackRouterDevice.cpp:793-814 | if every anchoring came after at least one buffer, all time stamps are the frames elapsed and none is negative, to the end of the 64-bit range |
| CycleTime.CyclesTile | jackosx/jackrouter2/Source/JackRouterDevice.cpp:1446-1468 | the output time of a cycle is now of the next and the input time of the one after |
| CycleTime.StampsOnceStarted | jackosx/jackrouter2/Source/JackRouterDevice.cpp:793-807 | after a start or an overload late enough, the next cycle's input time is 0 |
| CycleTime.StampsOnceStopped | jackosx/jackrouter2/Source/JackRouterDevice.cpp:809-814 | once stopped, stamps are counts |
| CycleTime.StampsOnceResized | jackosx/jackrouter2/Source/JackRouterDevice.cpp:1904-1913 | a new buffer size holds from the next cycle on, from where the last ended |
| CycleTime.CycleClock.BeginCycle | jackosx/jackrouter2/Source/JackRouterDevice.cpp:1446-1468 | the input begins with the frames elapsed since the anchor, one buffer before now, while the count does not run over |
| CycleTime.CycleClock.StartIOCycleTimingServices | jackosx/jackrouter2/Source/JackRouterDevice.cpp:793-807 | count and anchor both become the frame time less one buffer, in 64 bits, with nothing elapsed |
| BarBeatTick.CarryKeeps | jackosx/jacksynchro/TransportMain.cpp:99-108 | the carry loop ends in range and conserves the total of ticks |
| BarBeatTick.FromTicksInRange | jackosx/jacksynchro/TransportMain.cpp:76-84 | the absolute position has exactly the given total, and is in range exactly if that is not negative |
| BarBeatTick.PositionIsUnique | jackosx/jacksynchro/TransportMain.cpp:76-84 | two positions in range with the same total are the same |
| BarBeatTick.AdvanceInRange | jackosx/jacksynchro/TransportMain.cpp:95-108 | an incremental step stays in range exactly if the position's ticks and the period's add up to more than -1; a step forward adds the whole ticks of the period |
| Timebase.RecomputedInRange | jackosx/jacksynchro/TransportMain.cpp:75-84 | the absolute position is in range exactly if frame times tempo times ticks per beat is more than minus a minute's frames |
| Timebase.MovedOnInRange | jackosx/jacksynchro/TransportMain.cpp:93-108 | the same for the incremental step, in terms of the period's frames and the position's ticks |
| Timebase.NegativeTempoLeavesRange | jackosx/jacksynchro/TransportMain.cpp:75-84 | one minute into a negative tempo of 120 the position is out of range |
| Timebase.NegativePeriodLeavesRange | jackosx/jacksynchro/TransportMain.cpp:93-108 | so is the first period after frame 0 |
| Timebase.FrameZero | jackosx/jacksynchro/TransportMain.cpp:75-84 | at frame 0 the position is the first tick whatever the tempo |
| Timebase.TwoSecondsIn | jackosx/jacksynchro/TransportMain.cpp:75-97 | two seconds in at 120 beats a minute, at any rate, it is bar 2, beat 1, tick 0, 7680 ticks from the start, and two seconds are 7680 ticks |
| Timebase.TwoSecondsOn | jackosx/jacksynchro/TransportMain.cpp:93-108 | the incremental step over 7680 ticks gets there from the first beat |
| BarBeatTick.DriftIsExact | jackosx/jacksynchro/TransportMain.cpp:60-110 | k incremental steps fall behind the absolute position by exactly the whole ticks in the fractions dropped |
| Timebase.TicksAddUp | jackosx/jacksynchro/TransportMain.cpp:75-97 | k periods later the absolute computation sees k periods' worth more ticks |
| Timebase.PositionStaysInRange | jackosx/jacksynchro/TransportMain.cpp:60-110 | over any series of callbacks, tempo changes and jumps with tempos not negative, the position stays in range |
| Timebase.CallbackDrift | jackosx/jacksynchro/TransportMain.cpp:60-110 | at fixed tempo, rate and period: both positions in range, drift exactly as above, between 0 and k, and none if a period is a whole number of ticks |
| Timebase.TimeMaster.Callback | jackosx/jacksynchro/TransportMain.cpp:53-111 | recomputes after a reset or jump, with 4 beats to the bar and 1920 ticks to the beat, and clears the reset; else moves the position on; nothing else changes |
| Timebase.TimeMaster.MoveOn | jackosx/jacksynchro/TransportMain.cpp:93-109 | the loop ends where the value model's carry ends |

## Left out

- Floating-point rounding and overflow: every float and double is a real number; `(float)INT_MAX` is
  2^31; `lrintf` and casts give the exact integer however large. The frame time, which the source
  passes through a float, is taken as it is.
- Integer widths, except where a row says 32 or 64 bits, the noise generator's 32 bits and the
  masking of ring indices; a negative double converted to an unsigned integer is taken to wrap.
- Locks and the deferred command queue: the cycle's lock is always obtained, commands run at once.
- The JACK, CoreAudio and Mach calls: a port is an array, an IOProc a function of the inputs and the
  zeroed outputs it is handed, allocation and port registration succeed, clock readings are parameters.
- RingProtocol.Linearizes: index loads and stores are sequentially consistent, as the source assumes;
  the flush, which is not safe beside a reader or writer, is no step of the protocol.
- RingBuffers.RingBuffer.Init: the storage is an array at least as long as the size.
- Aligners.BSizeAlign.AddBuffer: with equal sizes on both sides an aligner never becomes ready
  (the comparison is strict); the class covers that case, the stream theorems need unequal sizes,
  and the source builds aligners only for those.
- JarInserts.JARInsert.constructor: only the constructor that leaves the host size open; the one that
  takes it at once, the failure to open an audio client and the preferences are not modelled.
- JarInserts.JARInsert.AllocBSizeAlign: a call that fails must find the instance's ports with the
  router, which asserts so; the callers never call it again after an error
  (jackosx/jackplugins/JACK-insert/VST/JackVST.cpp:117-120).
- JarInserts.JARInsert.Flush: the JACK input ports it unregisters, and the router's release of its
  client; deleted aligners are null.
- JarInserts.JARInsert.Process: float buffers are their bytes, four a frame; the plug-in's temporary
  copy of the host's input is not modelled. In-place host buffers are allowed; ports, JACK's inputs
  and rings are storage of their own.
- PlugInPorts.PortsStayDisjoint: an instance is flushed once; the error guard sees to that, and
  `PlugInPorts.SecondFlushBreaks` shows why it is needed.
- IOProcStates.BuffersAlwaysFit: shared output lists and per-entry input lists, which the default
  behaviours never fill, buffer sizes, and `RemoveAllIOProcs`, which bypasses the accounting, are not
  modelled.
- DeviceStates.EngineAndIDs: the same; a timed start names an entry, functions and entries never share
  an address. The device's `Stop` of hardware and its notifications are only the running flag.
- Mixing.JackRouterDevice.Process: only the build the source selects, with the direct path for a
  single IOProc; plug-in ports are lists in the order of their numbers; debug output is left out and
  the time stamps of the callbacks are in `DeviceTime.dfy`.
- StridedSamples.RoundTrip32: samples at least four bytes apart; closer ones overlap.
- StridedSamples.MoveFromFloat: the three copies of each loop, one a format, are one method with the
  format as a parameter; the same holds for the other conversion loops. Source samples are a
  sequence, since no loop writes them, so the model does not capture a conversion in place.
- Rectangular dither, the merging and the plain copying loops of memops.c: easier members of the same kind.
- DeviceTime.RouterClock.GetNearestStartTime: the safety offset is a parameter, and the reading of the
  clock is one; a request that the device would filter is returned as it is, as in the source.
- CycleTime.CycleClock.BeginCycle: the host times and rate scalars of the stamps.
- DeviceTime.RouterClock.HostTimeFitsIffNotClamped: ticks a frame at least 1, times below 2^64, and a
  safety offset that does not reach before sample time 0.
- Timebase.TimeMaster.Callback: beats per bar and ticks per beat are whole numbers, which no command
  changes; the lemmas hold for any whole numbers.
- User interfaces, the ASIO driver, registry and preference files, property switches and the copies of
  the modelled files elsewhere in the repository.
