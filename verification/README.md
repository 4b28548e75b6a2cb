# DOCA GPUNetIO / DOCA Verbs: a Dafny model of the host library

The library lets a GPU drive an RDMA NIC.  The host side creates the queues, walks a queue pair
through its states, rings doorbells on the GPU's behalf, and keeps track of the memory and of the
doorbell pages it shares with the GPU.  This project models those parts and proves what they promise.

| module | what it models |
|---|---|
| `Bits`, `ByteOrder`, `PowerOfTwo`, `Wrappers` | fixed-width words and the C bit operators; big-endian memory on either host; power-of-two rounding, alignment and logarithm; an optional value |
| `Doorbell` | the words the CPU proxy writes for the NIC and what the NIC reads out of them |
| `ProxyProtocol` | GPU, proxy, store buffer and NIC as one transition system |
| `GpuPosting`, `SendPath` | the GPU's threads reserving, writing, marking and publishing entries; and threads, proxy, store buffer and NIC as one system |
| `ProxyService` | the progress calls on the exported object, and the service loop over a set of queue pairs |
| `Devx` | bit fields in device command buffers, by 32-bit and by 64-bit word |
| `QpAttributes`, `QpLifecycle` | attribute masks and checks; the modify call against the device's own state machine |
| `QpContext` | what the connection commands pack into the device's context and what a query reads back |
| `QpSizing`, `SrqSizing`, `RingPipeline` | sizes and layout of queue pairs, shared receive queues and completion queues, and one requested depth carried through all of them |
| `MemTable`, `UarRegistry` | the allocation table and the doorbell-page reference counts against the drivers |

Machine words are natural numbers with explicit casts.  Objects that the source updates in place are
classes; each method is proved against a function of the old state, and the properties are lemmas
about that function, over all inputs and over all runs.

## What holds, and exactly when

Some promises hold only under a condition.  The code is modelled as it is, and the condition is
proved exact.

* The proxy loses no doorbell in full-assisted mode exactly for rings below 2^16 slots
  (`ProxyProtocol.NothingLostExactly`).  Once a post-fence doorbell has reached the NIC, the record
  covers it for every ring size and commit order (`RecordCoversFencedDoorbell`); the doorbell
  before the fence carries no such promise (`EarlyDoorbellOutrunsRecord`).  Between a reset and the
  landing of the store that clears it, the record is still the old one (`ResetLeavesOldRecord`).
* What the proxy takes for granted of the GPU is proved of the GPU's threads, and the other way round
  (`SendPath.SidesRun`).  So on a new queue of up to 32768 entries, over every interleaving of threads,
  proxy, store buffer and NIC, what is published and not completed is written and still in its slot, and
  a proxy at rest has told the NIC of all of it (`SendPath.PostsArrive`).  Nothing deadlocks while calls
  fit the ring and no completion reports an error (`SendPath.EveryCallCanFinish`); a bigger call never
  gets past its wait (`GpuPosting.OversizedNeverPasses`), and completions in error leave the consumer
  index behind until no wait can end (`GpuPosting.ErrorsStarve`).  Published entries are intact
  in all runs exactly when no caller may skip the availability check (`GpuPosting.IntactExactly`).
* The exported object is zeroed and takes the queue's number only when the CPU is a full proxy
  (`src/doca_gpunetio.cpp:758`, 885, 892-898).  So a DBR-assisted doorbell names queue 0, and
  doorbells reach their queue exactly when the CPU is a full proxy or the number is 0
  (`ProxyProtocol.DoorbellsReachTheirQueueExactly`).  The record is kept right all the same
  (`RecordAtRestIsCurrent`).
* `cd_master` is a one-bit field at bit 0x49f but is set with the 64-bit writer
  (`src/doca_verbs_qp.cpp:770`).  The writer replaces the whole quadword 0x480..0x4bf, so the flag
  always reads 0 and the value lands in `next_rcv_psn` (`QpContext.CdMasterMissesItsField`); a flag
  set that way reads back exactly when it is 0 or the last bit of its quadword
  (`Devx.FlagThroughSet64`).
* A ring whose byte size is computed in 32 bits holds the entries asked for exactly when they fill
  at most 2^31 bytes.  The receive side divides by zero exactly when more than 2^27 segments are
  asked for and accepted; the send side exactly when the device states no descriptor limit or when
  segment and inline sizes both wrap to 0 (`QpSizing.SendDivides`).  The pieces of the queue-pair
  buffer are disjoint except when both queues are asked for bytes that round up to 2^31.  Each of
  these conditions is on the request alone and comes with an accepted request that fails it.
* A queue pair in the caller's memory is created with the memory's identity but not with the
  caller's offset into it, so CPU and device agree on the queues exactly when that offset is 0.
* Depth, completion entries, send units and the exported 16-bit count are one number exactly for
  requests up to 32768.
* A retry count, an RNR retry count or an ACK timeout has no range check and comes back from a
  query exactly when it fits its field.
* A reset fills every completion entry with 0xff, which the consumer takes for a completion on odd
  laps; the first ring's worth is safe exactly when polling restarts at a whole number of double laps.
* Host memory stays pinned after its entry is gone exactly for GPU_CPU memory obtained without gdrcopy
  and when the driver refuses to unregister it.
* The allocation table loses raw memory in exactly three ways on ordinary runs: a gdrcopy mapping that
  fails, freeing GPU_CPU memory obtained without gdrcopy, and device memory whose `cudaFree` the driver
  refuses, in a free or in the clean-up of an allocation: the code drops the result
  (`src/doca_gpunetio.cpp:336`, 373, 538, 543).  `MemTable.RefusedFreeLosesMemory` is plain GPU memory
  lost that way; the table is exactly the live memory when no step lost any (`TableIsLiveExactly`).
* Memory mapped through gdrcopy keeps the caller's own alignment exactly up to 64 KiB.
* A failed export leaves a zero reference count behind; releasing that page wraps the count.  Every
  single step keeps counts and registrations in agreement exactly when it is `Safe`.

The header `include/host/doca_verbs.h:302-350` documents `next_state` and, for RST to INIT, an atomic
mode as required attributes; the code takes both as optional (`src/doca_verbs_qp.cpp:222-332`), and
the model follows the code.

## Assumptions

* GPU, in `ProxyProtocol` alone: its producer index never goes back and is at most the ring size ahead
  of what the NIC has completed; `SendPath` proves that of the GPU's threads.  There an atomic operation
  takes effect at once, a release fence makes a thread's entries visible before the index that covers
  them, every entry asks for a completion, and 64-bit indices do not wrap.  A poll is one atomic
  load.  A reset happens with the proxy paused, no store in flight, and the queue pair cycled through reset.
* Stores may reach memory in any order, but not across a release fence and not out of order at one
  location (section 29.8 of ISO/IEC 14882:2011).
* Queue-pair state: section 10.3.1 of the InfiniBand Architecture Specification, Volume 1.
* The device stores the context fields a command writes.
* Raw allocations are fresh, non-overlapping memory; the GPU sees registered host memory at the
  host's address; the driver registers a page only when it is not registered.
* A queue number is 24 bits, and the NIC takes a doorbell only for the queue it names.
* The page size is at most 2^31 bytes, and the default alignment is a page.

## Model

| member | source | states |
|---|---|---|
| PowerOfTwo.IsPowerOfTwo | src/doca_internal.hpp:80 | accepts exactly the powers of two |
| PowerOfTwo.PowerTest | src/doca_internal.hpp:80 | the and-with-predecessor test characterises powers of two for every natural number |
| PowerOfTwo.LeastPow2IsLeast | src/doca_internal.hpp:82-93 | the rounding target is the least power of two not below x, and below 2x |
| PowerOfTwo.NextPowerOfTwo | src/doca_internal.hpp:82-93 | the six or-and-shift steps compute that least power for 1..2^63 and 0 for every other 64-bit word |
| PowerOfTwo.SmearStep | src/doca_internal.hpp:85-90 | one or-and-shift doubles how far every bit has been copied down |
| PowerOfTwo.SmearedFully | src/doca_internal.hpp:85-92 | a fully smeared 64-bit word is all ones below its top bit |
| PowerOfTwo.Log2Inverts | src/doca_internal.hpp:109-114 | the integer logarithm of a power of two inverts it |
| PowerOfTwo.AlignUpExact | src/doca_internal.hpp:116-122 | aligning up is the least multiple cut to 64 bits, and is that multiple exactly when it fits |
| PowerOfTwo.AlignUp32Exact | src/doca_internal.hpp:124-126 | the 32-bit form is the least multiple cut to 32 bits |
| PowerOfTwo.RoundedHolds | src/doca_verbs_qp.cpp:1361-1362 | a product cut to 32 bits, rounded up and cut again is at least the true product exactly when that is at most 2^31 |
| PowerOfTwo.RingHolds | src/doca_verbs_qp.cpp:1420-1431 | a ring rounded up in 32 bits holds its entries exactly when they fill at most 2^31 bytes |
| PowerOfTwo.RoundRing | src/doca_verbs_srq.cpp:242-243 | the byte size of a ring, computed with the smearing steps |
| ByteOrder.SwapThenStore32 | src/doca_verbs_mlx5dv_wrapper.h:204-219 | swap-and-store leaves the big-endian bytes and load-and-swap reads them, on either host |
| ByteOrder.SwapThenStore64 | src/doca_verbs_mlx5dv_wrapper.h:223-231 | the same for 64-bit words |
| Doorbell.QpnDsRoundTrip | src/doca_gpunetio.cpp:802-808 | the segment count always survives the shift and swap, the queue number exactly when it has 24 bits |
| Doorbell.QpnDsDigits | src/doca_gpunetio.cpp:802-808 | the word is the low three bytes of the number, most significant first, and the count |
| Doorbell.HeldWordNames | src/doca_gpunetio.cpp:885 | the word held for doorbells names the queue exactly when the CPU is a full proxy, or the number is 0 |
| Doorbell.BothCarryTheSameIndex | src/doca_gpunetio.cpp:1122-1126 | doorbell word and doorbell record carry the same 16-bit index, and the doorbell keeps the queue number |
| Doorbell.SixteenBitsSuffice | src/doca_gpunetio.cpp:1119-1126 | 16 bits recover every index exactly for rings below 2^16 slots |
| Doorbell.RecoverFromEitherWord | src/doca_gpunetio.cpp:1119-1126 | through the cuts from 64 to 32 to 16 bits the NIC recovers the full index from either word |
| ProxyProtocol.CommitKeepsStoreOrder | src/doca_gpunetio.cpp:1128-1138 | whatever store may reach memory next, record and fenced doorbells stay in step |
| ProxyProtocol.CommitKeepsIndex | src/doca_gpunetio.cpp:1119-1142 | every doorbell that lands gives the NIC the exact index of its call |
| ProxyProtocol.PollKeepsStoreOrder | src/doca_gpunetio.cpp:1119-1142 | a call that finds news adds its stores without breaking the order |
| ProxyProtocol.StepKeepsStoreOrder | src/doca_gpunetio.cpp:1113-1165 | every step of GPU, proxy, buffer, NIC or reset keeps the store-order invariant |
| ProxyProtocol.StepKeepsIndex | src/doca_gpunetio.cpp:1113-1143 | every step keeps the index invariant below 2^16 slots |
| ProxyProtocol.RecordCoversFencedDoorbell | src/doca_gpunetio.cpp:1125-1163 | over every run, resets included, a post-fence doorbell that reached the NIC, taken for its queue or not, is covered by the record in memory, in both fenced modes |
| ProxyProtocol.RecordAtRestIsCurrent | src/doca_gpunetio.cpp:1119-1163 | over every run, when nothing is new and every store has landed the record is the GPU's index, in both fenced modes and for every ring size |
| ProxyProtocol.FencedAtRest | src/doca_gpunetio.cpp:1135-1160 | over every run, at rest the latest call's fenced doorbell has reached the NIC, in both fenced modes |
| ProxyProtocol.ResetLeavesOldRecord | src/doca_gpunetio.cpp:1366-1369 | a run that ends right after a reset with the old record in memory and the store that clears it on its way |
| ProxyProtocol.DbrAssistedDoorbellsGoElsewhere | src/doca_gpunetio.cpp:892-898 | over every run, a DBR-assisted queue with a number other than 0 takes no doorbell of its proxy |
| ProxyProtocol.DoorbellsReachTheirQueueExactly | src/doca_gpunetio.cpp:870-898 | in all runs every post-fence doorbell that reaches the NIC is taken for its queue, exactly when the CPU is a full proxy or the number is 0 |
| ProxyProtocol.QueueSevenIsNotRung | src/doca_gpunetio.cpp:1146-1165 | a run of DBR-assisted queue 7 whose doorbell arrives and names queue 0 |
| ProxyProtocol.NoDoorbellLost | src/doca_gpunetio.cpp:1119-1142 | over every run, the rung index never passes the producer, the 32-bit comparison is right, and quiescence means the NIC knows every post |
| ProxyProtocol.NothingLostExactly | src/doca_gpunetio.cpp:1119-1142 | that holds of all runs exactly for rings below 2^16 slots |
| ProxyProtocol.WideRingLosesDoorbell | src/doca_gpunetio.cpp:1119-1142 | a run of any wider ring in which every store lands and the NIC learns nothing |
| ProxyProtocol.EarlyDoorbellOutrunsRecord | src/doca_gpunetio.cpp:1129-1138 | a run in which the pre-fence doorbell arrives before its record |
| ProxyProtocol.NeverGoesBack | src/doca_gpunetio.cpp:1113-1165 | between resets the indices rung never decrease, and neither the record nor the NIC's index goes back |
| ProxyProtocol.WholeCall | src/doca_gpunetio.cpp:1113-1165 | an uninterrupted progress call is a run of the protocol |
| GpuPosting.PollIsExact | include/device/doca_gpunetio_dev_verbs_cq.cuh:184-224 | a poll passes nothing that is not completed, and below the guard exactly what is, while its completion entry has not been written again |
| GpuPosting.PollIsRemembered | include/device/doca_gpunetio_dev_verbs_cq.cuh:242-251 | after a poll that ends without an error, that index and every earlier one pass at once |
| GpuPosting.GuardIsNeeded | include/device/doca_gpunetio_dev_verbs_cq.cuh:202-205 | without the guard a new queue's entries pass for the second lap with nothing completed |
| GpuPosting.StepKeepsInv | include/device/doca_gpunetio_dev_verbs_qp.cuh:77-158 | every step of any thread or of the NIC keeps the order of the calls, the written entries, the owner bits and the room in the ring |
| GpuPosting.PublishedIsWritten | include/device/doca_gpunetio_dev_verbs_qp.cuh:116-158 | over every interleaving the published index covers written entries alone and stays below the ready index |
| GpuPosting.PublishedNeverGoesBack | include/device/doca_gpunetio_dev_verbs_qp.cuh:399-410 | no step takes the ready, published or consumer index back, also where one thread stores them without looking |
| GpuPosting.PublishedIsIntact | include/device/doca_gpunetio_dev_verbs_qp.cuh:77-103 | without skipped checks, what is published and not completed is within one ring and still in its slot |
| GpuPosting.SkippingOverwrites | include/device/doca_gpunetio_dev_verbs_qp.cuh:100-102 | a run in which a caller that skips the check writes over a published entry |
| GpuPosting.IntactExactly | include/device/doca_gpunetio_dev_verbs_qp.cuh:100-102 | published entries are intact in all runs exactly when no caller may skip the check |
| GpuPosting.OneCallIsNext | include/device/doca_gpunetio_dev_verbs_qp.cuh:129-151 | while something is reserved and not ready exactly one call can mark next, and once it has written its entries it waits for nobody |
| GpuPosting.WaitIsExact | include/device/doca_gpunetio_dev_verbs_qp.cuh:77-83 | within a ring of the consumer index, a call's wait can end exactly when the entry a ring below its last is completed, or there is none |
| GpuPosting.OversizedNeverPasses | include/device/doca_gpunetio_dev_verbs_qp.cuh:77-103 | a call for more than the ring never gets past its wait |
| GpuPosting.StepIsClean | include/device/doca_gpunetio_dev_verbs_cq.cuh:242-251 | without errors and skipped checks, whoever may write is at most a ring ahead of the consumer index after every step |
| GpuPosting.ErrorsStarve | include/device/doca_gpunetio_dev_verbs_cq.cuh:242-251 | completions in error leave the consumer index: a run that ends with a free slot, a call waiting for it, and no wait or poll that can end |
| SendPath.PostIsAllowed | include/device/doca_gpunetio_dev_verbs_qp.cuh:558-568 | whatever the threads do, the index they publish is one the proxy's protocol allows |
| SendPath.CompletionIsAllowed | src/doca_gpunetio.cpp:1119-1142 | the NIC, told by the proxy, completes nothing the GPU has not published |
| SendPath.SidesRun | src/doca_gpunetio.cpp:1113-1165 | every run of the whole is on either side a run of that side alone, with the indices they share equal |
| SendPath.PostsArrive | include/device/doca_gpunetio_dev_verbs_qp.cuh:558-568 | over every run of the whole, what is published and not completed is written and in its slot; the NIC knows of nothing else, and of all of it once the full proxy is at rest |
| SendPath.ProxyCatchesUp | src/doca_gpunetio.cpp:1113-1165 | from every reachable state the proxy's own steps can lead to rest, with the GPU's index remembered and, as a full proxy, the NIC told of all of it |
| SendPath.PublishedCanComplete | src/doca_gpunetio.cpp:1113-1165 | from every reachable state everything published can be completed |
| SendPath.EveryCallCanFinish | include/device/doca_gpunetio_dev_verbs_qp.cuh:77-158 | no deadlock: after any run without errors whose calls fit the ring, every call made can write, mark and publish, and the NIC complete all of it |
| SendPath.FirstPostArrives | include/device/doca_gpunetio_dev_verbs_qp.cuh:77-158 | on a new queue a call of any size up to the ring gets through with no check skipped, to the NIC if the proxy is full |
| ProxyService.ExportQp | src/doca_gpunetio.cpp:741-908 | which requests are refused, whether there is a proxy, the handler in force and the word held for doorbells |
| ProxyService.AcceptedExports | src/doca_gpunetio.cpp:741-880 | what is accepted, record mode by record mode and handler by handler; a handler asked for is kept |
| ProxyService.AutoPicks | src/doca_gpunetio.cpp:859-908 | left to choose: the CPU exactly when the GPU cannot reach the page, else the GPU, with a record exactly in the valid-record mode |
| ProxyService.ModeOfExport | src/doca_gpunetio.cpp:1172-1178 | among exports with a proxy, the record is left out for NO_DBR_HW alone and the DBR-assisted form runs exactly without the CPU-proxy handler |
| ProxyService.ExportedRecordIsKept | src/doca_gpunetio.cpp:1113-1165 | every accepted export with a proxy and a mode other than NO_DBR_HW: the record covers every fenced doorbell, and at rest record and latest fenced doorbell are current |
| ProxyService.ExportFitsProtocol | src/doca_gpunetio.cpp:870-908 | an export with a proxy is a protocol configuration, and its doorbells name its queue exactly under the CPU-proxy handler or for queue 0 |
| ProxyService.QueueSevenIsExported | src/doca_gpunetio.cpp:892-908 | such an export of queue 7 is accepted |
| ProxyService.VerbsQp.ProgressFullAssisted | src/doca_gpunetio.cpp:1113-1143 | exactly with news, one doorbell if the mode is NO_DBR_HW, else doorbell, record, fence and doorbell in this order, each with the cell's index |
| ProxyService.VerbsQp.ProgressDbrAssisted | src/doca_gpunetio.cpp:1146-1165 | with news, record, fence and doorbell in this order, each with the cell's index |
| ProxyService.VerbsQp.Progress | src/doca_gpunetio.cpp:1167-1182 | which of these is issued by mode and handler, nothing without news or proxy, what is refused, and that the DBR-assisted form never reports progress |
| ProxyService.VerbsQp.ResetTracking | src/doca_gpunetio.cpp:1333-1420 | when it succeeds; the counters and the record go to zero once the first read worked, also when a later write fails; nothing is pending then |
| ProxyService.Service.MonitorQp | src/doca_gpunetio.cpp:1245-1255 | the queue pair joins the set |
| ProxyService.Service.Sweep | src/doca_gpunetio.cpp:1191-1196 | one pass polls every queue pair once; with no post meanwhile nothing is pending after it |
| ProxyService.Service.SweepUntilIdle | src/doca_gpunetio.cpp:1190-1197 | the loop ends within twice the remaining posts plus two passes, polls every queue pair once a pass, and what the last pass read was already recorded |
| Devx.DevxSet | src/doca_verbs_mlx5dv_wrapper.h:204-211 | the in-place writer, through both swaps, is the byte-level set |
| Devx.DevxGet | src/doca_verbs_mlx5dv_wrapper.h:215-219 | the reader is the byte-level get |
| Devx.DevxSet64 | src/doca_verbs_mlx5dv_wrapper.h:223-225 | the 64-bit writer on bytes |
| Devx.DevxGet64 | src/doca_verbs_mlx5dv_wrapper.h:229-231 | the 64-bit reader on bytes |
| Devx.MaskIs | src/doca_verbs_mlx5dv_wrapper.h:192 | the field mask is 2^size - 1, also for 32-bit fields |
| Devx.SetBits | src/doca_verbs_mlx5dv_wrapper.h:204-211 | a set changes exactly its field's bits, to the low bits of the value |
| Devx.SetView | src/doca_verbs_mlx5dv_wrapper.h:204-211 | the word-level writer is the bit-level overwrite |
| Devx.GetView | src/doca_verbs_mlx5dv_wrapper.h:215-219 | the word-level reader is the number the field's bits spell |
| Devx.GetAfterSet | src/doca_verbs_mlx5dv_wrapper.h:204-219 | get after set is the value modulo 2^size |
| Devx.SetKeepsDisjoint | src/doca_verbs_mlx5dv_wrapper.h:204-219 | every bit-disjoint field reads as before |
| Devx.GetAfterSetAll | src/doca_verbs_mlx5dv_wrapper.h:204-219 | after any list of sets to disjoint fields each reads its own value |
| Devx.GetUntouched | src/doca_verbs_mlx5dv_wrapper.h:204-219 | a field the list does not touch reads as before |
| Devx.OrderIrrelevant | src/doca_verbs_mlx5dv_wrapper.h:204-211 | sets to pairwise disjoint fields give the same buffer in any order |
| Devx.Set64IsTwoSets | src/doca_verbs_mlx5dv_wrapper.h:204-225 | the 64-bit writer leaves the bytes of two 32-bit sets, high half first, in the quadword of its offset |
| Devx.Get64AfterSet64 | src/doca_verbs_mlx5dv_wrapper.h:223-231 | the 64-bit reader inverts the writer |
| Devx.Set64View | src/doca_verbs_mlx5dv_wrapper.h:223-225 | the 64-bit writer replaces all 64 bits of the quadword, wherever in it the offset points |
| Devx.GetAfterSet64 | src/doca_verbs_mlx5dv_wrapper.h:215-225 | what any field in that quadword reads after a 64-bit write |
| Devx.FlagThroughSet64 | src/doca_verbs_qp.cpp:770 | a one-bit flag set through the 64-bit writer reads back exactly when it is 0 or the quadword's last bit |
| QpAttributes.HasIsBit | src/doca_verbs_qp.cpp:646-672 | masking with one shifted bit tests that bit |
| QpAttributes.MaskAcceptedMeans | src/doca_verbs_qp.cpp:222-332 | a mask passes exactly when it has every required attribute and none outside the tables |
| QpAttributes.PsnValid | src/doca_verbs_qp.cpp:590-597 | every sequence number is cut to its low 24 bits |
| QpAttributes.QpAttr.IsValid | src/doca_verbs_qp.cpp:646-672 | the verdict and the rewritten sequence numbers, also when the verdict is no |
| QpAttributes.QpAttr.MaskPsns | src/doca_verbs_qp.cpp:657-660 | the caller's sequence numbers are rewritten modulo 2^24 |
| QpAttributes.VerdictByBit | src/doca_verbs_qp.cpp:646-672 | the verdict check by check, by attribute bit number |
| QpAttributes.PsnsByBit | src/doca_verbs_qp.cpp:649-660 | which sequence numbers are cut, and that nothing else changes |
| QpLifecycle.Firmware.Execute | src/doca_verbs_qp.cpp:829-836 | the device runs a command only from its source state, and only if willing |
| QpLifecycle.Qp.Rst2InitQp | src/doca_verbs_qp.cpp:792-841 | exactly when it succeeds; the library remembers INIT and the device moves; failure changes neither |
| QpLifecycle.Qp.Init2InitQp | src/doca_verbs_qp.cpp:843-891 | the same, remembering INIT |
| QpLifecycle.Qp.Init2RtrQp | src/doca_verbs_qp.cpp:893-1025 | the same with the address and lookup checks, remembering RTR |
| QpLifecycle.Qp.Rtr2RtsQp | src/doca_verbs_qp.cpp:1027-1082 | the same, remembering RTS |
| QpLifecycle.Qp.Rts2RtsQp | src/doca_verbs_qp.cpp:1084-1156 | the same with the address and lookup checks, remembering RTS |
| QpLifecycle.Qp.ToErrQp | src/doca_verbs_qp.cpp:1158-1183 | the same from any state, remembering ERR |
| QpLifecycle.Qp.ToRstQp | src/doca_verbs_qp.cpp:1185-1210 | the same from any state, remembering RST |
| QpLifecycle.RememberedIsTarget | src/doca_verbs_qp.cpp:836-1205 | each of the seven assigned states is where the device goes on that command |
| QpLifecycle.DispatchFollowsLifecycle | src/doca_verbs_qp.cpp:3491-3518 | the dispatch picks a command exactly when the lifecycle has one between the two states, and that one |
| QpLifecycle.MasksTaken | src/doca_verbs_qp.cpp:124-332 | the exact set of masks each of the seven commands takes, by bit number |
| QpLifecycle.CallsTaken | src/doca_verbs_qp.cpp:893-1156 | what each transition takes besides its mask: address, transfer unit and lookups |
| QpLifecycle.StatesByBit | src/doca_verbs_qp.cpp:3480-3490 | which states a call goes from and to, by attribute bit |
| QpLifecycle.ConnectingCallsConnect | examples/verbs_common.cpp:521-556 | the library's own connecting calls, masks 0x8037, 0x245a8 and 0x13a20, take a willing device from reset to RTS exactly when port, partition key, transfer unit, address and lookups are in range |
| QpLifecycle.Qp.Modify | src/doca_verbs_qp.cpp:3480-3518 | exactly when a modify succeeds, where both states go, and that failure changes neither; the call is one lawful step that extends every lawful run that led to it |
| QpLifecycle.Qp.Choose | src/doca_verbs_qp.cpp:3491-3518 | a command is chosen exactly when some command leads from the current to the next state, and the chosen one does |
| QpLifecycle.CacheAgrees | src/doca_verbs_qp.cpp:829-836 | over every run the remembered state is the device's unless the device fell into ERR by itself, and exactly then not |
| QpLifecycle.PathStep | src/doca_verbs_qp.cpp:3491-3512 | each accepted command extends the path from reset correctly |
| QpLifecycle.FirmwarePath | src/doca_verbs_qp.cpp:3491-3512 | over every run the device's state is the end of the path of calls since reset |
| QpLifecycle.CachedPath | src/doca_verbs_qp.cpp:3491-3512 | the same of the remembered state if no caller names the current state |
| QpLifecycle.TrailSupplies | src/doca_verbs_qp.cpp:260-332 | each successful call supplied its own required attributes |
| QpLifecycle.ReadyMeansConnected | src/doca_verbs_qp.cpp:124-139 | device in RTS: the calls since reset went RST, INIT, RTR, RTS and supplied attributes 0, 1, 2, 4, then 3, 7, 8, 10, 14, then 9, 11, 12, 13 |
| QpLifecycle.RememberedReadyMeansConnected | src/doca_verbs_qp.cpp:124-139 | remembered RTS means the same, whatever the device accepts, if no caller names the current state |
| QpLifecycle.ClaimsAreHarmlessToTheLawful | src/doca_verbs_qp.cpp:3483-3512 | and also with such callers on a device that keeps to the lifecycle |
| QpLifecycle.ClaimNeedsTheDevice | src/doca_verbs_qp.cpp:3483-3486 | a claim and a device that does not check together give it up: a concrete run |
| QpLifecycle.ClaimMask | src/doca_verbs_qp.cpp:297-315 | the mask of that run exists |
| QpContext.FieldsDisjoint | include/host/mlx5_ifc.h:3398-3584 | the context fields the commands carry share no bit |
| QpContext.CommandOnWire | include/host/mlx5_ifc.h:3398-3562 | each command puts each attribute into the header's bytes for it, by byte number, and zeros into the bytes of the other fields |
| QpContext.ChoicesByBit | src/doca_verbs_qp.cpp:807-827 | when each optional field is written, by attribute bit number |
| QpContext.ReadAfterSet | src/doca_verbs_mlx5dv_wrapper.h:204-219 | setting one context field cuts its value and leaves every other field |
| QpContext.Packer.PutIf | src/doca_verbs_qp.cpp:803-827 | one conditional field set, in place |
| QpContext.PackRst2Init | src/doca_verbs_qp.cpp:792-827 | the RST2INIT context holds exactly what the attributes call for, byte by byte, and zeros |
| QpContext.PackInit2Rtr | src/doca_verbs_qp.cpp:905-1004 | the same for INIT2RTR |
| QpContext.PackRtr2Rts | src/doca_verbs_qp.cpp:1037-1062 | the same for RTR2RTS |
| QpContext.Init2RtrWritten | src/doca_verbs_qp.cpp:905-1004 | the writes in program order come to the per-field table |
| QpContext.Rtr2RtsWritten | src/doca_verbs_qp.cpp:1037-1062 | the same for RTR2RTS |
| QpContext.Rst2InitWritten | src/doca_verbs_qp.cpp:803-827 | the same for RST2INIT |
| QpContext.DeviceKeepsLatest | src/doca_verbs_qp.cpp:792-1062 | after any list of commands each context field reads as the last value written to it, cut to its width |
| QpContext.QueryFromBytes | src/doca_verbs_qp.cpp:1240-1275 | each queried attribute comes from the header's bytes for it, by byte number |
| QpContext.PsnsComeBack | src/doca_verbs_qp.cpp:1247-1249 | both sequence numbers and the peer's number come back modulo 2^24 for every 32-bit input |
| QpContext.PsnsOnDevice | include/host/mlx5_ifc.h:3490-3549 | peer number and sequence numbers end in bytes 21-23, 121-123 and 149-151 of the device's context |
| QpContext.DepthsComeBack | src/doca_verbs_qp.cpp:1002-1004 | an RD-atomic depth comes back through log, set, get and shift exactly when its setter accepts it |
| QpContext.TimersComeBack | src/doca_verbs_qp.cpp:1039-1044 | ACK timeout and the two retry counts come back exactly when they fit their fields |
| QpContext.MtuComesBack | src/doca_verbs_qp.cpp:407-466 | every transfer unit the checks admit comes back through both conversions |
| QpContext.CdMasterMissesItsField | src/doca_verbs_qp.cpp:770 | the flag reads 0 for every value and the value reads as the receive sequence number |
| QpSizing.Queues.SizeReceive | src/doca_verbs_qp.cpp:1338-1367 | the receive side follows its plan, refusals and division by zero included |
| QpSizing.Queues.SizeSend | src/doca_verbs_qp.cpp:1369-1443 | the send side follows its plan |
| QpSizing.Queues.Place | src/doca_verbs_qp.cpp:1487-1517 | the buffer offsets follow the layout |
| QpSizing.ReceiveDivides | src/doca_verbs_qp.cpp:1349-1365 | division by zero exactly when an accepted request has more than 2^27 segments |
| QpSizing.ReceiveDividesAt | src/doca_verbs_qp.cpp:1349-1365 | one request of 2^27 + 1 segments does |
| QpSizing.ReceiveEntry | src/doca_verbs_qp.cpp:1349-1358 | the entry is a power of two with room for the segments, less than twice as many, and its stride log is exact |
| QpSizing.ReceiveHolds | src/doca_verbs_qp.cpp:1361-1367 | at least rq_wr entries exactly when rq_wr times 16 bytes a rounded-up segment is at most 2^31; then a power of two with an exact log |
| QpSizing.ReceiveFallsShort | src/doca_verbs_qp.cpp:1361-1367 | an accepted request that gets fewer entries than asked for |
| QpSizing.ReceiveServedExactly | src/doca_verbs_qp.cpp:1338-1367 | a receive request is accepted and served in full exactly within the device's two limits and 2^31 bytes |
| QpSizing.SendDivides | src/doca_verbs_qp.cpp:1371-1433 | division by zero exactly when the device states no limit, or an accepted request's segment and inline sizes both wrap to 0 |
| QpSizing.SendDividesAt | src/doca_verbs_qp.cpp:1388-1433 | one request of 2^28 - 2 segments does |
| QpSizing.SendEntry | src/doca_verbs_qp.cpp:1382-1418 | a request has room for segments and inline data exactly when neither size wrapped |
| QpSizing.SendHolds | src/doca_verbs_qp.cpp:1420-1431 | at least sq_wr requests exactly when sq_wr times the 32-bit request size is at most 2^31; then a power of two of 64-byte units, log exact |
| QpSizing.SendServes | src/doca_verbs_qp.cpp:1382-1443 | enough requests, each with room for its segments and inline data, exactly when neither size wraps and the true sizes fill at most 2^31 bytes |
| QpSizing.SendServedExactly | src/doca_verbs_qp.cpp:1369-1443 | a send request is accepted and served in full exactly when nothing wraps, within the device's limits on descriptors and units, and within 2^31 bytes |
| QpSizing.SendFallsShort | src/doca_verbs_qp.cpp:1371-1431 | an accepted request that gets no queue |
| QpSizing.GuardIsEnough | src/doca_verbs_qp.cpp:1370-1431 | with a descriptor limit in whole units the sq_wr guard alone gives all of that |
| QpSizing.PiecesAreApart | src/doca_verbs_qp.cpp:1487-1517 | receive queue, send queue and doorbell are disjoint inside the buffer exactly unless both are asked for bytes that round up to 2^31 |
| QpSizing.WholePages | src/doca_verbs_qp.cpp:1487-1499 | the buffer is a whole number of 4096-byte pages |
| QpSizing.PiecesOverlap | src/doca_verbs_qp.cpp:1487-1517 | such a pair is accepted and the doorbell lies at offset 0 |
| QpSizing.ExternalViewsAgree | src/doca_verbs_qp.cpp:1529-1531 | CPU and device find the queues in the same place exactly when the caller's queue offset is 0: the create command has no field for it |
| SrqSizing.Srq.Size | src/doca_verbs_srq.cpp:193-246 | the sizes follow their plan for both types |
| SrqSizing.Srq.EntrySize | src/doca_verbs_srq.cpp:217-228 | the rounded entry size |
| SrqSizing.SegmentsFill | src/doca_verbs_srq.cpp:230-236 | the recomputed segments and the link fill the entry exactly |
| SrqSizing.Srq.Place | src/doca_verbs_srq.cpp:252-311 | pointers and device offsets for internal and external memory |
| SrqSizing.SrqEntry | src/doca_verbs_srq.cpp:217-238 | the entry is a power of two; it holds the segments and the link exactly when those fill at most 2^31 bytes |
| SrqSizing.SrqDivides | src/doca_verbs_srq.cpp:217-245 | division by zero exactly when an accepted segment count, modulo 2^28, is 0 or above 2^27 (contiguous), or from 2^27 to 2^28 - 2 (linked) |
| SrqSizing.SrqDividesAt | src/doca_verbs_srq.cpp:217-245 | 2^27 + 1 contiguous segments do, and 2^27 linked ones |
| SrqSizing.SrqHolds | src/doca_verbs_srq.cpp:240-246 | at least srq_wr entries exactly when srq_wr times the rounded-up entry bytes is at most 2^31; then a power of two |
| SrqSizing.SrqServes | src/doca_verbs_srq.cpp:217-246 | enough entries, each with the segments asked for, exactly when an entry and all of them fit 2^31 bytes |
| SrqSizing.SrqServedExactly | src/doca_verbs_srq.cpp:193-246 | a request is accepted and served in full exactly within the device's two limits and 2^31 bytes |
| SrqSizing.SrqFallsShort | src/doca_verbs_srq.cpp:240-246 | an accepted request that gets fewer entries than asked for |
| SrqSizing.DoorbellPastQueue | src/doca_verbs_srq.cpp:252-265 | the doorbell record is past the last entry, on its own line, inside the buffer |
| SrqSizing.SameDoorbell | src/doca_verbs_srq.cpp:280-311 | CPU pointer and device offset name the same byte in both kinds of memory |
| RingPipeline.Cq.Create | src/doca_verbs_cq.cpp:158-230 | entry count and doorbell pointers; refused unless a power of two within the limit |
| RingPipeline.CqExactly | src/doca_verbs_cq.cpp:158-230 | accepted exactly for powers of two within the device's limit; entries, exact log, and doorbells past the entries exactly below 2^26 |
| RingPipeline.CreateRing | src/doca_gpunetio_high_level.cpp:754-790 | the creation calls carry one depth through both queues and both buffers |
| RingPipeline.DepthsAgree | src/doca_gpunetio.cpp:783-795 | depth, entries, units and exported count and masks agree exactly for requests up to 32768 |
| RingPipeline.MaskIsMod | src/doca_gpunetio.cpp:920 | masking with a power of two less one is the remainder |
| RingPipeline.SlotIsMod | include/device/doca_gpunetio_dev_verbs_qp.cuh:56-63 | the device's slot is the index modulo the depth, inside the ring, and shared by no two indices less than a ring apart |
| RingPipeline.BuffersHold | src/doca_gpunetio_high_level.cpp:172-181 | the send ring fills the first depth*64 bytes of its buffer; both doorbell words are past the last entry and inside theirs |
| RingPipeline.InitCqes | src/doca_gpunetio_high_level.cpp:183-188 | the loop marks the last byte of every entry and touches nothing else |
| RingPipeline.FreshIsUnobserved | include/device/doca_gpunetio_dev_verbs_cq.cuh:117-126 | a marked entry is not taken as complete on the first lap |
| RingPipeline.PollTellsLaps | include/device/doca_gpunetio_dev_verbs_cq.cuh:117-134 | the owner-bit test, with or without the work-queue counter, tells this lap's entry from the last lap's |
| RingPipeline.WipedIsObserved | src/doca_gpunetio.cpp:1376-1384 | an entry a reset has filled passes the owner test exactly on odd laps |
| RingPipeline.WipedEntriesAreSafeExactly | src/doca_gpunetio.cpp:1362-1384 | none of the first ring's worth after a reset does exactly when polling restarts at a whole number of double laps |
| RingPipeline.WipedEntryAt | src/doca_gpunetio.cpp:1362-1384 | with 64 entries and one completion before the reset, one is taken for a completion |
| MemTable.GpuDevice.MemAlloc | src/doca_gpunetio.cpp:291-471 | table, live memory and reply after an allocation, whatever the drivers refuse; the address is on the caller's alignment, or on 64 KiB through gdrcopy; the raw bytes behind it |
| MemTable.GpuDevice.MemFree | src/doca_gpunetio.cpp:519-556 | the same for a free, and an unknown address is refused |
| MemTable.AllocKeeps | src/doca_gpunetio.cpp:301-471 | each table entry owns one live raw allocation and every other live one is accounted as lost, after any allocation |
| MemTable.FreeKeeps | src/doca_gpunetio.cpp:528-556 | the same after any free |
| MemTable.InvHolds | src/doca_gpunetio.cpp:247-556 | the same over every run |
| MemTable.RangeInside | src/doca_gpunetio.cpp:305-324 | the caller's range is inside its raw allocation exactly when the size did not wrap |
| MemTable.StartAligned | src/doca_gpunetio.cpp:319-324 | the range starts on the alignment in force |
| MemTable.AllocAligned | src/doca_gpunetio.cpp:303-444 | the same of address and bytes, from request, configuration and reply alone |
| MemTable.Replies | src/doca_gpunetio.cpp:280-471 | when an allocation succeeds, kind by kind, and which refusal it is otherwise; which frees are refused |
| MemTable.MappedAlignment | src/doca_gpunetio.cpp:310 | memory mapped through gdrcopy keeps the caller's own alignment exactly when that is at most 64 KiB |
| MemTable.GdrAssertionHolds | src/doca_gpunetio_gdrcopy.cpp:196 | the forced 64 KiB alignment satisfies the mapping assertion |
| MemTable.LossIsExact | src/doca_gpunetio.cpp:336-388 | one step loses raw memory exactly in the three named ways |
| MemTable.LiveIsTable | src/doca_gpunetio.cpp:247-556 | over every ordinary run the live memory is the table's plus what those three ways lost |
| MemTable.TableIsLiveExactly | src/doca_gpunetio.cpp:247-556 | over every ordinary run the table is exactly the live memory when, and only when, no step lost any |
| MemTable.TableIsLive | src/doca_gpunetio.cpp:303-556 | with GPU and CPU_GPU memory alone, and no refused `cudaFree`, the table is exactly the live memory |
| MemTable.RefusedFreeLosesMemory | src/doca_gpunetio.cpp:537-538 | plain GPU memory whose free the driver refuses: the call succeeds, the entry is gone, the memory is live |
| MemTable.AllocThenFree | src/doca_gpunetio.cpp:528-556 | freeing restores table, live memory and pins exactly when the memory is not the fallback's and the driver does its part; a second free is refused |
| MemTable.PinsHold | src/doca_gpunetio.cpp:402-461 | over every run each host entry holds one pin and every other pin is accounted as stale |
| MemTable.StaleIsExact | src/doca_gpunetio.cpp:416-450 | one step leaves a pin behind exactly for the fallback (lookup failed, or freed) and for a refused unregistration |
| MemTable.PinsAreTable | src/doca_gpunetio.cpp:390-548 | over every ordinary run host memory is pinned exactly by its entry or left behind in those ways |
| UarRegistry.Registry.ExportUar | src/doca_gpunetio.cpp:638-687 | counts, registrations and reply of an export, with failures at either driver call |
| UarRegistry.Registry.UnexportUar | src/doca_gpunetio.cpp:689-714 | the same for a release, wrap-around included |
| UarRegistry.Registry.CanRegisterUar | src/doca_gpunetio.cpp:610-634 | the same for the probe and its cached answer |
| UarRegistry.StepKeepsExactly | src/doca_gpunetio.cpp:610-714 | one step keeps "registered iff counted" and "count is exports less releases" exactly when it is safe |
| UarRegistry.CountsAgree | src/doca_gpunetio.cpp:610-714 | so over every interleaving of safe steps |
| UarRegistry.FirstUnsafeBreaks | src/doca_gpunetio.cpp:610-714 | the first unsafe step is the first disagreement |
| UarRegistry.ExportAnswers | src/doca_gpunetio.cpp:638-687 | over every honest and safe run: Ok exactly when the page's net count goes up, and exactly when the drivers did their part; the page is then registered; else nothing moves |
| UarRegistry.ReleaseAnswers | src/doca_gpunetio.cpp:689-714 | Ok exactly when the net count goes down, and exactly when some export was out; registered exactly if one still is; else nothing moves |
| UarRegistry.ProbeAnswers | src/doca_gpunetio.cpp:612-634 | over every run the cached answer is the first probe's: yes exactly when its registration was made or already there |
| UarRegistry.ProbeReplies | src/doca_gpunetio.cpp:610-634 | when a probe is answered; it moves no count |
| UarRegistry.ProbeLeavesRegistrations | src/doca_gpunetio.cpp:610-634 | the probe changes no count, and no registration exactly when its own is undone |
| UarRegistry.ProbeIsCached | src/doca_gpunetio.cpp:612-634 | once it has an answer every later probe gives it |
| UarRegistry.ReleaseAfterFailedExport | src/doca_gpunetio.cpp:650-712 | the zero entry of a failed export wraps on release |

## Left out

- Symbol loading and the SDK/open dispatch of every public function, null checks, logging and plain setters and getters.
- The outer loop of the service thread, its lock and the stop flag; monitoring during a sweep waits for the lock in the source.
- `init2init` and `rts2rts` packing, the byte copies of the remote GID and MAC, and the opt-param mask translation: they would repeat the same argument.
- Address, MAC and RoCE-version lookups are a yes/no answer; the random source port is a parameter.
- ProxyService.VerbsQp.ResetTracking: the later device writes are one yes/no answer; what they leave in GPU memory is only followed for completion entries, in `RingPipeline`.
- ProxyService.ExportQp: the queries on the way work or fail together, and what an export that ends early leaves behind is not followed.
- MemTable.GpuDevice.MemAlloc: host allocation failure of the table entry itself is not modelled; the source does not check it.
- QpSizing.PiecesAreApart: the internal buffer only; for external memory the source checks no size.
- SrqSizing.DoorbellPastQueue: the bound on the buffer is about the internal one, for the same reason.
- Creation of UARs, error-path cleanup of the high-level creation functions and queue-pair groups.
- Device capability queries: their results are parameters.
- The GPU's own doorbell paths (GPU_SM_DB, BlueFlame) and the contents of entries: of the device code the reservation, availability check, marking, publication and completion test are modelled.
- GpuPosting: a new queue, whose completion count starts at 0; where polling restarts after a reset is in `RingPipeline`.
- `std::log2` on doubles is the integer logarithm; it is applied to powers of two except for an unset RD-atomic depth, where the source returns 0.
