# Burst loops, buffers and flows: a Dafny model of DPDK application code

This project models algorithms of DPDK 25.11 in which state is carried across
bursts, buffers or fields, and proves what they promise. Calls into libraries
are small contracts: a memory pool of operations, a nondeterministic device that
takes any prefix of a burst and hands back any completed operations, a DMA ring
that may be full, a chain of segments. The device records what went through it
and what it was asked for, so that contracts can say how much work a test does.
A device keeps order only where a property says so, and has a budget of empty
answers, which is what termination of the polling loops rests on.

| file | content |
|---|---|
| Common, Burst, Mbuf | shared definitions; pool and device; segment chains |
| PrepareBufs | compression tests: sizes, and cutting the input into chains |
| Pacing | what the tests ask of a device, request by request |
| CarryOver, CompressRun, CompressEngine | the burst protocol as states and steps, the data its operations carry, and the loop over the array of operations |
| CompressVerify, VerifyRunner | the verify test: output reassembled, compress, decompress, compare |
| CompletionOrders, Reorder | which completion orders happen, and when they make no difference |
| CompressPerf, CompressPerfRunner | the throughput and cycle-count tests, and the verify test before them |
| CryptoCarryOver, CryptoVerify | the crypto throughput and verify tests |
| CryptoSegments, CryptoDigest | test data and digest in a segment chain, and what the verify test makes of them |
| CryptoLatency, CryptoPmd | latency pairing, PMD cycle count |
| OutputHook | speculative packet dispatch in the graph application |
| Rss, RssFlows | Toeplitz hash, symmetric keys, choosing flows |
| DmaCopy, DmaSg | DMA accounting and scatter-gather partition |
| AclPrefix, Conn | IPv6 prefix splitting, command framing |

Each burst loop is proved in two layers: pure states with an invariant that every
step keeps, then methods over arrays and objects whose state is one of those.

Properties that turned out to be conditional:

- The round trip of the verify test depends on the order of completions, which
  the device does not guarantee (dpdk-25.11/lib/compressdev/rte_compressdev.h:427).
  It holds on every run exactly when the device keeps order or the chunks commute
  (`RoundTripCondition`); `OrderMatters` is an accepted input and a run that fails.
- The timed loop of the performance tests returns 0 even when operations were not
  successful: its report is right exactly when every chunk fits (`CompressLoop`),
  `Unnoticed` is a call where none does. Behind the verify test this cannot happen
  as long as the codec gives the same result for the same data (`PerfTest`).
- The crypto verify test looks for the digest right behind the message, but a
  digest that does not fit in the segment where the message ends is placed in the
  next one. A right digest always passes, and a wrong one never, exactly when
  `test_buffer_size % segment length + digest_sz <= segment length`
  (`CorrectDevicePasses`, `WrongDigestFails`); `CheckMisled` gives a size at which
  a right one fails and a wrong one passes.
- Symmetric hashing is a property of the key: `SymmetricKeys` says of which,
  `CnxkKey` and `IntelKey` of the two default ones.
- A command is delivered as it was sent exactly when it has no more than
  msg_in_len_max bytes (`KeptWhole`); a longer one is delivered cut, not refused
  (`LineForm`, `OneTooMany`).

## Model

| member | source | states |
|---|---|---|
| VerifyRunner.VerifyTest | dpdk-25.11/app/test-compress-perf/comp_perf_test_verify.c:426-481 | the whole verify test, from options to exit status, for every input, segment size, SGL limit, burst size, codec and device schedule: it succeeds exactly when every compressed chunk fits its chain and (when it also decompresses) every restored chunk fits and the chunks in completion order are the input; every chunk is finished once, in order on an order-keeping device; with a lossless codec, if the device keeps order or the chunks commute, it succeeds exactly when every compressed chunk fits; a test that succeeds has put every chunk through the device in each of its calls of main_loop, asking for min(remaining, burst_sz) per enqueue and burst_sz per dequeue |
| VerifyRunner.RoundTrip | dpdk-25.11/app/test-compress-perf/comp_perf_test_verify.c:439-481 | with a lossless codec every restored chunk fits and is the chunk, and in submission order the restored chunks concatenate to the input |
| VerifyRunner.OrderMatters | dpdk-25.11/app/test-compress-perf/comp_perf_test_verify.c:472-480 | the round trip can fail: for accepted options (sixteen bytes in two segments of eight) there is a run of the protocol that completes the second chunk first, and what it restores is not the input, for every lossless codec |
| VerifyRunner.RoundTripCondition | dpdk-25.11/app/test-compress-perf/comp_perf_test_verify.c:439-481 | for every lossless codec and accepted options: all complete runs of the protocol restore the input if and only if the device keeps order or any two chunks of the input commute under concatenation |
| VerifyRunner.OrderIndifferent | dpdk-25.11/app/test-compress-perf/comp_perf_test_verify.c:472-480 | for any codec: in submission order, or if what the chunks restore to commutes, the output is what they restore to one after the other |
| Reorder.OrdersAlike | dpdk-25.11/app/test-compress-perf/comp_perf_test_verify.c:287-293 | putting chunks together gives the same for every permutation if and only if any two of them commute |
| Reorder.AnyOrderAlike | dpdk-25.11/app/test-compress-perf/comp_perf_test_verify.c:287-293 | two orders of the same chunks, repetitions allowed, give the same if the chunks commute |
| CompletionOrders.AnyOrder | dpdk-25.11/app/test-compress-perf/comp_perf_test_verify.c:253-257 | on a device that does not keep order every permutation of the buffers is the completion order of some run from the start to the end of an iteration |
| CompletionOrders.CompletesOnce | dpdk-25.11/app/test-compress-perf/comp_perf_test_verify.c:158-411 | whatever run there is, it completes every buffer once, in order if the device keeps order |
| CompletionOrders.RunsAlike | dpdk-25.11/app/test-compress-perf/comp_perf_test_verify.c:253-293 | all complete runs give the same output if and only if the device keeps order or the chunks commute |
| VerifyRunner.Runner | dpdk-25.11/app/test-compress-perf/comp_perf_test_verify.c:439-481 | the runner on given chains and any codec: success if and only if the three conditions hold; the completion order is a permutation of the buffers, the identity for an order-keeping device, and without effect where the restored chunks commute; what the device was asked for in each call |
| VerifyRunner.DecompressOnlyTest | dpdk-25.11/app/test-compress-perf/comp_perf_test_verify.c:447-461 | in decompress-only mode nothing is compared: success exactly when the output fits max_sgl_segs segments, and then decompressed_data holds it; one chain goes through the device |
| VerifyRunner.FirstCall | dpdk-25.11/app/test-compress-perf/comp_perf_test_verify.c:120-124 | the compress call reads chunk b from buffer b, and all results fit exactly when all compressed chunks fit their chains |
| VerifyRunner.SecondCall | dpdk-25.11/app/test-compress-perf/comp_perf_test_verify.c:141-147 | the decompress call reads what the compress call left: its results are the chunks compressed and decompressed |
| VerifyRunner.GatherRoom | dpdk-25.11/app/test-compress-perf/comp_perf_test_common.c:252-254 | the compressed output is never longer than out_seg_sz * total_segs, so compressed_data is not overrun |
| VerifyRunner.Chunks | dpdk-25.11/app/test-compress-perf/comp_perf_test_common.c:379-549 | the chunks the input is cut into concatenate to the input |
| CompressVerify.MainLoop | dpdk-25.11/app/test-compress-perf/comp_perf_test_verify.c:158-411 | for every schedule of accepted prefixes and completions it ends, completes exactly when every result fits, leaves every output packet equal to its result, the output equal to the results in completion order, and the pool as it was; every enqueue asks for min(remaining, burst_sz), every dequeue for burst_sz, and all buffers go in and come back |
| CompressVerify.Iterate | dpdk-25.11/app/test-compress-perf/comp_perf_test_verify.c:158-407 | the two loops keep the engine valid and the output assembled, and end with everything enqueued and dequeued |
| CompressVerify.Round | dpdk-25.11/app/test-compress-perf/comp_perf_test_verify.c:253-320 | one dequeue: its output is appended in completion order, its lengths are fixed up, its operations recycled; NoSpace only if some result does not fit |
| CompressVerify.CopyOutputs | dpdk-25.11/app/test-compress-perf/comp_perf_test_verify.c:259-295 | copies the results of a burst behind those before it, never past the output buffer, and stops exactly at an operation that did not succeed |
| CompressVerify.CopyOutput | dpdk-25.11/app/test-compress-perf/comp_perf_test_verify.c:259-294 | one operation: appended if successful, refused otherwise |
| CompressVerify.GatherPermuted | dpdk-25.11/app/test-compress-perf/comp_perf_test_verify.c:287-293 | the output has the same length in whatever order the buffers complete |
| CompressVerify.GatherBound | dpdk-25.11/app/test-compress-perf/comp_perf_test_verify.c:287-293 | at any time what has been written is no longer than the results of all buffers together |
| CompressVerify.LoopEnd | dpdk-25.11/app/test-compress-perf/comp_perf_test_verify.c:408-411 | at the end every result fits and is delivered, and every operation is back |
| CompressPerf.MainLoop | dpdk-25.11/app/test-compress-perf/comp_perf_test_throughput.c:132-327 | both performance tests over any number of iterations: finished exactly when every result fits (or there is no iteration), pool as before, packets settled; the return code says only whether a burst size was given; num_iter runs of the loops follow each other, each of them (all but the last if that one fails) putting every buffer through the device, so that num_iter * total_bufs operations go in and come back |
| CompressPerf.Iteration | dpdk-25.11/app/test-compress-perf/comp_perf_test_cyclecount.c:256-454 | one iteration: buffers 0, 1, ... submitted once each and in order, all completed, nothing outstanding, pool as before; only the last iteration looks at statuses; the device is asked for min(remaining, burst_sz) per enqueue, for burst_sz or, in the cycle-count test, what is outstanding per dequeue, and total_bufs operations go in and come back |
| CompressPerf.Repeat | dpdk-25.11/app/test-compress-perf/comp_perf_test_throughput.c:132-307 | the loop over num_iter iterations: as many runs, finished exactly when every result fits |
| CompressPerf.EnqueueAll | dpdk-25.11/app/test-compress-perf/comp_perf_test_throughput.c:141-252 | the first loop of an iteration ends with nothing remaining, an enqueue and a dequeue in turn |
| CompressPerf.DequeueAll | dpdk-25.11/app/test-compress-perf/comp_perf_test_throughput.c:254-306 | the second ends with everything dequeued |
| Pacing.LoopRound | dpdk-25.11/app/test-compress-perf/comp_perf_test_cyclecount.c:323-354 | a round keeps the pace: the enqueue asks for min(burst, left), the dequeue for a burst or for what is outstanding as 16 bits |
| Pacing.AllLoopRuns | dpdk-25.11/app/test-compress-perf/comp_perf_test_throughput.c:313-317 | n complete runs take and give back n times the operations of one |
| CompressPerf.Round | dpdk-25.11/app/test-compress-perf/comp_perf_test_cyclecount.c:351-394 | a dequeue with any limit (the cycle-count test passes the number outstanding, cut to 16 bits) keeps the engine valid; NotSuccessful only in the last iteration and only if some result does not fit |
| CompressPerf.CheckStatuses | dpdk-25.11/app/test-compress-perf/comp_perf_test_throughput.c:221-229 | true exactly when all operations of the burst were successful |
| CompressPerf.FailedBuffer | dpdk-25.11/app/test-compress-perf/comp_perf_test_throughput.c:225-229 | an operation fails only for a buffer whose result does not fit |
| CompressPerfRunner.CompressLoop | dpdk-25.11/app/test-compress-perf/comp_perf_test_throughput.c:95-330 | the timed loop on the chains made from any accepted options: finished exactly when every compressed chunk fits or there is no iteration, NotSuccessful otherwise, and 0 either way; on success num_iter times the number of chunks go through the device |
| CompressPerfRunner.PerfTest | dpdk-25.11/app/test-compress-perf/comp_perf_test_throughput.c:363-382 | the runner in compress-only mode: success exactly when every compressed chunk fits, behind the verify test no operation of the timed loops fails, and on success the device has seen the one call of the verify test followed by num_iter runs of the warm-up and num_iter runs of the timed loop, each over all chunks |
| CompressPerfRunner.Unnoticed | dpdk-25.11/app/test-compress-perf/comp_perf_test_throughput.c:221-229 | an accepted call of the timed loop, alone, that returns 0 although no operation was successful |
| CompressEngine.Engine.Start | dpdk-25.11/app/test-compress-perf/comp_perf_test_verify.c:159-167 | an iteration starts with the invariant established, nothing submitted |
| CompressEngine.Engine.Carry | dpdk-25.11/app/test-compress-perf/comp_perf_test_verify.c:178-183 | the unused operations are at the front, in the order they had |
| CompressEngine.Engine.TopUp | dpdk-25.11/app/test-compress-perf/comp_perf_test_verify.c:174-193 | unused operations first, then the ones from the pool; pool plus window is unchanged |
| CompressEngine.Engine.Fetch | dpdk-25.11/app/test-compress-perf/comp_perf_test_verify.c:170-193 | the subtraction num_ops - ops_unused does not wrap, the pool has the operations, those fetched are distinct, the window is the old unused ones followed by them |
| CompressEngine.Engine.Attach | dpdk-25.11/app/test-compress-perf/comp_perf_test_verify.c:204-231 | operation and buffer are paired, the chain cleared, nothing else touched |
| CompressEngine.Engine.Populate | dpdk-25.11/app/test-compress-perf/comp_perf_test_verify.c:195-231 | the i-th new operation is set up for buffer total_enq_ops + ops_unused + i with a cleared chain; all others unchanged |
| CompressEngine.Engine.Refill | dpdk-25.11/app/test-compress-perf/comp_perf_test_verify.c:170-231 | the carry-over: never fails, leaves min(remaining_ops, burst_sz) operations for the next buffers |
| CompressEngine.Engine.Offer | dpdk-25.11/app/test-compress-perf/comp_perf_test_verify.c:236-249 | the device takes a prefix, the rest is what is carried |
| CompressEngine.Engine.Submit | dpdk-25.11/app/test-compress-perf/comp_perf_test_verify.c:236-251 | the buffers handed to the device so far are 0, 1, ..., total_enq_ops - 1, in order |
| CompressEngine.Engine.Feed | dpdk-25.11/app/test-compress-perf/comp_perf_test_verify.c:170-251 | carry-over and enqueue together: the device is asked for min(remaining_ops, burst_sz) |
| CompressEngine.Engine.Poll | dpdk-25.11/app/test-compress-perf/comp_perf_test_verify.c:253-256 | a dequeue writes behind the enqueue window only, whatever the limit |
| CompressEngine.Engine.Dequeue | dpdk-25.11/app/test-compress-perf/comp_perf_test_verify.c:253-257 | what comes back was in flight, has run, and is neither held nor in flight any more |
| CompressEngine.Engine.SettleLengths | dpdk-25.11/app/test-compress-perf/comp_perf_test_verify.c:298-316 | the chains of the burst carry their results as packets, no other chain changes |
| CompressEngine.Engine.Recycle | dpdk-25.11/app/test-compress-perf/comp_perf_test_verify.c:318-320 | operations dequeued go back to the pool and outstanding drops by as many |
| CompressEngine.Engine.Finish | dpdk-25.11/app/test-compress-perf/comp_perf_test_verify.c:298-320 | fix-up and recycling keep the engine valid and append the buffers to the completion order |
| CompressRun.RunStart | dpdk-25.11/app/test-compress-perf/comp_perf_test_verify.c:159-167 | the invariant holds at the head of an iteration |
| CompressRun.RunRefillPossible | dpdk-25.11/app/test-compress-perf/comp_perf_test_verify.c:170-172 | ops_unused never exceeds the next num_ops and the pool has the difference |
| CompressRun.RunRefillKeeps | dpdk-25.11/app/test-compress-perf/comp_perf_test_verify.c:170-231 | topping up keeps the invariant, data included |
| CompressRun.RunSubmitKeeps | dpdk-25.11/app/test-compress-perf/comp_perf_test_verify.c:236-251 | so does submitting any prefix |
| CompressRun.RunHanded | dpdk-25.11/app/test-compress-perf/comp_perf_test_verify.c:236-251 | any prefix submitted continues the buffers handed to the device in order |
| CompressRun.ExecuteRuns | dpdk-25.11/app/test-compress-perf/comp_perf_test_verify.c:259-276 | a set-up operation run on a cleared chain succeeds exactly when its result fits, and then the result is at the front of the chain |
| CompressRun.RunCollectKeeps | dpdk-25.11/app/test-compress-perf/comp_perf_test_verify.c:253-257 | dequeueing any completed operations keeps the invariant |
| CompressRun.RunRecycleKeeps | dpdk-25.11/app/test-compress-perf/comp_perf_test_verify.c:298-320 | fixing up and recycling keeps the invariant |
| CompressRun.RunEnd | dpdk-25.11/app/test-compress-perf/comp_perf_test_verify.c:407-411 | at the end every buffer was completed once (in order for such a device), the pool has everything, every packet is its result |
| CarryOver.RefillKeeps | dpdk-25.11/app/test-compress-perf/comp_perf_test_throughput.c:142-193 | topping up keeps conservation, submission order, exactly-once and the counters |
| CarryOver.RefillPossible | dpdk-25.11/app/test-compress-perf/comp_perf_test_throughput.c:144-163 | at every loop head the subtraction does not wrap, the pool never runs dry, and the buffers asked for exist |
| CarryOver.SubmitKeeps | dpdk-25.11/app/test-compress-perf/comp_perf_test_throughput.c:198-213 | the device taking any prefix keeps the invariant |
| CarryOver.CollectKeeps | dpdk-25.11/app/test-compress-perf/comp_perf_test_throughput.c:215-219 | the device handing back any operations keeps the invariant |
| CarryOver.DequeuedIsSeparate | dpdk-25.11/app/test-compress-perf/comp_perf_test_throughput.c:215-219 | operations handed back are distinct, for distinct buffers, and neither held nor in flight |
| CarryOver.RecycleKeeps | dpdk-25.11/app/test-compress-perf/comp_perf_test_throughput.c:249-251 | recycling keeps the invariant |
| CarryOver.OutstandingBound | dpdk-25.11/app/test-compress-perf/comp_perf_test_throughput.c:71-81 | what is outstanding never exceeds total_bufs less what was recycled, so the two halves of ops[] suffice |
| CarryOver.IterationEnd | dpdk-25.11/app/test-compress-perf/comp_perf_test_throughput.c:254-306 | after the drain nothing is outstanding, the pool has everything, every buffer was completed exactly once |
| CarryOver.RunsKeep | dpdk-25.11/app/test-compress-perf/comp_perf_test_throughput.c:132-307 | every state of every run keeps the invariant |
| CarryOver.HandedInOrder | dpdk-25.11/app/test-compress-perf/comp_perf_test_throughput.c:141-213 | over every run the buffers handed to the device are consecutive, in order, each once |
| CarryOver.StartHolds | dpdk-25.11/app/test-compress-perf/comp_perf_test_throughput.c:133-139 | the invariant holds at the start |
| Mbuf.Read | dpdk-25.11/app/test-compress-perf/comp_perf_test_verify.c:277-285 | refused exactly past both the packet length and the first segment; otherwise the first bytes of the chain |
| Mbuf.ResetLengths | dpdk-25.11/app/test-compress-perf/comp_perf_test_verify.c:204-208 | packet length and data lengths reset, storage unchanged |
| Mbuf.FixLengths | dpdk-25.11/app/test-compress-perf/comp_perf_test_verify.c:302-315 | the packet is the first `produced` bytes, the leading segments add up to it, segments behind keep their length |
| Mbuf.FillFlat | dpdk-25.11/app/test-compress-perf/comp_perf_test_verify.c:277-293 | data written front to back is what a reader of the chain sees first |
| PrepareBufs.FindBufSize | dpdk-25.11/app/test-compress-perf/comp_perf_test_common.c:57-78 | the power of two above the segment size and at most twice it, or 1.1 times the size; with headroom it fits 16 bits |
| PrepareBufs.BufSizeUnique | dpdk-25.11/app/test-compress-perf/comp_perf_test_common.c:57-78 | there is exactly one such size |
| PrepareBufs.PiecesConcat | dpdk-25.11/app/test-compress-perf/comp_perf_test_common.c:379-549 | cutting loses nothing |
| PrepareBufs.PiecesShape | dpdk-25.11/app/test-compress-perf/comp_perf_test_common.c:240-242 | all pieces but the last are full, none is empty, and there are as many as counting blocks says |
| PrepareBufs.AddSegment | dpdk-25.11/app/test-compress-perf/comp_perf_test_common.c:381-466 | one more segment carries the next piece; the allocation succeeds |
| PrepareBufs.FillChain | dpdk-25.11/app/test-compress-perf/comp_perf_test_common.c:380-466 | a chain of at most max_sgl_segs segments carries the next chunk, cut into full segments but the last |
| PrepareBufs.BlankChain | dpdk-25.11/app/test-compress-perf/comp_perf_test_common.c:468-548 | an output chain with as many segments, room appended |
| PrepareBufs.MemResources.constructor | dpdk-25.11/app/test-compress-perf/comp_perf_test_common.c:225-364 | segment and buffer counts are the rounded-up divisions, each pool holds exactly total_segs |
| PrepareBufs.MemResources.PrepareChain | dpdk-25.11/app/test-compress-perf/comp_perf_test_common.c:379-549 | one round: both chains built, the pools drop by as many segments |
| PrepareBufs.MemResources.PrepareCompress | dpdk-25.11/app/test-compress-perf/comp_perf_test_common.c:366-555 | never fails, uses both pools up exactly, and the chains carry the input cut into chunks |
| PrepareBufs.MemResources.PrepareDecompressOnly | dpdk-25.11/app/test-compress-perf/comp_perf_test_common.c:366-555 | one chain holds the whole input given the size check of main.c:286-292, its output chain has max_sgl_segs segments |
| Common.DivCeilCountsBlocks | dpdk-25.11/app/test-compress-perf/comp_perf_test_common.c:18 | DIV_CEIL counts the blocks that cover a size |
| Burst.OpPool.GetBulk | dpdk-25.11/app/test-compress-perf/comp_perf_test_common.c:302-304 | all or nothing; what is taken plus what is left is what there was |
| Burst.Device.EnqueueBurst | dpdk-25.11/app/test-compress-perf/comp_perf_test_verify.c:236-238 | any prefix may be accepted |
| Burst.Device.DequeueBurst | dpdk-25.11/app/test-compress-perf/comp_perf_test_verify.c:253-256 | any operations in flight may come back, in order only if the device keeps order |
| CryptoCarryOver.FetchClear | dpdk-25.11/app/test-crypto-perf/cperf_test_throughput.c:244-284 | bursts never grow while something is left over: ops_needed does not wrap and ends before the first operation left over |
| CryptoCarryOver.FetchFails | dpdk-25.11/app/test-crypto-perf/cperf_test_throughput.c:254-263 | the pool runs dry only if it is smaller than total_ops |
| CryptoCarryOver.WindowDistinct | dpdk-25.11/app/test-crypto-perf/cperf_test_throughput.c:278-284 | the enqueued window consists of pairwise distinct operations, none in the pool or the device |
| CryptoCarryOver.SubmitKeeps | dpdk-25.11/app/test-crypto-perf/cperf_test_throughput.c:298-309 | accepting any prefix of the window keeps conservation and the counters |
| CryptoCarryOver.CollectKeeps | dpdk-25.11/app/test-crypto-perf/cperf_test_throughput.c:312-321 | handing back any operations keeps them |
| CryptoCarryOver.RunEnds | dpdk-25.11/app/test-crypto-perf/cperf_test_throughput.c:333-349 | once all are dequeued all were enqueued and the pool has everything |
| CryptoCarryOver.RunsKeep | dpdk-25.11/app/test-crypto-perf/cperf_test_throughput.c:244-349 | every state of every run keeps the invariant |
| CryptoCarryOver.BurstLoop.Fetch | dpdk-25.11/app/test-crypto-perf/cperf_test_throughput.c:254-263 | fetching into the front leaves the operations left over untouched |
| CryptoCarryOver.BurstLoop.MoveUp | dpdk-25.11/app/test-crypto-perf/cperf_test_throughput.c:278-284 | afterwards the window is the fetched operations followed by those left over |
| CryptoCarryOver.BurstLoop.Refill | dpdk-25.11/app/test-crypto-perf/cperf_test_throughput.c:246-284 | get-before-move: the window is distinct, nothing overwritten, failing only for a pool smaller than total_ops |
| CryptoCarryOver.BurstLoop.Submit | dpdk-25.11/app/test-crypto-perf/cperf_test_throughput.c:298-309 | keeps the invariant and counts what was enqueued |
| CryptoCarryOver.BurstLoop.Poll | dpdk-25.11/app/test-crypto-perf/cperf_test_throughput.c:312-314 | any operations in flight, into ops_processed[] |
| CryptoCarryOver.BurstLoop.Release | dpdk-25.11/app/test-crypto-perf/cperf_test_throughput.c:316-321 | what was dequeued goes back to the pool, once |
| CryptoCarryOver.BurstLoop.Run | dpdk-25.11/app/test-crypto-perf/cperf_test_throughput.c:234-349 | one burst size: ends with exactly total_ops enqueued and dequeued, on the counters and through the device, and all operations in the pool; every enqueue asks for min(burst, total_ops less those taken so far), every dequeue for the burst, in turn, as long as not all have come back; the pool suffices if it has total_ops |
| CryptoCarryOver.BurstLoop.Round | dpdk-25.11/app/test-crypto-perf/cperf_test_throughput.c:246-321 | one round of the first loop, and what it asks of the device |
| CryptoCarryOver.BurstLoop.Last | dpdk-25.11/app/test-crypto-perf/cperf_test_throughput.c:333-349 | one round of the second loop: a flush and a dequeue |
| Pacing.RoundInStep | dpdk-25.11/app/test-crypto-perf/cperf_test_throughput.c:246-314 | a round keeps the pace of the bursts |
| CryptoCarryOver.ThroughputRunner | dpdk-25.11/app/test-crypto-perf/cperf_test_throughput.c:234-421 | every configured burst size is run, in order: what the device was asked for falls into consecutive parts, the i-th a complete run of total_ops operations in bursts of the i-th size, the one its row reports |
| CryptoCarryOver.StepsAre | dpdk-25.11/app/test-crypto-perf/cperf_test_throughput.c:410-417 | a size range runs over min + n * inc as far as max |
| CryptoVerify.VerifyOp | dpdk-25.11/app/test-crypto-perf/cperf_test_verify.c:116-217 | passes exactly when the status is success and the flattened chain starts with the expected text and digest |
| CryptoVerify.Flatten | dpdk-25.11/app/test-crypto-perf/cperf_test_verify.c:133-161 | the buffer is the data of the segments one after the other |
| CryptoVerify.Runner | dpdk-25.11/app/test-crypto-perf/cperf_test_verify.c:261-378 | ops_failed is the number of operations, out of total_ops, that come back unsuccessful or wrong; pool as before; the device is asked in bursts of max_burst_size |
| CryptoVerify.NoFailures | dpdk-25.11/app/test-crypto-perf/cperf_test_verify.c:344-348 | it is 0 exactly when all are right |
| CryptoVerify.Drain | dpdk-25.11/app/test-crypto-perf/cperf_test_verify.c:330-352 | an empty dequeue changes nothing; otherwise each operation is checked once and released |
| CryptoDigest.FillFull | dpdk-25.11/app/test-crypto-perf/cperf_test_common.c:269-303 | data written to a chain appears at the front of the flattened chain, nothing else changes |
| CryptoDigest.FlatProcessed | dpdk-25.11/app/test-crypto-perf/cperf_test_verify.c:133-161 | what the test flattens: the text at the front, the digest where it was placed, every other byte as it was |
| CryptoDigest.WhatIsChecked | dpdk-25.11/app/test-crypto-perf/cperf_test_verify.c:164-212 | for every content of the chain and every digest written: the operation passes exactly when the c bytes behind the message are the first c of the digest looked for and the digest written begins with the others, c being how far the digest was pushed (at most its size) |
| CryptoDigest.CorrectDevicePasses | dpdk-25.11/app/test-crypto-perf/cperf_test_verify.c:164-212 | an operation with the right text and digest passes for every content of the rest of the chain if and only if the digest fits behind the message in its segment |
| CryptoDigest.WrongDigestFails | dpdk-25.11/app/test-crypto-perf/cperf_test_verify.c:164-212 | no wrong digest passes, whatever the chain holds, under exactly the same condition |
| CryptoDigest.CheckMisled | dpdk-25.11/app/test-crypto-perf/cperf_test_verify.c:211-212 | with 60-byte messages, 20-byte digests and 64-byte segments: on zeroed memory a right digest whose first byte is not zero is reported as failed, and for one that starts with four zero bytes a shifted one passes |
| CryptoDigest.ReadyAccepted | dpdk-25.11/app/test-crypto-perf/cperf_test_verify.c:291-300 | the same for a chain that cperf_mbuf_set has filled before |
| CryptoDigest.RunCorrectDevice | dpdk-25.11/app/test-crypto-perf/cperf_test_verify.c:261-378 | the whole verify test over a device that does everything right: no operation is counted as failed if the digest fits behind the message, and all of them are if it does not and the bytes left behind the messages are not those of the digest |
| CryptoLatency.LatencyTest.Register | dpdk-25.11/app/test-crypto-perf/cperf_test_latency.c:318-331 | every operation the device took gets the next slot, in order |
| CryptoLatency.LatencyTest.Stamp | dpdk-25.11/app/test-crypto-perf/cperf_test_latency.c:334-341 | every operation handed back stamps the slot of its own submission |
| CryptoLatency.LatencyTest.Enrol | dpdk-25.11/app/test-crypto-perf/cperf_test_latency.c:312-331 | operations not taken are back in the pool, those taken are in flight |
| CryptoLatency.LatencyTest.Finish | dpdk-25.11/app/test-crypto-perf/cperf_test_latency.c:333-350 | operations handed back are stamped, returned, and no longer in flight |
| CryptoLatency.LatencyTest.Settle | dpdk-25.11/app/test-crypto-perf/cperf_test_latency.c:312-350 | the order of the steps is right even for operations submitted and handed back in the same round |
| CryptoLatency.LatencyTest.Round | dpdk-25.11/app/test-crypto-perf/cperf_test_latency.c:249-357 | one round keeps all that: tsc_start is the last reading before the enqueue, tsc_end the first after the dequeue |
| CryptoLatency.LatencyTest.Drain | dpdk-25.11/app/test-crypto-perf/cperf_test_latency.c:360-387 | so does a dequeue once everything is submitted |
| CryptoLatency.RoundStamped | dpdk-25.11/app/test-crypto-perf/cperf_test_latency.c:289-310 | a reading, submissions, completions, a reading: each event has the reading that belongs to it |
| CryptoLatency.LatencyTest.Run | dpdk-25.11/app/test-crypto-perf/cperf_test_latency.c:247-387 | when all are done slot i holds the time stamps of the two ends of the i-th submission, the trace being what went through the device since the start (its own log), each submission stamped with the last clock reading before it and each completion with the first one after it; no latency is negative; pool as before; the pool suffices if it has total_ops; the device is asked in bursts of the size under test |
| CryptoLatency.LatencyTest.Statistics | dpdk-25.11/app/test-crypto-perf/cperf_test_latency.c:393-398 | minimum, maximum and total of the latencies, without underflow |
| CryptoLatency.EnterKeeps | dpdk-25.11/app/test-crypto-perf/cperf_test_latency.c:318-331 | a submission opens a slot for an operation not in flight |
| CryptoLatency.LeaveKeeps | dpdk-25.11/app/test-crypto-perf/cperf_test_latency.c:130-141 | a completion closes the slot of the submission it belongs to |
| CryptoLatency.AllPaired | dpdk-25.11/app/test-crypto-perf/cperf_test_latency.c:359-387 | with nothing in flight every submission is matched with its own completion |
| CryptoPmd.CycleCount.BenchOps | dpdk-25.11/app/test-crypto-perf/cperf_test_pmd_cyclecount.c:150-202 | allocating and freeing, for one fill, burst by burst, leaves the pool as it was |
| CryptoPmd.CycleCount.BenchAllOps | dpdk-25.11/app/test-crypto-perf/cperf_test_pmd_cyclecount.c:320-325 | so do all the fills of a run; the sizes allocated are those of the bursts |
| CryptoPmd.CycleCount.BuildOps | dpdk-25.11/app/test-crypto-perf/cperf_test_pmd_cyclecount.c:204-240 | the front of ops[] holds operations taken from the pool, allocated in bursts |
| CryptoPmd.CycleCount.BenchEnq | dpdk-25.11/app/test-crypto-perf/cperf_test_pmd_cyclecount.c:242-269 | the device takes a prefix, whole unless it refuses a burst outright |
| CryptoPmd.CycleCount.BenchDeq | dpdk-25.11/app/test-crypto-perf/cperf_test_pmd_cyclecount.c:271-293 | what was in the device comes back into the front, nothing behind it changes |
| CryptoPmd.CycleCount.EnqDeq | dpdk-25.11/app/test-crypto-perf/cperf_test_pmd_cyclecount.c:355-371 | filling and draining permutes the array |
| CryptoPmd.CycleCount.Fill | dpdk-25.11/app/test-crypto-perf/cperf_test_pmd_cyclecount.c:342-385 | however little the device takes, one bulk put returns every operation exactly once |
| CryptoPmd.CycleCount.BenchBurstSz | dpdk-25.11/app/test-crypto-perf/cperf_test_pmd_cyclecount.c:295-392 | ends with total_ops enqueued and dequeued, on the counters and through the device, and the pool as it was; what the device was asked for falls into fills: bursts offered until all of min(nb_descriptors, left) are taken or one is refused, then bursts asked back until all taken are |
| CryptoSegments.SegmentsHold | dpdk-25.11/app/test-crypto-perf/cperf_test_common.c:199-207 | the chain holds the largest buffer and its digest, and with one segment fewer would not |
| CryptoSegments.FitDevices | dpdk-25.11/app/test-crypto-perf/main.c:278-288 | after all devices have had their headroom and tailroom, what a segment has left is no less than the segment size that was compared with the digest, and the same for one device |
| CryptoSegments.PlaceDigest | dpdk-25.11/app/test-crypto-perf/cperf_ops.c:574-599 | the walk never leaves the chain; the digest lies in one segment, directly behind the message if it fits in the segment the message ends in, at the front of the next one otherwise |
| CryptoSegments.MbufSet | dpdk-25.11/app/test-crypto-perf/cperf_test_common.c:269-303 | the chain receives exactly the test data, front to back |
| CryptoSegments.FlatAt | dpdk-25.11/app/test-crypto-perf/cperf_test_verify.c:155-161 | bytes of a segment appear in the flattened chain at segment times segment length plus offset |
| OutputHook.HookNode.Process | dpdk-25.11/app/graph/ip4_output_hook.c:47-100 | for every starting guess and assignment: every edge gets exactly the packets assigned to it, in order, behind those it had; edges that had none and got some are scheduled once each; the remembered edge is the last packet's |
| OutputHook.RefinesPerPacket | dpdk-25.11/app/graph/ip4_output_hook.c:67-88 | the batch dispatch equals dispatching packet by packet |
| OutputHook.DispatchAssigns | dpdk-25.11/app/graph/ip4_output_hook.c:67-88 | packet-by-packet dispatch appends to each edge the packets assigned to it |
| OutputHook.DispatchConserves | dpdk-25.11/app/graph/ip4_output_hook.c:67-88 | no packet is lost or duplicated |
| OutputHook.AssignedHas | dpdk-25.11/app/graph/ip4_output_hook.c:67-88 | every packet of the burst is among those delivered to the edge assigned to it |
| OutputHook.HookNode.Miss | dpdk-25.11/app/graph/ip4_output_hook.c:75-84 | a wrong guess flushes the run guessed right and sends the packet to its own edge |
| OutputHook.HookNode.Land | dpdk-25.11/app/graph/ip4_output_hook.c:94-96 | the packets guessed right join the stream they were copied to |
| OutputHook.HookNode.Enqueue | dpdk-25.11/lib/graph/rte_graph_worker_common.h:309-346 | appends, growing the buffer if needed, and schedules a node that was empty |
| OutputHook.HookNode.StreamGet | dpdk-25.11/lib/graph/rte_graph_worker_common.h:460-472 | room behind the waiting packets, which stay |
| OutputHook.HookNode.StreamPut | dpdk-25.11/lib/graph/rte_graph_worker_common.h:490-502 | the packets written join the stream |
| OutputHook.HookNode.StreamMove | dpdk-25.11/lib/graph/rte_graph_worker_common.h:518-537 | an empty stream swaps buffers, otherwise the packets are appended: the same either way |
| Rss.KeywordIsWindow | dpdk-25.11/usertools/dpdk-rss-flows.py:92-101 | the keyword of bit j of byte i is the 32-bit window of the key at bit 8i + j |
| Rss.ToeplitzHash | dpdk-25.11/usertools/dpdk-rss-flows.py:84-105 | the hash is the XOR of the windows at the set bits; an index error (None) exactly when a set bit has no whole window |
| Rss.LongKeyCovers | dpdk-25.11/usertools/dpdk-rss-flows.py:84-105 | a key four bytes longer than the data is always long enough |
| Rss.HashLinear | dpdk-25.11/usertools/dpdk-rss-flows.py:84-105 | hash(a XOR b) = hash(a) XOR hash(b) for data of equal length and any key |
| Rss.HashConcat | dpdk-25.11/usertools/dpdk-rss-flows.py:39-44 | the hash of concatenated parts is the XOR of their hashes at their offsets |
| Rss.SymmetricKeys | dpdk-25.11/usertools/dpdk-rss-flows.py:32-44 | a packet and its reverse hash alike for all packets if and only if the windows of the key repeat over the addresses, and with ports over the ports |
| Rss.PeriodicKeys | dpdk-25.11/usertools/dpdk-rss-flows.py:195-211 | keys repeating after 32 bits are symmetric for addresses, after 16 bits with ports too |
| Rss.CnxkKey | dpdk-25.11/usertools/dpdk-rss-flows.py:195-211 | the cnxk key is symmetric for IPv4 and IPv6 addresses and, for both, not with ports |
| Rss.IntelKey | dpdk-25.11/usertools/dpdk-rss-flows.py:212-225 | the default key is not symmetric, for IPv4 or IPv6, with or without ports |
| Rss.KnownHashes | dpdk-25.11/app/test/test_thash.c:37-40 | the hashes of a known packet under the default key, without and with ports, are the published ones |
| RssFlows.GetQueueIndex | dpdk-25.11/usertools/dpdk-rss-flows.py:107-116 | None for too short a key; otherwise the hash masked with the table size less one, modulo the number of queues |
| RssFlows.MaskIsRemainder | dpdk-25.11/usertools/dpdk-rss-flows.py:114 | masking a number with a power of two less one is the remainder by that power |
| RssFlows.QueueIs | dpdk-25.11/usertools/dpdk-rss-flows.py:107-116 | the queue is the hash modulo the table size, modulo the number of queues |
| RssFlows.LowBitsDecide | dpdk-25.11/usertools/dpdk-rss-flows.py:114-116 | packets whose hashes agree modulo the table size share a queue; a hash below the table size is the index |
| RssFlows.SameQueue | dpdk-25.11/usertools/dpdk-rss-flows.py:107-116 | with a symmetric key a packet and its reverse share a queue |
| RssFlows.FairShare | dpdk-25.11/usertools/dpdk-rss-flows.py:80 | every queue owns the floor or the ceiling of its share of the table |
| RssFlows.EveryQueueOwns | dpdk-25.11/usertools/dpdk-rss-flows.py:80 | and at least one entry when the table is no smaller than the number of queues |
| RssFlows.BalancedTraffic | dpdk-25.11/usertools/dpdk-rss-flows.py:119-152 | the greedy choice; without all-flows no two flows share a queue, nor a reverse queue if that is checked, and every packet left out lands where a flow chosen before it does; the queues of a flow are those of its packet and of the packet reversed |
| RssFlows.GreedyTraffic | dpdk-25.11/usertools/dpdk-rss-flows.py:119-152 | with or without the reverse check: the flows are those of an increasing sequence of packets, and every packet of the template outside it, behind the stop as well, collides with a flow chosen earlier |
| RssFlows.NothingToAdd | dpdk-25.11/usertools/dpdk-rss-flows.py:132-146 | so every packet of the template lands where one of the flows chosen does |
| RssFlows.BalancedFirsts | dpdk-25.11/usertools/dpdk-rss-flows.py:119-152 | without the reverse check it is exactly the first packet of every queue reached, in template order |
| RssFlows.NoMoreFirsts | dpdk-25.11/usertools/dpdk-rss-flows.py:150-152 | stopping when all queues are filled loses none |
| RssFlows.AllFlows | dpdk-25.11/usertools/dpdk-rss-flows.py:128-148 | with all flows wanted every packet is listed |
| DmaCopy.Worker.PlainMemCopy | dpdk-25.11/app/test-dma-perf/benchmark.c:357-400 | every pass issues every copy once in order; returns 0 exactly when nothing is in flight any more, every destination then being equal to its source; 0 must be returned if ring size and stalls are within the number of polls; no more than kick_batch copies ever wait to be submitted |
| DmaCopy.Worker.SubmitAndPoll | dpdk-25.11/app/test-dma-perf/benchmark.c:302-315 | async_cnt does not underflow; total_cpl is what was issued less what is in flight, in 32 bits |
| DmaCopy.Worker.Issue | dpdk-25.11/app/test-dma-perf/benchmark.c:378-392 | a copy is retried until the ring takes it, and issued once |
| DmaCopy.Worker.IssueAndKick | dpdk-25.11/app/test-dma-perf/benchmark.c:378-392 | a copy and, when the count in flight is a multiple of kick_batch, the doorbell: never more than kick_batch copies wait |
| DmaCopy.Worker.SubmitAndWaitCpl | dpdk-25.11/app/test-dma-perf/benchmark.c:317-354 | 0 exactly when all is completed, which is so whenever what is in flight and the stalls of the channel are together within the number of polls |
| DmaSg.AlignDivides | dpdk-25.11/app/test-dma-perf/benchmark.c:721-747 | source, destination and buffer counts are the same number of groups for every worker |
| DmaSg.CountsFill | dpdk-25.11/app/test-dma-perf/benchmark.c:726-741 | source and destination of all buffers fit the memory, and with one more block of nb_src * nb_dst buffers for every worker they would not |
| DmaSg.WorkerSlice | dpdk-25.11/app/test-dma-perf/benchmark.c:943-971 | a worker's slices stay in bounds, start on a group, and hold as many groups on both sides as its copy loop runs |
| DmaSg.SlicesDisjoint | dpdk-25.11/app/test-dma-perf/benchmark.c:943-971 | slices of different workers do not meet |
| DmaSg.SgMemCopy | dpdk-25.11/app/test-dma-perf/benchmark.c:403-450 | every pass hands over every entry of the slice once, in order, on both sides and for the same group, however often the ring is full; returns 0 exactly when nothing is in flight any more, every group then being copied; 0 must be returned if ring size and stalls are within the number of polls; no more than kick_batch groups ever wait to be submitted |
| DmaSg.SgPass | dpdk-25.11/app/test-dma-perf/benchmark.c:424-444 | one pass hands over every entry of the slice once, in order, on both sides; i and j advance together although a full ring is tried again |
| DmaSg.SetLengths | dpdk-25.11/app/test-dma-perf/benchmark.c:641-654 | the length of every entry |
| DmaSg.GroupLen | dpdk-25.11/app/test-dma-perf/benchmark.c:641-654 | the lengths of a group add up to the buffer size |
| AclPrefix.SplitPrefix | dpdk-25.11/app/test-acl/main.c:618-630 | the fields are the address cut up, each with its part of the prefix length; a length past the address is refused |
| AclPrefix.SplitSum | dpdk-25.11/app/test-acl/main.c:618-630 | the lengths add up to the prefix length |
| AclPrefix.SplitMatches | dpdk-25.11/app/test-acl/main.c:618-630 | agreeing on all fields is agreeing on the first m bits |
| AclPrefix.SameAddresses | dpdk-25.11/app/test-acl/main.c:660-672 | the 4-byte and the 8-byte layout accept exactly the same addresses |
| Conn.Connection.DataEventHandle | dpdk-25.11/app/graph/conn.c:40-68 | one read advances the framing by its bytes, without writing past msg_in |
| Conn.FeedConcat | dpdk-25.11/app/graph/conn.c:40-68 | two reads are one read of both |
| Conn.ChunksDoNotMatter | dpdk-25.11/app/graph/conn.c:40-68 | however the stream is cut into reads, the outcome is that of the whole stream |
| Conn.LineForm | dpdk-25.11/app/graph/conn.c:58-67 | of a line of n bytes the last n mod (msg_in_len_max + 1) are pending, and it overflowed n / (msg_in_len_max + 1) times |
| Conn.KeptWhole | dpdk-25.11/app/graph/conn.c:58-67 | a line is delivered whole, and nothing is said, if and only if it has at most msg_in_len_max bytes |
| Conn.LinesWhole | dpdk-25.11/app/graph/conn.c:40-68 | the messages delivered are the lines sent if and only if no line is longer |
| Conn.OneTooMany | dpdk-25.11/app/graph/conn.c:58-67 | a line of msg_in_len_max + 1 bytes is answered once and then delivered as an empty message |
| Conn.StreamForm | dpdk-25.11/app/graph/conn.c:40-68 | what any stream delivers, line by line, what is pending, and how often the client is told |
| Conn.EveryStream | dpdk-25.11/app/graph/conn.c:40-68 | every stream is some lines and the beginning of another |

## Left out

- Error and abort exits of the burst loops: user stop, device error counters, statuses other than success and out of space, failed allocations outside the pools. Nothing is claimed about the state they leave; in particular the `goto end` of the compression tests puts back the first `allocated` entries of ops[], which need not be the outstanding operations.
- Mbuf.FixLengths: does not claim anything about segments behind the produced data except that they keep their length, because that is what the code does.
- VerifyRunner.Runner: asks that the restored chunks that fit their chains are together no longer than the input, provided the compressed ones fit, because decompressed_data has that size and the code does not check; VerifyRunner.VerifyTest likewise.
- CompressPerfRunner.PerfTest: prepares the chains afresh for each loop and covers the compress direction; what the verify test left in them is reset before every operation.
- VerifyRunner.DecompressOnlyTest: covers the verify test only; the performance tests use seg_sz instead of out_seg_sz for the output chains of that mode.
- CompressPerf.MainLoop: settles lengths after all statuses of a burst were found good; the code settles those before a failing one as well, which only shows on the abort exit.
- CompressPerf.Round: models the cut of the dequeue limit to 16 bits; elsewhere 16-bit and 32-bit counters are taken not to wrap.
- Segment chains and operation memory are values held in sequences, indexed as the pointers are; chains sharing storage are not modelled. The destination buffers of the two calls of the verify test are passed as values and returned.
- External buffers and memory zones, dictionaries, window sizes, checksums (the UDC header byte) and the float in find_buf_size, which is 11/10 rounded down here.
- cperf_cyclecount_op_setup, which runs the set-up without a device, and all timing, printing and rate arithmetic.
- populate_ops beyond the digest: sessions, initialisation vectors, imix sizes; the single operation that checks the device at the start of the crypto tests, and the empty enqueues that warm it up.
- CryptoVerify.Runner: takes what the i-th operation handed back holds as a function of i, any function, instead of modelling the cipher; that the data compared is there to be read is a precondition. CryptoDigest.RunCorrectDevice instantiates it with a device that writes the expected text and digest.
- CryptoSegments.PlaceDigest: usable segment lengths fit the 16 bits of an mbuf data length; longer ones, which option parsing lets through, are cut by the code and not modelled.
- CryptoDigest.RunCorrectDevice: in-place operations. Authentication before encryption, where the cipher also runs over the digest_sz bytes behind the message, is modelled faithfully only where the digest fits there.
- CryptoLatency.LatencyTest.Run: leaves out the statuses of operations, on whose failure the test returns before the statistics.
- Out-of-place destination layout of the crypto tests, linearisation, asymmetric operations.
- CryptoCarryOver.BurstLoop.Run: the operations fetched go before those left over, so operations need not be submitted in the order they were fetched; the source does not promise more.
- OutputHook.HookNode.Process: next nodes are told apart by edge; two edges leading to one node are not modelled, nor are stream sizes near 16 bits. Buffers are sequences, so the swap of stream_move is of values. The feature arc lookup is a parameter.
- RssFlows.BalancedTraffic: takes a key long enough for the template and a table of a power of two entries, at least one for every queue, which option parsing demands; enumerating hosts and ports is left out.
- DmaCopy.Worker.PlainMemCopy: the number of passes is a parameter, standing for when the stop flag is seen; other errors than a full ring end the process and are left out, and so is the wait for the channel to become idle before the last polls.
- The enqueue/dequeue variant of the DMA test, verify_data in scatter-gather mode, and device-to-memory transfers.
- AclPrefix.SplitPrefix: takes the address as bits in network order, after parsing; rule building and classification are not part of this model.
- Conn.Connection.DataEventHandle: leaves out what is written to the client: replies, prompts and failing writes.
- Option parsing, sockets, signals, EAL start-up, route and neighbour tables, dump tools and scripts other than the RSS one.
