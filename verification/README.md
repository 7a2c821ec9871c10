# LSVMI in Dafny

Linux Stats VictoriaMetrics Importer (LSVMI) collects metrics periodically: a scheduler runs generators, generators
emit deltas, compressors batch them and a pool of HTTP endpoints ships them, at a limited rate. This project models
these components and proves what holds in all their runs.

Mutex sections are atomic steps, channels bounded sequences, times integers. Clock readings, timer firings, network
replies and the files read are arbitrary inputs. Code that updates state in place is modelled by classes and methods
with loops; each is tied by its contract to functions on values, and the laws are proved of those, for every input,
every run or every interleaving.

| file | what it models |
|---|---|
| `pid_scan.dfy` | a scan of the PID/TID cache on values, with one least recently used list: pruning, accounts of the emitted deltas |
| `pid_order.dfy` | how the cached entries are linked whatever was read: chains, with head and tail at ends of chains |
| `pid_store.dfy` | scans on such chains: every run, pruning, accounts |
| `pid_sound.dfy` | as long as no stranded PID is read the chains show the one list of `pid_scan.dfy` |
| `pid_lost.dfy` | what reading a stranded PID does, and a run in which it crashes the generator |
| `pid_cache.dfy` | the cache itself: the map, the doubly linked nodes and the parsers that change places |
| `endpoint_list.dfy` | the doubly linked list of healthy endpoints |
| `endpoint_pool.dfy` | the health state machine of the endpoints |
| `endpoint_sender.dfy` | retries, load balancing, and every interleaving of pool operations |
| `compressor.dfy` | N compressors draining one channel: conservation in every interleaving |
| `compressor_faults.dfy` | when a flush closes a missing writer or sends a batch twice |
| `compressor_loop.dfy` | the loop of one compressor, and its share of every interleaving |
| `task_heap.dfy` | the heap of tasks by deadline, as `container/heap` keeps it |
| `deadlines.dfy` | intervals and next deadlines |
| `scheduler.dfy` | dispatcher, timer, queues and workers as a transition system |
| `scheduler_bound.dfy` | a run that blocks dispatcher and workers for good |
| `net_snmp.dfy` | the `/proc/net/snmp` parser with its line cache, and a reference parser without one |
| `net_snmp_format.dfy` | a writer of the format; parsing what it wrote; transparency of the cache |
| `pid_cmdline.dfy` | escaping and truncation of command lines |
| `net_dev.dfy` | the delta codec of the network device metrics |
| `credit.dfy`, `credit_reader.dfy` | the rate limiter and the request body it drives |
| `byte_count.dfy` | the printed byte count that counts its own digits |
| `common.dfy`, `arithmetic.dfy` | shared values, and facts about products and remainders |

## What turned out false

Each of these has a lemma or a contract with the exact condition.

- The prune loop reads through a nil `next` if and only if, after the readings, there is an entry at the head and no
  fresh one in the chain that starts there (`PidStore.LoopFaultsExactlyWhen`, `PidCache.PidMetrics.Prune`). In a scan
  that reads no stranded PID that is: a cached PID is gone and no listed one is kept
  (`PidSound.CrashesExactlyWhen`, `PidScan.PruneFaultsExactlyWhen`, `PidScan.PruneFaultExample`).
- A reused PID whose status or command line cannot be read is stranded: its old entry stays in the map but off the list
  (`PidScan.StrandsExactlyWhen`, `PidScan.StrandingExample`). Reading an entry that is alone in its chain, as a stranded
  one is, and only that, loses head and tail (`PidOrder.ListLostExactlyWhen`, `PidLost.StrayTakesOver`). The entries of
  a lost list stay linked to each other; reading the first of them puts the others at the head of the new list
  (`PidOrder.HeadMovesExactlyWhen`, `PidLost.RestTakesTheHead`). A scan can then crash the generator although every
  listed PID is read and kept (`PidLost.FaultsThoughAllAreKept`, `PidLost.LostListExample`). A scan reads no stranded
  PID if and only if none of its PIDs, listed once each, was stranded before (`PidScan.ReadsNoStrayExactlyWhen`).
- Pruning deletes what a sweep of the map would if and only if no stale entry is behind a fresh one in the chain at the
  head and none is in another chain (`PidStore.PruneIsSweepExactlyWhen`).
- List insertion keeps the list well linked if and only if it is at the tail (`EndpointList.LinkedEndpoints.Insert`).
- An endpoint can be handed out after shutdown: if and only if its user was already waiting and one is listed then
  (`EndpointPool.Pool.Look`, `EndpointSender.OvertakenByShutdown`).
- Sending a buffer can go on without end, past its timeout, which is looked at only while no endpoint is listed. With
  nobody else at work it ends, within as many attempts as the listed endpoints can take errors, whatever the replies and
  the clock, if and only if there is no error reset, or every listed endpoint has threshold 1, or the pool is shut down
  (`EndpointSender.SendBuffer`, `EndpointSender.SendForever`).
- The dispatcher and all N workers can block each other for good if and only if there are more than 128 + N tasks
  (`SchedulerBound.DeadlockExactlyWhen`, `SchedulerBound.BlockedForGood`).
- A compressor can close a writer it never created. Without write errors it does so in some run if and only if the batch
  target size is not positive; so it does with write errors if all batches compress
  (`CompressorFaults.FaultFreeExactlyWhen`). With write errors and a batch that does not compress a positive target can
  fault too (`CompressorFaults.WriteErrorFaults`); in general, if and only if a read limit is not positive
  (`CompressorFaults.FaultExactlyWhen`).
- A compressor can send a batch twice, without any write error, if and only if a read limit is not positive, which takes
  a batch that does not compress or a target that is not positive (`CompressorFaults.ResendExactlyWhen`,
  `CompressorFaults.EmptyBufferResends`, `CompressorFaults.RunNeverFaults`).
- A device that is gone is forgotten and reported absent in a scan if and only if more devices are then known than
  present (`NetDev.AbsentDroppedExactlyWhen`, `NetDev.KeptAlthoughAbsent`).
- Initial cycle numbers drawn in a row can coincide, at the rollover of their counter (`NetDev.DrawsCollideExactlyWhen`,
  `NetDev.RolloverExample`).
- A credit request is served by replenishment alone if and only if there is enough already, or the replenish value is
  positive and a cap, if any, is no less than the least it accepts (`Credit.ServedExactlyWhen`,
  `Credit.NothingToServeExample`).
- The byte count is not always unique: `ByteCount.OtherCountsExactlyWhen` says when there is another one, and
  `ByteCount.TwoCountsExample` names one. The code writes the least.

## Model

| member | source | states |
|---|---|---|
| `PidOrder.SplicedLinksOf` | lsvmi/proc_pid_metrics.go:1211-1223 | taking an entry off, its links trusted, is bridging the links around it, in whatever chain it is: the links stay those of disjoint chains of all other entries, head and tail ends of chains |
| `PidOrder.AppendedLinksOf` | lsvmi/proc_pid_metrics.go:1338-1345 | adding an entry behind the tail extends the chain of the tail, or starts one |
| `PidOrder.ListLostExactlyWhen` | lsvmi/proc_pid_metrics.go:1211-1223 | head and tail are both lost if and only if the entry taken off is alone in its chain |
| `PidOrder.HeadMovesExactlyWhen` | lsvmi/proc_pid_metrics.go:1217-1221 | taking an entry off another chain moves the head there if and only if it is the first of that chain |
| `PidStore.ReadOneStocked` | lsvmi/proc_pid_metrics.go:1198-1354 | one reading, whatever is cached and read, keeps every mapped entry in one place of one chain and the size as counted |
| `PidStore.ReadAllKeeps` | lsvmi/proc_pid_metrics.go:1198-1354 | so does every listing, which also keeps first generated counter plus emitted deltas equal to the cached counter modulo 2^64 for every mapped entry |
| `PidStore.LoopFaultsExactlyWhen` | lsvmi/proc_pid_metrics.go:1357-1366 | the prune loop faults if and only if the chain at the head is not empty and has no fresh entry |
| `PidStore.LoopDrops` | lsvmi/proc_pid_metrics.go:1357-1366 | else it deletes the stale entries before the first fresh one of that chain and nothing else |
| `PidStore.PruneIsSweepExactlyWhen` | lsvmi/proc_pid_metrics.go:1357-1366 | it deletes what a sweep of the map would if and only if no stale entry is behind a fresh one there or in another chain |
| `PidStore.ExecuteKeeps` | lsvmi/proc_pid_metrics.go:1182-1366 | a whole scan, whatever it reads: when it crashes, which entries are left, and that counters and size stay accounted for |
| `PidStore.EveryRunIsAccounted` | lsvmi/proc_pid_metrics.go:1163-1402 | in every run of scans, also those that read stranded PIDs, all mapped entries are in chains and every cached counter is accounted for by what was emitted |
| `PidSound.ReadOneShows` | lsvmi/proc_pid_metrics.go:1198-1354 | a reading of a PID that is not stranded does to the chains what the value level does to its one list, and strands it exactly when the value level says |
| `PidSound.ReadAllShows` | lsvmi/proc_pid_metrics.go:1198-1354 | so does a listing that reads no stranded PID |
| `PidSound.PruneShows` | lsvmi/proc_pid_metrics.go:1357-1366 | on one list the prune loop faults exactly when all entries are stale and there is one, and else drops the stale prefix |
| `PidSound.ScanShows` | lsvmi/proc_pid_metrics.go:1163-1402 | a scan that reads no stranded PID crashes exactly when the value level says and else shows the value level cache |
| `PidSound.SoundRunShows` | lsvmi/proc_pid_metrics.go:1163-1402 | over every run of sound scans there is no crash, chains and value level agree and the cache is settled |
| `PidSound.CrashesExactlyWhen` | lsvmi/proc_pid_metrics.go:1357-1366 | told before the scan: one that reads no stranded PID crashes the generator if and only if a cached PID is gone and no listed one is kept |
| `PidLost.StrayTakesOver` | lsvmi/proc_pid_metrics.go:1206-1345 | a kept reading of an entry alone in its chain starts a list of its own, all other chains staying as they are |
| `PidLost.RestTakesTheHead` | lsvmi/proc_pid_metrics.go:1206-1345 | a kept reading of the first entry of a lost list puts the rest of that list at the head |
| `PidLost.FaultsThoughAllAreKept` | lsvmi/proc_pid_metrics.go:1206-1366 | a stranded PID and the first of the list are read and kept, the others gone: the prune loop faults with both fresh |
| `PidLost.LostListExample` | lsvmi/proc_pid_metrics.go:1163-1402 | three scans from an empty cache that end there |
| `PidScan.ScanAllInvariant` | lsvmi/proc_pid_metrics.go:1198-1354 | as long as no stranded PID is read: mid-scan the list is a stale prefix followed by a fresh suffix, each PID/TID is in it once, its size is the old one plus added minus deleted, and each counter in it is accounted for by what was emitted |
| `PidScan.ScanOneKeepsShape` | lsvmi/proc_pid_metrics.go:1211-1223 | one reading keeps the stale prefix, fresh suffix shape and the distinctness of the PIDs |
| `PidScan.ScanOneKeepsAccounts` | lsvmi/proc_pid_metrics.go:1244-1345 | one reading, whatever its outcome, keeps first generated counter plus emitted deltas equal to the cached counter modulo 2^64 |
| `PidScan.GeneratedIsAccounted` | lsvmi/proc_pid_metrics.go:894-908 | generating after any number of idle scans still accounts for the whole difference; a delta that is not emitted is zero |
| `PidScan.PruneIsSweep` | lsvmi/proc_pid_metrics.go:1357-1366 | on a stale prefix followed by a fresh suffix, dropping entries up to the first fresh one deletes exactly what a sweep would |
| `PidScan.ExecuteSettles` | lsvmi/proc_pid_metrics.go:1182-1366 | after a sound scan, which reads no stranded PID and does not fault, every entry is fresh, pruning equals sweeping, the size changes by added minus deleted and all counters are accounted for |
| `PidScan.RunSettles` | lsvmi/proc_pid_metrics.go:1163-1402 | the same over every run of sound scans from an empty cache: nothing is lost over skipped inactive scans |
| `PidScan.FateOf` | lsvmi/proc_pid_metrics.go:1198-1354 | without repeats in the listing, what happens to a PID depends only on its entry before the scan and its own reading |
| `PidScan.PruneFaultsExactlyWhen` | lsvmi/proc_pid_metrics.go:1357-1366 | in a scan that reads no stranded PID the prune loop faults if and only if a cached PID is gone and no listed one is kept, told from the cache before the scan |
| `PidScan.StrandsExactlyWhen` | lsvmi/proc_pid_metrics.go:1211-1309 | a scan strands exactly the PIDs that are cached with another start time and whose status or command line cannot be read, told from the cache before the scan |
| `PidScan.ReadsNoStrayExactlyWhen` | lsvmi/proc_pid_metrics.go:1206-1223 | a listing reads no stranded PID if and only if none of its PIDs was stranded before the scan |
| `PidScan.PruneFaultExample` | lsvmi/proc_pid_metrics.go:1357-1366 | one cached PID and then an empty listing make the prune loop fault |
| `PidScan.StrandingExample` | lsvmi/proc_pid_metrics.go:1244-1309 | a reused PID without a readable command line is stranded |
| `PidCache.PidMetrics.constructor` | lsvmi/proc_pid_metrics.go:186-217 | a new cache is empty, valid, and owns its scratch parser |
| `PidCache.PidMetrics.ParsersAreDistinct` | lsvmi/proc_pid_metrics.go:1321-1325 | the parser of any mapped entry, stranded or not, is neither the scratch parser nor that of another entry |
| `PidCache.PidMetrics.Splice` | lsvmi/proc_pid_metrics.go:1211-1223 | the pointer updates that take an entry off, whatever its links: its neighbours or the ends of the list take them over |
| `PidCache.PidMetrics.Unhook` | lsvmi/proc_pid_metrics.go:1211-1223 | with them the nodes stay linked as the bridged links say |
| `PidCache.PidMetrics.TakeOff` | lsvmi/proc_pid_metrics.go:1211-1223 | an entry leaves its chain, the map and all other entries staying as they are |
| `PidCache.PidMetrics.Hook` | lsvmi/proc_pid_metrics.go:1338-1345 | the pointer updates that put an entry behind the tail, or make it the list |
| `PidCache.PidMetrics.Attach` | lsvmi/proc_pid_metrics.go:1338-1345 | a loose, mapped entry goes behind the tail, all others staying as they are |
| `PidCache.PidMetrics.Lookup` | lsvmi/proc_pid_metrics.go:1206-1223 | finds the entry of a PID/TID through the map and takes it off its chain only |
| `PidCache.PidMetrics.InitInfo` | lsvmi/proc_pid_metrics.go:682-713 | a new entry with a parser of its own |
| `PidCache.PidMetrics.SwapParsers` | lsvmi/proc_pid_metrics.go:1321-1325 | the entry gets the current snapshot and the scratch slot the old parser, no other entry changing |
| `PidCache.PidMetrics.GenerateDeltas` | lsvmi/proc_pid_metrics.go:894-908 | the fault deltas emitted are those of the two snapshots, zero after zero skipped |
| `PidCache.PidMetrics.ScanKnownPid` | lsvmi/proc_pid_metrics.go:1262-1345 | a known PID is skipped, refreshed or dropped as the value level says, the cache staying valid |
| `PidCache.PidMetrics.ScanNewPid` | lsvmi/proc_pid_metrics.go:1252-1345 | a new incarnation is added as the value level says, or its old entry left behind in the map, off the list, if another parser fails |
| `PidCache.PidMetrics.ScanPid` | lsvmi/proc_pid_metrics.go:1198-1354 | one reading, whatever is cached and read, refines the value level on chains |
| `PidCache.PidMetrics.DropHead` | lsvmi/proc_pid_metrics.go:1358-1365 | the head leaves list and map, the chain going on from its successor |
| `PidCache.PidMetrics.Prune` | lsvmi/proc_pid_metrics.go:1357-1366 | faults if and only if the value level does, which is when the chain at the head has no fresh entry; else leaves list and map as the value level says |
| `PidCache.PidMetrics.Execute` | lsvmi/proc_pid_metrics.go:1163-1402 | a whole scan, whatever it reads, refines the value level scan on chains: links, map, counters and emitted deltas; it crashes if and only if that does |
| `PidCache.PidMetrics.RunScans` | lsvmi/proc_pid_metrics.go:1163-1402 | runs of scans, whatever they read, refine the value level run up to the first crash, with every cached counter accounted for |
| `EndpointList.LinkedEndpoints.Insert` | lsvmi/http_endpoint_pool.go:271-285 | forward links are as if inserted, and the list is well linked if and only if the place was the tail |
| `EndpointList.LinkedEndpoints.AddToTail` | lsvmi/http_endpoint_pool.go:306-308 | the list is the old one and the endpoint, well linked |
| `EndpointList.LinkedEndpoints.Remove` | lsvmi/http_endpoint_pool.go:287-300 | the list is the old one without the endpoint, well linked, the endpoint left without links |
| `EndpointPool.Pool.constructor` | lsvmi/http_endpoint_pool.go:517-545 | a new pool is valid and lists all configured endpoints, or the default one, in the configured or a shuffled order, each with the threshold in force |
| `EndpointPool.Pool.MoveToHealthy` | lsvmi/http_endpoint_pool.go:684-701 | returns an unlisted endpoint to the tail with no errors, state at head or healthy accordingly; nothing if healthy already |
| `EndpointPool.Pool.ReportError` | lsvmi/http_endpoint_pool.go:635-682 | a healthy endpoint counts one error more and goes to the tail, or off the list to its one health check at the threshold; the pool stays valid |
| `EndpointPool.Pool.RecordProbe` | lsvmi/http_endpoint_pool.go:587-628 | a probe changes its counters only |
| `EndpointPool.Pool.FinishCheck` | lsvmi/http_endpoint_pool.go:579-631 | a check that ends puts its endpoint back on the list once; the pool stays valid |
| `EndpointPool.Pool.SignOff` | lsvmi/http_endpoint_pool.go:632 | the wait group count stays the number of unfinished checkers |
| `EndpointPool.Pool.Look` | lsvmi/http_endpoint_pool.go:721-773 | a look under the lock, shut down or not: nil exactly if nothing is listed; else the head after at most one rotation, which happens when due and there are two or more |
| `EndpointPool.Pool.Enter` | lsvmi/http_endpoint_pool.go:705-725 | on entry also nil if shut down |
| `EndpointSender.GetCurrentHealthy` | lsvmi/http_endpoint_pool.go:705-773 | whatever happens in its pauses: nil exactly if shut down on entry or nothing is listed at any look; else a healthy endpoint at the head |
| `EndpointSender.OvertakenByShutdown` | lsvmi/http_endpoint_pool.go:710-735 | a caller that pauses while the pool is shut down is handed the endpoint of a cancelled check |
| `EndpointSender.Interleave` | lsvmi/http_endpoint_pool.go:550-884 | every interleaving of uses, resumed uses, send statistics, errors, probes, ends of checks and shutdown keeps the pool valid: list well linked, each endpoint listed once and healthy below its threshold or unlisted with one check due, states and wait group in agreement |
| `EndpointSender.SlackAfterError` | lsvmi/http_endpoint_pool.go:635-682 | one error on a listed endpoint lowers the sum of threshold minus errors by exactly 1, whether it stays listed or not |
| `EndpointSender.ValidPoolHasSlack` | lsvmi/http_endpoint_pool.go:635-682 | that sum is zero exactly when nothing is listed |
| `EndpointSender.Attempt` | lsvmi/http_endpoint_pool.go:799-857 | one attempt: statistics of its endpoint only; if no error is forgotten, slack lowered by 1 exactly if the reply is to be retried; an endpoint whose errors are forgotten stays listed |
| `EndpointSender.SendBuffer` | lsvmi/http_endpoint_pool.go:777-859 | attempts go on while replies are to be retried and an endpoint is listed; success exactly if the last attempt succeeded; attempt, byte and error counters agree with the attempts; it ends within the slack if there is no error reset or all listed thresholds are 1, and else goes on for any number of attempts, if they fail slowly enough |
| `EndpointSender.SendForever` | lsvmi/http_endpoint_pool.go:777-859 | one listed endpoint with a threshold above 1 and an error reset are enough: whatever the number of attempts, there is a clock with which they all fail and the send is still at it |
| `EndpointSender.TurnIsMod` | lsvmi/http_endpoint_pool.go:735-773 | the turns taken by rotation are the use number modulo the number of endpoints |
| `EndpointSender.ServeRoundRobin` | lsvmi/http_endpoint_pool.go:735-773 | with rotation interval 0 and no errors the m-th use of a fresh pool gets endpoint m mod n |
| `Compressor.RunKeepsInv` | lsvmi/compressor_pool.go:288-421 | in every interleaving of producers, N compressors, timers and flushes, for every configuration, compressed size and write error: buffers and read bytes are conserved and batches are whole buffers |
| `Compressor.ExactlyOnePlace` | lsvmi/compressor_pool.go:334-419 | in every run each non-empty queued buffer is in the channel or in exactly one of the open, sent and lost batches |
| `Compressor.FlushesWholeBuffersInOrder` | lsvmi/compressor_pool.go:384-419 | in every run a batch handed over that is not empty is whole buffers in read order, counted with their bytes |
| `Compressor.NothingLost` | lsvmi/compressor_pool.go:353-376 | without write errors no buffer is lost |
| `Compressor.DrainedIsAllSent` | lsvmi/compressor_pool.go:252-269 | without write errors, after close and drain each non-empty buffer was sent exactly once and the read byte counts add up to the queued bytes |
| `Compressor.ConvexUpdate` | lsvmi/compressor_pool.go:389-394 | the convex update keeps the compression factor at or above any lower bound shared by the estimate and the batch |
| `Compressor.RunKeepsLimits` | lsvmi/compressor_pool.go:389-394 | with a positive target size, read limits stay positive as long as batch factors are bounded below |
| `Compressor.RunKeepsTied` | lsvmi/compressor_pool.go:389-394 | in every run each read limit is the target size times the compression factor, truncated |
| `CompressorFaults.FaultFreeExactlyWhen` | lsvmi/compressor_pool.go:334-388 | over all runs without write errors, and over all runs with them whose batches compress, a missing writer is never closed if and only if the batch target size is positive |
| `CompressorFaults.RunNeverFaults` | lsvmi/compressor_pool.go:334-419 | with a positive target and batches that compress, no run has a fault or an empty batch, write errors or not |
| `CompressorFaults.FaultExactlyWhen` | lsvmi/compressor_pool.go:358-388 | with new batches too small to count for the compression factor and the channel open, a missing writer can be closed if and only if some read limit is not positive |
| `CompressorFaults.ResendExactlyWhen` | lsvmi/compressor_pool.go:376-419 | with new batches too small to count for the compression factor and no write errors, the gzip buffer of an earlier batch, whatever its size, can be sent again if and only if a loop with a flush to come has a read limit that is not positive |
| `CompressorFaults.WriteErrorFaults` | lsvmi/compressor_pool.go:358-388 | a batch of 128 bytes stored in 151 brings a limit of 1 to 0; a write error then closes a missing writer |
| `CompressorFaults.EmptyBufferResends` | lsvmi/compressor_pool.go:376-397 | after the same batch an empty buffer sends it a second time, all its 151 bytes |
| `CompressorFaults.ZeroTargetFaults` | lsvmi/compressor_pool.go:376-388 | without a positive target size, closing an idle pool closes a missing writer |
| `CompressorLoop.Loop` | lsvmi/compressor_pool.go:322-421 | the loop on its local variables computes the turns that `LoopIsProjection` finds in every interleaving |
| `CompressorLoop.LoopIsProjection` | lsvmi/compressor_pool.go:288-421 | in every interleaving, between flushes, the variables of each loop and the batches it sent are those of the loop alone on the wake-ups the interleaving gives it |
| `CompressorLoop.GzipBufferIsLastBatch` | lsvmi/compressor_pool.go:334-397 | what a flush without a batch sends is the batch the loop sent last |
| `CompressorLoop.EveryBatchHasItsLoop` | lsvmi/compressor_pool.go:384-419 | the batches of the pool are those its loops sent, each as often as they sent it |
| `TaskHeap.RootIsLeast` | lsvmi/scheduler.go:253-277 | the root of a heap has the least deadline |
| `TaskHeap.RootDeadline` | lsvmi/scheduler.go:331-336 | the deadline at the root is the same for every heap of the same tasks |
| `TaskHeap.Heap.Up` | lsvmi/scheduler.go:376 | sifting up restores the heap after an append, as a permutation |
| `TaskHeap.Heap.Down` | lsvmi/scheduler.go:419 | sifting down restores the heap after its root was replaced, as a permutation |
| `TaskHeap.Heap.Push` | lsvmi/scheduler.go:266-271 | the heap holds the old tasks and the new one |
| `TaskHeap.Heap.Pop` | lsvmi/scheduler.go:272-277 | returns a task of least deadline and keeps the others as a heap |
| `Deadlines.CompliantTaskInterval` | lsvmi/scheduler.go:282-291 | the nearest multiple of the granularity, halves up, no less than the minimum pause |
| `Deadlines.NextMultipleIsLeast` | lsvmi/scheduler.go:344-345 | truncating and adding one interval gives the least multiple that exceeds a time |
| `Deadlines.NextMultipleOfMax` | lsvmi/scheduler.go:345-357 | stepping by whole intervals past the previous deadline gives the least multiple that exceeds both |
| `Deadlines.NextDeadline` | lsvmi/scheduler.go:344-376 | the loop ends, with that least multiple raised to last execution plus the minimum pause |
| `Deadlines.ReaddedIsLater` | lsvmi/scheduler.go:344-376 | the new deadline exceeds the previous one whatever the clock reads |
| `Scheduler.StepKeepsInv` | lsvmi/scheduler.go:293-472 | every step of callers, dispatcher, timer and workers keeps the invariant |
| `Scheduler.RunKeepsInv` | lsvmi/scheduler.go:293-472 | in every reachable state each task is in exactly one place, the timer is armed for the heap minimum exactly if the heap is not empty, statistics and deadlines are in order |
| `Scheduler.NeverConcurrentWithItself` | lsvmi/scheduler.go:434-472 | a task that runs does so in one worker only and is in no queue, heap or hand, not returning, not to be added, not retired |
| `Scheduler.TimerFiresOnDueTask` | lsvmi/scheduler.go:417-420 | a firing timer pops a task, due at the armed deadline, the least there is |
| `Scheduler.ScheduledMinusExecuted` | lsvmi/scheduler.go:422-470 | scheduled minus executed is 0 or 1, and no statistics entry is missing when accessed |
| `Scheduler.DeadlinesIncrease` | lsvmi/scheduler.go:341-405 | the deadlines given to a task over a run strictly increase |
| `Scheduler.TasksOnTheMove` | lsvmi/scheduler.go:75-82 | tasks in queues and hands are no more than all tasks |
| `Scheduler.NoDeadlock` | lsvmi/scheduler.go:422-472 | with at most 128 + N tasks the dispatcher and all N workers are never blocked at once |
| `SchedulerBound.DeadlockExactlyWhen` | lsvmi/scheduler.go:422-472 | a run in which the dispatcher and all N workers are blocked at once exists if and only if there are more than 128 + N tasks |
| `SchedulerBound.BlockedForGood` | lsvmi/scheduler.go:422-472 | then no step is possible any more |
| `Scheduler.NoSendBlocks` | lsvmi/scheduler.go:422-472 | with at most 64 tasks no send blocks |
| `Scheduler.Dispatch` | lsvmi/scheduler.go:341-415 | the handling of a task at a clock reading is that step of the transition system which the task and the reading call for |
| `Scheduler.Shelve` | lsvmi/scheduler.go:374-405 | pushing, cancelling and arming the timer is a step of the transition system |
| `Scheduler.OnTimer` | lsvmi/scheduler.go:417-420 | popping on a timer is a step of the transition system |
| `NetSnmp.Parser.constructor` | procfs/net_snmp_parser.go:265-271 | a new parser has zero values and nothing cached |
| `NetSnmp.Parser.UpdateInfo` | procfs/net_snmp_parser.go:273-284 | the cache of another parser is copied and stays true to its lines |
| `NetSnmp.ParseNumber` | procfs/net_snmp_parser.go:424-437 | reads digits modulo 2^32 up to white space or line end, or fails, as the reference does |
| `NetSnmp.Parser.ReadValues` | procfs/net_snmp_parser.go:411-455 | stores the values of a line as the reference does, up to the failing one on error |
| `NetSnmp.Parser.ReadValuesLine` | procfs/net_snmp_parser.go:399-474 | prefix, values and end of line, as the reference does |
| `NetSnmp.Parser.BuildInfo` | procfs/net_snmp_parser.go:298-326 | learns prefix and index map of a names line, or fails, as specified |
| `NetSnmp.Parser.ReadNamesLine` | procfs/net_snmp_parser.go:349-395 | whatever is cached, the information used is that of the line itself, and what is cached stays true to its own lines |
| `NetSnmp.Parser.Parse` | procfs/net_snmp_parser.go:328-478 | from any true cache, values and success are those of the reference parser, and the cache stays true even on error |
| `NetSnmpFormat.ScanDigits` | procfs/net_snmp_parser.go:424-428 | digits are read as their decimal value modulo 2^32 |
| `NetSnmpFormat.ValuesLineParses` | procfs/net_snmp_parser.go:399-474 | a written values line stores each value under the index of its name |
| `NetSnmpFormat.NamesLineBuilds` | procfs/net_snmp_parser.go:298-326 | a written names line gives its protocol prefix and the index of each known name |
| `NetSnmpFormat.RoundTrip` | procfs/net_snmp_parser.go:328-478 | parsing a written file succeeds and stores its values one after the other |
| `NetSnmpFormat.WrittenIsRead` | procfs/net_snmp_parser.go:328-478 | parsing a written file gives, for every known name that comes last for its value, the value written, modulo 2^32 |
| `NetSnmpFormat.UnwrittenIsKept` | procfs/net_snmp_parser.go:328-478 | parsing a written file keeps every value that no name in the file stands for |
| `NetSnmpFormat.LastStoredWins` | procfs/net_snmp_parser.go:438-454 | a known value not overwritten later is the written one modulo 2^32 |
| `NetSnmpFormat.NotStoredIsKept` | procfs/net_snmp_parser.go:438-454 | a value no name of which was in the file is kept |
| `NetSnmpFormat.CacheIsTransparent` | procfs/net_snmp_parser.go:328-478 | a parser with any true cache and one with none give the same values and the same success on every input |
| `PidCmdline.UnescapeOfEscape` | procfs/pid_cmdline_parser.go:15-20 | decoding an escaped text restores it, NULs read as spaces, and it has no raw newline, bare quote or stray backslash |
| `PidCmdline.LabelsRestoreCmdline` | procfs/pid_cmdline_parser.go:97-132 | decoding command path, space and arguments restores every byte, NULs read as spaces |
| `PidCmdline.LabelsAreSafe` | procfs/pid_cmdline_parser.go:97-144 | all three labels are legal label values, and the command decodes to the file name of the path |
| `PidCmdline.CommandOfEscaped` | procfs/pid_cmdline_parser.go:133-144 | cutting the directories off an escaped path equals escaping the file name |
| `PidCmdline.AfterLastSlashIsBase` | procfs/pid_cmdline_parser.go:133-144 | the command is the slash-free end of the path after its last slash, if any |
| `PidCmdline.TrimNulsDropsOnlyNuls` | procfs/pid_cmdline_parser.go:82-85 | all trailing NULs and nothing else are dropped |
| `PidCmdline.TruncationKeepsWholeChars` | procfs/pid_cmdline_parser.go:67-80 | truncated UTF-8 text becomes whole characters of it followed by three dots, no longer than before and at most 3 bytes shorter |
| `PidCmdline.Parser.MarkTruncated` | procfs/pid_cmdline_parser.go:67-80 | overwrites the buffer in place with that |
| `PidCmdline.Parser.EscapeStretches` | procfs/pid_cmdline_parser.go:97-121 | copying by stretches equals escaping byte by byte, and finds the end of the command |
| `PidCmdline.Parser.Parse` | procfs/pid_cmdline_parser.go:56-147 | the labels are the escaped parts around the first NUL of the trimmed text and the end of the path; a failed read changes nothing |
| `NetDev.InitialCycleNum.Get` | lsvmi/metrics_common.go:228-240 | a cycle number below the factor, and the successor of the counter with its rollover |
| `NetDev.DrawsCollideExactlyWhen` | lsvmi/metrics_common.go:215-240 | of as many draws in a row as the factor, two are the same if and only if the counter rolls over between them and their distance fits |
| `NetDev.RolloverExample` | lsvmi/metrics_common.go:215-240 | with factor 7 the draws at the largest number and at 0 are the same |
| `NetDev.DeviceScan` | lsvmi/proc_net_dev_metrics.go:264-301 | after a scan of a device the last values sent are its true deltas, sent or not, and all were sent within the factor |
| `NetDev.ScanKeepsInv` | lsvmi/proc_net_dev_metrics.go:258-317 | the same for all devices of a scan, whichever came or went |
| `NetDev.CarryForwardIsExact` | lsvmi/proc_net_dev_metrics.go:258-302 | in every run, carrying forward the last value sent gives the true delta after every scan, and no counter goes `fullMetricsFactor` scans without being sent |
| `NetDev.DeltasTelescope` | lsvmi/proc_net_dev_metrics.go:274-290 | while a device stays, the deltas sent add up to its counter modulo 2^64 |
| `NetDev.AbsentDroppedExactlyWhen` | lsvmi/proc_net_dev_metrics.go:304-317 | absent devices are dropped and reported exactly when more are known than present |
| `NetDev.KeptAlthoughAbsent` | lsvmi/proc_net_dev_metrics.go:304-317 | a device replaced by another one is neither dropped nor reported in that scan |
| `NetDev.ProcNetDevMetrics.constructor` | lsvmi/proc_net_dev_metrics.go:155-188 | a new generator knows no device and no snapshot |
| `NetDev.ProcNetDevMetrics.UpdateDevInfo` | lsvmi/proc_net_dev_metrics.go:190-221 | adds the state of a new device and changes no other |
| `NetDev.ProcNetDevMetrics.ScanDevice` | lsvmi/proc_net_dev_metrics.go:264-301 | sends the deltas of one device and advances its state, no other device changing |
| `NetDev.ProcNetDevMetrics.GenerateMetrics` | lsvmi/proc_net_dev_metrics.go:240-335 | one scan in any order of the devices, over the two snapshots that take turns, is a scan on values |
| `NetDev.ProcNetDevMetrics.Execute` | lsvmi/proc_net_dev_metrics.go:338-383 | the same from parsing on; a failed parse changes nothing |
| `Credit.CreditIsConserved` | lsvmi/rate_controller.go:87-174 | in every run granted, available and clipped credit add up to value times one plus replenishments; available credit is not above a cap unless something negative is replenished or asked for |
| `Credit.NeverNegativeExactlyWhen` | lsvmi/rate_controller.go:87-174 | available credit is never negative in any run, whatever is asked for, if and only if the replenish value is not negative |
| `Credit.StretchIsLimited` | lsvmi/rate_controller.go:115-174 | a stretch with k replenishments grants the starting credit plus k times the value, less what is left and clipped: at most the first two |
| `Credit.ServedExactlyWhen` | lsvmi/rate_controller.go:154-174 | a request left alone is served if and only if there is enough now, or the value is positive and a cap is no less than its minimum |
| `Credit.NothingToServeExample` | lsvmi/rate_controller.go:154-174 | without a replenish value a request for 1 is never served |
| `Credit.AboveCapNeverServed` | lsvmi/rate_controller.go:154-174 | a request whose minimum is above a cap is served in no run |
| `Credit.Controller.constructor` | lsvmi/rate_controller.go:87-118 | starts with one replenish value, of any sign; a cap is at least that |
| `Credit.Controller.ReplenishOnce` | lsvmi/rate_controller.go:132-139 | one round adds the value, up to the cap, and keeps the books |
| `Credit.Controller.GetCredit` | lsvmi/rate_controller.go:154-174 | a request waits, whatever others do meanwhile, until its minimum is there, and gets between its minimum and what it desires |
| `CreditReader.ReadsAreConsecutive` | lsvmi/rate_controller.go:214-237 | for any sizes and grants reads return consecutive slices, each call with room progresses, end of file is returned exactly at the end |
| `CreditReader.ReadsComplete` | lsvmi/rate_controller.go:214-237 | as many calls as bytes are left get them all |
| `CreditReader.RetryOffersFullBody` | lsvmi/http_endpoint_pool.go:789-822 | after a rewind the whole body is read again, however far it was read and although it was closed |
| `CreditReader.Reader.constructor` | lsvmi/rate_controller.go:186-197 | starts at the beginning with a non-negative minimum |
| `CreditReader.Reader.Rewind` | lsvmi/rate_controller.go:208-211 | back to the start and open |
| `CreditReader.Reader.Close` | lsvmi/rate_controller.go:269-272 | closed, where it was |
| `CreditReader.Reader.Read` | lsvmi/rate_controller.go:214-237 | the next slice in the buffer, one credit spent per byte; while blocked nothing is read and the limiter only has what others did to it |
| `ByteCount.AppendByteCount` | lsvmi/internal_metrics.go:346-362 | the loop ends with the least number that counts the other bytes and its own digits, so the number printed is the length of the buffer |
| `ByteCount.OtherCountsExactlyWhen` | lsvmi/internal_metrics.go:347-353 | there is another such number if and only if the least is one short of a power of ten |
| `ByteCount.TwoCountsExample` | lsvmi/internal_metrics.go:347-353 | both 9 and 10 count 8 other bytes |
| `ByteCount.DigitsExactlyWhen` | lsvmi/internal_metrics.go:347-360 | the printed number has k digits if and only if it is below 10^k and no less than 10^(k-1) |

## Left out

- HTTP transport, gzip internals, netlink, statfs, file reads, YAML configuration, logging and flags.
- Metric name tables, label text, float formatting: a metric is a value under a device and an index, or an event.
- Rates: they are modelled as the deltas they are computed from. Compression factors are reals, without rounding.
- Counts of generated metrics and their totals in the network device metrics, which decide only whether an otherwise empty buffer is queued.
- The text parsers of stat, status and /proc/net/dev: their outcomes are inputs. Context switch deltas of the status parser repeat the fault deltas.
- `HttpEndpointDoublyLinkedList.AddToHead`: unused by the pool, and it leaves a back link unset.
- Endpoints with the same URL: their statistics would be shared.
- Scheduler shutdown, duplicate task ids and statistics snapshots. Liveness beyond the absence of blocking.
- Compressor statistics and the return of buffers to their pool; closing the channel while a send is blocked.
- Overflow of 64-bit durations and of the `int` counters of bytes; wrap-around of counters read from the kernel is modelled.
- The text that describes what changed in `/proc/net/snmp`.
- Credit rate specifications, which are floating point, and `CreditReader.Seek` and `Reuse`.
- Diskstats, snmp6, interrupts and softirqs, and the remaining generators, which repeat the delta scheme with bigger tables.
- EndpointSender.SendBuffer: nobody else is at work in between, so its deadline only says how long it waits, once nothing is listed, before it fails; the pool under all interleavings is in EndpointSender.Interleave.
- EndpointSender.Interleave: errors and attempts are reported on endpoints of the pool only, which is where senders get theirs from.
- PidCache.PidMetrics.Execute: what a scan that faults leaves behind is not stated; the process ends there.
- PidCache.PidMetrics.RunScans: a run ends with the first scan that faults.
- PidCmdline.Parser.Parse: a truncated read has at least 3 bytes; the code reports truncation only for a full buffer.
- PidCmdline.TruncationKeepsWholeChars: characters have the lengths and continuation bytes of UTF-8; overlong forms and surrogates are admitted as well.
