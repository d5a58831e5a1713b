# Verification of the simulation tooling

A Dafny model of the Python tools around the simulator, with proofs: the parallel
test driver, the traffic-file lock, the traffic and topology generators, and the scripts
that parse and analyse the simulator's output. `dafny verify dfyconfig.toml` checks
everything.

| file | models |
|---|---|
| `WorkerPool.dfy`, `TestDriver.dfy` | the job queues, worker threads, poison pills and counters of the test driver: a step relation, and a class that performs each step in place under an arbitrary schedule |
| `TrafficLock.dfy` | the lock-file protocol with which any number of processes share one traffic file |
| `Incast.dfy`, `Zipfian.dfy`, `MoeScaling.dfy`, `MoeFactors.dfy`, `MoeSizes.dfy` | the AlltoallV size generators: correction, rescaling and in-place iterative scaling of traffic matrices, with a closed form of the latter |
| `MessageFile.dfy`, `MessageFileReaders.dfy` | the message-size file, character by character, its writer and its three readers |
| `OptimalJct.dfy` | the ideal completion time of a traffic matrix, against all fluid schedules |
| `ReductionTree.dfy`, `AllReduceTimes.dfy` | the bottom-up reduction tree, and the tree and ring completion times |
| `LeafSpine.dfy`, `FatTree.dfy`, `Links.dfy` | the topology generators and the port classifiers that rely on their link order |
| `PfcIntervals.dfy` | pause intervals of the PFC logs |
| `FlowReorder.dfy`, `FctPercentiles.dfy` | reordering and percentile binning of flow completion times |
| `JainFairness.dfy` | Jain's index and the coefficient of variation |
| `Cdf.dfy` | the run-length CDF |
| `HistoryBlocks.dfy`, `HistoryFiles.dfy` | splitting a history file into blocks and buckets, and the files the buckets are written to |
| `Text.dfy`, `Grids.dfy`, `RealSums.dfy`, `RealArithmetic.dfy`, `Sorting.dfy`, `Arithmetic.dfy`, `Wrappers.dfy` | shared: decimal numbers, tokens and lines; matrices; sums, products, quotients and truncation of reals; sorting; integer division; optional values |

Byte counts, times and ids are unbounded integers, as in Python; floats are exact
reals. Loops that change lists, dictionaries and matrices are methods with loops,
each proved equal to a specification function; what the tools promise is then
proved about those functions. The two concurrent protocols are step relations
over all interleavings.

Where the code does not do what its comments say, the model follows the code and
the exact condition is proved:

- The fat-tree port classifier is right for a topology exactly if its pods have (k/2)^2
  servers, that is, if the over-subscription factor is at least 1 and below 1+(2/k)^2
  (`FatTree.PortTypesAgree`, `FatTree.StandardExactlyWhen`). Other factors can also leave
  server ids without any link, because servers per pod and per ToR are rounded separately
  (`FatTree.EveryServerLinked`).
- The `moe` generator gives the receivers n-1 times what is sent, so its convergence test
  passes only in a group of two with nearly equal weights
  (`MoeScaling.ConvergesExactlyWhen`); the matrix is not affected, and is exactly the
  analyzer's (`MoeScaling.ProgramsAgree`).
- A process can leave the locked block and find the traffic file half written, although
  every launch goes well, exactly if there are two processes or more, the file was not there
  at the start, and it leaves by its first check or while waiting for the lock
  (`TrafficLock.PartialSeenExactlyWhen`).
- A row of the `zipfian` sizes that sends anything adds up to exactly `base_size`, as its
  comment promises, exactly if every flow's part of `base_size` is a whole number of bytes
  (`Zipfian.RowExactlyWhen`); ten bytes with weights 1/3 and 2/3 become nine
  (`Zipfian.TenBytesBecomeNine`).
- Splitting the history loses blocks exactly if two buckets with blocks get the same file
  name (`HistoryFiles.NothingLostExactlyWhen`), as the topologies `a b` and `a_b` do
  (`HistoryFiles.SpaceCollides`).
- `build_binary_tree` fails exactly for a group of one (`ReductionTree.BuildTree`).
- The CDF loses the bucket of zeros exactly if zero is the least value, and fails if
  there is no other (`Cdf.CompleteExactlyWhen`, `Cdf.GetCdfFromArray`).
- Jain's index is 1/(1+CV^2) exactly if there is any load (`JainFairness.JainIsInverseCv`).
- An incast receiver gets its target exactly if the group has at least two servers or
  there is nothing to send (`Incast.ReceiverGetsTarget`).
- The test driver can get stuck exactly if it is started without workers and with a job
  (`WorkerPool.StuckOnlyWithoutWorkers`).

## Model

| member | source | states |
|---|---|---|
| WorkerPool.InvStart | simulation/test.py:1313-1316 | the freshly started driver, with any number of workers and jobs, satisfies the invariant |
| WorkerPool.InvNext | simulation/test.py:921-989 | every step of main, of any worker and of the signal handler keeps the invariant: queue order, places of all jobs, what each job carries, where main stands |
| WorkerPool.EachJobInOnePlace | simulation/test.py:1369-1371 | a dispatched job is at every moment in exactly one of input queue, one worker, output queue and collected list |
| WorkerPool.NoPillOvertakes | simulation/test.py:1575-1578 | once a worker holds a pill or has left, nothing but pills is queued |
| WorkerPool.NoDeadlock | simulation/test.py:1594-1597 | until main has finished, some step other than an interrupt is possible |
| WorkerPool.CostDecreases | simulation/test.py:921-989 | every step, of whichever thread, uses up some of a bound that never becomes negative |
| WorkerPool.RunsAreBounded | simulation/test.py:1313-1316 | no run, under any interleaving and interrupt, has more than 6n+7P+5 steps for n jobs and P workers |
| WorkerPool.MaximalRunFinishes | simulation/test.py:1736-1737 | every run that cannot be continued has main finished, all workers gone and every job received exactly once |
| WorkerPool.StuckOnlyWithoutWorkers | simulation/test.py:1309-1316 | a run can stop before main has finished if and only if there are no workers and at least one job |
| WorkerPool.NoWorkersStuck | simulation/test.py:1594-1595 | without workers and with a job there is such a run: main waits for ever |
| WorkerPool.CountersTellTheTruth | simulation/test.py:1590-1619 | in a finished run passed, failed and valgrind are the numbers of jobs whose command ended with 0, 1 and 2 in that run, crashed of those that ended with another code, skipped of the skips not cancelled |
| WorkerPool.FirstInFirstOut | simulation/test.py:923-989 | jobs are taken in the order in which they were created, and main receives the results in the order in which they were delivered |
| WorkerPool.SuccessMeansAllGood | simulation/test.py:1800-1803 | passed plus skipped equals the number of results if and only if every result is a skip or a zero return code and none was interrupted |
| WorkerPool.FinishedState | simulation/test.py:1800-1803 | when main is done both queues are empty, it received every job exactly once, the counters add up, and the status is 0 if and only if every collected result is a skip or shows code 0, and none is interrupted |
| WorkerPool.ReportedToTheEnd | simulation/test.py:963-989 | a finished result stays unchanged with its worker, in the output queue or with main, to the end of any run |
| WorkerPool.ResultsAreReal | simulation/test.py:928-989 | every result a run adds was interrupted or skipped in that run, or its command ended in that run with exactly the code it shows |
| WorkerPool.CodeIsReported | simulation/test.py:963-989 | if a job's command ended with a code in a run, the result with that code is kept |
| WorkerPool.CancelIsReported | simulation/test.py:936-939 | a job first looked at after the interrupt is reported as interrupted |
| WorkerPool.OutcomeOfJob | simulation/test.py:1590-1619 | in a finished run main has one result per job, interrupted exactly if the job was looked at after the interrupt, and otherwise, unless it is a skip, with exactly the code its command ended with: the command ran |
| WorkerPool.StatusTellsTheTruth | simulation/test.py:1800-1803 | the status of a finished run is 0 if and only if no job was cancelled and the command of every job that is not a skip was run and returned 0 |
| WorkerPool.ReportedCode | simulation/test.py:963-989 | in every finished continuation, the code a job's command ends with is the one main receives |
| TestDriver.Driver.constructor | simulation/test.py:1313-1316 | the new driver object stands for the protocol's start state |
| TestDriver.Driver.Put | simulation/test.py:1369-1371 | creating and queueing an object in place is main's dispatch or pill step |
| TestDriver.Driver.Receive | simulation/test.py:1594-1619 | taking one result and updating the counters in place is main's collect step |
| TestDriver.Driver.MainTurn | simulation/test.py:1575-1803 | each action of main in place is main's step of the protocol |
| TestDriver.Driver.TakeJob | simulation/test.py:923 | taking the first queued object is the worker's take step |
| TestDriver.Driver.ExamineJob | simulation/test.py:928-955 | exit on a pill, interrupt, skip and run branches are the worker's examine step |
| TestDriver.Driver.CompleteJob | simulation/test.py:963-979 | storing the return code is the worker's complete step |
| TestDriver.Driver.DeliverJob | simulation/test.py:989 | handing the job over is the worker's deliver step |
| TestDriver.Driver.WorkerTurn | simulation/test.py:921-989 | whatever a worker does next is one enabled event of the protocol |
| TestDriver.Driver.Interrupt | simulation/test.py:546-551 | the signal handler is the protocol's signal event |
| TestDriver.RunTests | simulation/test.py:1590-1803 | a session under any schedule ends, is a run of the protocol, returns every dispatched job exactly once, returns counters that are the numbers of jobs they are named after in that run, and returns 0 if and only if nothing was cancelled and every command that is not a skip was run and returned 0 |
| TrafficLock.InvNext | simulation/run.py:670-713 | every file access of any process keeps the protocol's invariant |
| TrafficLock.MutualExclusion | simulation/run.py:676-703 | in every reachable state the lock file exists exactly while a process is in the locked region, and at most one is |
| TrafficLock.EveryoneFindsTheFile | simulation/run.py:670-712 | launches never exceed failures by more than one (by none if the file was there), and without a failed launch whoever leaves by any path finds the file |
| TrafficLock.MissingExactlyAfterFailure | simulation/run.py:704-711 | a process can leave without a file if and only if a launch may fail |
| TrafficLock.PresentFileStaysComplete | simulation/run.py:670-672 | a file that was there at the start stays complete and nothing is launched, whoever does what |
| TrafficLock.LockedPathsSeeCompleteFile | simulation/run.py:679-711 | who leaves through the locked region, or because the lock vanished, without a failed launch finds a complete file |
| TrafficLock.EarlyLeaverSeesPartialFile | simulation/run.py:670-672 | in any group of two or more a process can leave at its first check while the file is half written |
| TrafficLock.WaiterSeesPartialFile | simulation/run.py:704-711 | the same for a process that waits for the lock |
| TrafficLock.PartialSeenExactlyWhen | simulation/run.py:670-712 | for every way out: leaving to a half-written file without a failed launch is possible if and only if there are at least two processes, no file at the start, and the way out is the first check or the wait |
| TrafficLock.PartialExactlyWhileWriting | simulation/traffic_gen/traffic_gen.py:74-148 | a half-written file exists exactly while the generator in the locked region is writing it |
| TrafficLock.OnlyPollingDelays | simulation/run.py:707-711 | a run has at most 6 events per process plus 2 per poll that found the lock taken, and a process that has not left can always act |
| Incast.SplitEvenly | simulation/run.py:342-347 | the filling loops put the truncated even share everywhere but on the diagonal |
| Incast.AddToFirst | simulation/run.py:354-358 | the correction goes to the first server other than the receiver and nowhere else |
| Incast.FixColumn | simulation/run.py:349-358 | one column is corrected, the others are left alone |
| Incast.CorrectionIsSmall | simulation/run.py:349-358 | the correction is target mod (n-1), between 0 and n-2 |
| Incast.ReceiverGetsTarget | simulation/run.py:326-362 | zero diagonal; a receiver's column adds up exactly to its truncated target if and only if there are at least two servers or nothing to send |
| Incast.HottestGetsBase | simulation/run.py:336-337 | the receiver with the largest weight gets exactly `base_size`, nobody more, and a larger weight never means fewer bytes |
| Incast.IncastReceiverTime | simulation/analysis/optimal_jct_analyzer.py:431-455 | for incast sizes the receiver side of the ideal completion time is the time for `base_size` bytes |
| Incast.TargetIsShare | simulation/run.py:334-337 | a target t of receiver j is the greatest number of bytes with t times the largest weight at most `base_size` times the weight of j |
| Incast.IncastSizes | simulation/run.py:326-362 | in the returned list every receiver's column adds up to its share of `base_size` by its weight against the largest one, cut to whole bytes; it is split evenly, and the first other server sends what is left over |
| Zipfian.SourceRow | simulation/run.py:306-323 | the loop over destinations and the rescaling produce the specified row |
| Zipfian.ZipfianSizes | simulation/run.py:296-324 | the generated list, row by row: destinations get `base_size` times their weight cut to bytes, each of these then times `base_size` div their total |
| Zipfian.ZipfianRowFollows | simulation/run.py:306-321 | the same for one row, with nothing for the source itself |
| Zipfian.FlowsTotal | simulation/run.py:308-319 | before scaling no source sends more than `base_size`, and it sends nothing if and only if every share is below a byte |
| Zipfian.ZipfianRowTotal | simulation/run.py:318-323 | nothing to itself; a row adds up to more than `base_size`-(n-1) and at most `base_size`, or to zero if every share is below a byte |
| Zipfian.RowExactlyWhen | simulation/run.py:317-321 | a row that sends anything adds up to exactly `base_size` if and only if `base_size` times each flow is divisible by the flow total; an empty row only for `base_size` zero |
| Zipfian.TenBytesBecomeNine | simulation/run.py:317-321 | base 10 and weights 1/3 and 2/3 give a row of nine bytes |
| Zipfian.ScalingOnlyAdds | simulation/run.py:318-321 | scaling back never takes bytes from a flow |
| MoeScaling.NormalisedWeights | simulation/run.py:253-260 | normalised weights are positive and add up to one |
| MoeScaling.ReceiversMet | simulation/run.py:395-401 | after the receiver loop every column adds up exactly to its capacity, the diagonal is zero, everything else positive |
| MoeScaling.SendersMet | simulation/run.py:403-409 | the same for rows and the sender capacity |
| MoeScaling.RoundsKeep | simulation/run.py:393-416 | after any number of rounds, with or without early exit, rows are exact, the diagonal zero, everything else positive |
| MoeScaling.NeverConverges | simulation/run.py:370-416 | in a group of three or more the convergence test never passes |
| MoeScaling.ConvergesExactlyWhen | simulation/run.py:411-416 | the test passes after a round if and only if the group has two servers and both weights are within one per cent of a half |
| MoeScaling.EarlyExitIsHarmless | simulation/run.py:415-416 | stopping early never changes the resulting matrix |
| MoeScaling.RoundsScaleFree | simulation/analysis/optimal_jct_analyzer.py:398-412 | rounds depend on the receiver capacities only up to a common factor |
| MoeScaling.ProgramsAgree | simulation/analysis/optimal_jct_analyzer.py:386-414 | the generator with `base_size` b(n-1) and the analyzer with b bytes per flow compute the same matrix, for every group size, weights and b |
| MoeScaling.MoeRowTotals | simulation/run.py:418-423 | after truncation a row adds up to more than `base_size`-(n-1) and at most `base_size`, with nothing on the diagonal |
| MoeFactors.RunRoundsShaped | simulation/run.py:388-409 | after k rounds server i sends receiver j `base_size` times c(j) over the sum of c without c(i), where c = 1 at first and the next c(j) is the weight of j over the sum of 1/(sum of c without c(i)) for i other than j |
| MoeFactors.AnalyzerTrafficShaped | simulation/analysis/optimal_jct_analyzer.py:386-412 | the analyzer's matrix has the same factors, after 100 rounds |
| MoeFactors.LargerWeightGetsMore | simulation/run.py:393-409 | after any number of rounds a server sends more to one receiver than to another if and only if the one's weight is larger |
| MoeFactors.RunRoundsConverge | simulation/run.py:411-416 | the convergence test passes after any round if and only if there is something to send in a nearly equal pair |
| MoeFactors.NearlyEqualMeans | simulation/run.py:411-416 | a pair is nearly equal if and only if 50/101 < first weight < 51/101 |
| MoeFactors.ThreeServers | simulation/run.py:388-409 | with weights 1/2, 1/4, 1/4 and p = 2^k, after k rounds the second server sends `base_size` times (3p-2)/(4p-2) to the first and p/(4p-2) to the third |
| MoeFactors.ThreeServersAt120 | simulation/run.py:364-423 | for 120 bytes the generated matrix is [[0,60,60],[89,0,30],[89,30,0]] |
| MoeSizes.AdjustReceiversInPlace | simulation/run.py:395-401 | scaling the columns one after another in place is scaling all at once |
| MoeSizes.RenormaliseSendersInPlace | simulation/run.py:403-409 | the same for the rows |
| MoeSizes.Largest | simulation/run.py:415 | the greatest entry of a list of errors, by comparisons that no NaN satisfies |
| MoeSizes.HasConverged | simulation/run.py:411-416 | the list of relative errors is built and its maximum compared with the tolerance; the test passes exactly if every receiver is within one per cent, and never if there is nothing to receive |
| MoeSizes.RunMoeSizes | simulation/run.py:364-423 | the whole branch in place makes one round for a pair with weights between 50/101 and 51/101 and 100 rounds otherwise, and returns what the factors after so many rounds give, cut to whole bytes; nothing if there is nothing to send |
| MoeSizes.AnalyzerMoeMatrix | simulation/analysis/optimal_jct_analyzer.py:386-414 | the analyzer's branch in place makes 100 rounds and returns what the factors then give, cut to whole bytes |
| Grids.RowsAndColumnsAgree | simulation/analysis/optimal_jct_analyzer.py:431-433 | what all rows send is what all columns receive |
| Grids.TruncationLoss | simulation/run.py:418-421 | truncation loses less than one byte for each entry that is not zero |
| OptimalJct.NoScheduleIsFaster | simulation/analysis/optimal_jct_analyzer.py:431-455 | no schedule in which every server sends and receives at most the link rate delivers the matrix sooner than the ideal time |
| OptimalJct.ProportionalAttains | simulation/analysis/optimal_jct_analyzer.py:431-455 | the proportional schedule is feasible, delivers the matrix and takes exactly the ideal time |
| MessageFile.Save | simulation/run.py:451-468 | the writing loops produce the specified text |
| MessageFile.MatrixOfFlat | simulation/run.py:459-466 | index i of the list is entry (i div n, i mod n) of the matrix |
| MessageFile.DataLineReads | simulation/analysis/optimal_jct_analyzer.py:305-321 | a written data line is read as its four numbers |
| MessageFile.PreambleInFull | simulation/run.py:457-458 | the first two lines, character by character |
| MessageFile.HeaderInFull | simulation/run.py:461 | the header of a group, character by character |
| MessageFile.DataLineInFull | simulation/run.py:463-466 | a data line: group, source, destination and bytes in decimal with one blank between them |
| Text.DecimalDigits | simulation/run.py:466 | the digits of a written number from the right are those of the number in base ten |
| MessageFile.LoadedMeaning | simulation/analysis/optimal_jct_analyzer.py:292-350 | for any text: loading fails if and only if a line is malformed; otherwise there is one matrix for every group mentioned, by number, just large enough, with what the file last says about each entry and zeros elsewhere |
| MessageFile.CollectSaved | simulation/analysis/optimal_jct_analyzer.py:305-321 | reading all lines of a saved file yields one dictionary per group that has members, with all its entries |
| MessageFile.RoundTrip | simulation/analysis/optimal_jct_analyzer.py:329-350 | loading a saved file returns the matrices of exactly the groups that have members, in order |
| MessageFile.AllGroupsComeBack | simulation/analysis/optimal_jct_analyzer.py:329-350 | all groups come back if and only if none is empty, and then each as it was saved |
| MessageFileReaders.GroupMatrix | simulation/analysis/optimal_jct_analyzer.py:330-341 | the largest index gives the size, and copying the entries in any order gives the matrix |
| MessageFileReaders.Load | simulation/analysis/optimal_jct_analyzer.py:292-350 | the loading loops return the specified matrices, or fail on a malformed line |
| MessageFileReaders.ReceiverIdeal | simulation/parser/parse_jct_with_ideal.py:146-177 | the loop over lines with its early break returns the time for the largest sum of the lines it read, or nothing |
| MessageFileReaders.ReadersAgreeExactlyWhen | simulation/parser/parse_jct_with_ideal.py:146-163 | the receiver-only reader and the analyzer take a line alike if and only if it has at most four tokens and no `#` behind leading blanks in front of four of them, or starts with `#` |
| MessageFileReaders.ReceivedIsLoad | simulation/parser/parse_jct_with_ideal.py:146-163 | after all lines of a group every destination has exactly its column total |
| MessageFileReaders.ReceiverIdealOfSaved | simulation/parser/parse_jct_with_ideal.py:165-177 | on a saved file the estimate is the receiver side of the first group's ideal time, so at equal bandwidth never above the ideal time; there is none if and only if that group has no members |
| MessageFileReaders.GeneratedFileReadsBack | simulation/run.py:459-466 | any non-empty generated matrix, flattened, saved and loaded, is itself |
| MessageFileReaders.IncastFileEstimate | simulation/parser/parse_jct_with_ideal.py:165-177 | on a file of incast sizes the receiver-only estimate is the time for `base_size` bytes |
| MessageFileReaders.GroupSize | simulation/parser/parse_jct_with_ideal.py:98-126 | the header scan with its early stop |
| MessageFileReaders.HeaderOfSaved | simulation/parser/parse_jct_with_ideal.py:109-121 | the header of a saved file yields the size of its first group |
| ReductionTree.BuildTree | simulation/analysis/optimal_jct_analyzer.py:144-216 | the loops build the specified tree; a key error if and only if the group has one member; an empty tree for none |
| ReductionTree.LinkLevel | simulation/analysis/optimal_jct_analyzer.py:164-205 | one level of parents, with consecutive new ids |
| ReductionTree.LinkPair | simulation/analysis/optimal_jct_analyzer.py:166-202 | one pair: next free id, parent node, children adopted |
| ReductionTree.TreeIsOk | simulation/analysis/optimal_jct_analyzer.py:144-216 | ids are exactly 0 to the root's, children have smaller ids and point back, leaves are exactly the group's members |
| ReductionTree.ListedOnce | simulation/analysis/optimal_jct_analyzer.py:174-200 | every node but the root is listed by its `parent` and by no other node |
| ReductionTree.LeafDepth | simulation/analysis/optimal_jct_analyzer.py:207-211 | from a leaf the root is reached in exactly `tree_height` moves |
| ReductionTree.HeightIsLog | simulation/analysis/optimal_jct_analyzer.py:161-211 | 2^(height-1) < n <= 2^height |
| ReductionTree.TreeIsPairedUp | simulation/analysis/optimal_jct_analyzer.py:161-214 | the level lists: leaves 0 to n-1, each level half as long as the one below, rounded up; nodes 2k and 2k+1 of a level are, in this order, the children of node k of the next |
| AllReduceTimes.RingStepIsIdeal | simulation/analysis/optimal_jct_analyzer.py:223-233 | the transmission time is the ideal completion time of one ring step, in which everybody sends the message to the next member |
| AllReduceTimes.TimesInBits | simulation/analysis/optimal_jct_analyzer.py:223-267 | times the rate of gbps * 1e9, the ring takes 2(n-1) and the tree 2*height messages of 8 bits a byte; no ring for fewer than two |
| AllReduceTimes.TreeNeverSlowerThanRing | simulation/analysis/optimal_jct_analyzer.py:223-267 | the ideal tree time is at most the ideal ring time, and equal if and only if n <= 3 or the message is empty |
| LeafSpine.Generate | simulation/config/leaf_spine_topology_gen.py:44-56 | the two loop nests emit the specified links in order |
| LeafSpine.PortsOf | simulation/config/leaf_spine_topology_gen.py:44-56 | the interfaces of every node, in order |
| LeafSpine.PortCounts | simulation/config/leaf_spine_topology_gen.py:44-56 | servers have one interface, leaves one per server and spine, spines one per leaf |
| LeafSpine.LinkCount | simulation/config/leaf_spine_topology_gen.py:27 | the announced number of links |
| LeafSpine.NoDuplicates | simulation/config/leaf_spine_topology_gen.py:44-56 | no two nodes are linked twice |
| LeafSpine.LinesInOrder | simulation/config/leaf_spine_topology_gen.py:44-56 | every line names the lower node first, and the lines are ordered by their two nodes |
| LeafSpine.ClassifierAgrees | simulation/parser/parse_pfc_batch.py:156-181 | for every leaf, spine and server count the classifier names the true other end of every interface, and the true target leaf |
| LeafSpine.PortGroup | simulation/analysis/plot_analyze_pfc.py:291-308 | the loops collect exactly the specified ports |
| LeafSpine.GroupIsThePath | simulation/analysis/plot_analyze_pfc.py:291-308 | the group is exactly the source leaf's first interface, the spine ports facing the source leaf and the target leaves' ports facing a spine |
| LeafSpine.FirstInterfaceIsServer | simulation/analysis/plot_analyze_pfc.py:296-298 | the source leaf's first interface leads to a server exactly if leaves have servers |
| FatTree.Generate | simulation/config/fat_topology_gen.py:38-68 | the three loop nests emit the specified links and count them |
| FatTree.PortsOf | simulation/config/fat_topology_gen.py:42-68 | the interfaces of every node, in order |
| FatTree.LinkCount | simulation/config/fat_topology_gen.py:38-68 | the number of links, four times which is 3k^3 with k/2 servers at each ToR |
| FatTree.SwitchDegree | simulation/config/fat_topology_gen.py:42-68 | with k/2 servers at each ToR every switch has exactly k interfaces |
| FatTree.NoDuplicates | simulation/config/fat_topology_gen.py:42-68 | no two nodes are linked twice |
| FatTree.LinesInOrder | simulation/config/fat_topology_gen.py:38-68 | every line names the lower node first, and the lines are ordered by their two nodes |
| FatTree.CoreReachesEachPodOnce | simulation/config/fat_topology_gen.py:60-68 | interface i of a core switch leads into pod i, and there are k |
| FatTree.OnePathPerCore | simulation/config/fat_topology_gen.py:50-68 | between two ToRs there is exactly one up-down path through each core switch |
| FatTree.PathCount | simulation/config/fat_topology_gen.py:50-68 | the up-down paths between two ToRs number (k/2)^2 |
| FatTree.EveryServerLinked | simulation/config/fat_topology_gen.py:21-47 | every server has a link if and only if a pod has as many servers as its ToRs have room for |
| FatTree.StandardExactlyWhen | simulation/config/fat_topology_gen.py:21-22 | a pod has (k/2)^2 servers if and only if the factor is at least 1 and below 1+(2/k)^2, and then each ToR has k/2 |
| FatTree.RangesAgree | simulation/analysis/plot_analyze_pfc_fattree.py:16-56 | with (k/2)^2 servers in a pod the analysis' id ranges are the generator's |
| FatTree.PortTypesAgree | simulation/analysis/plot_analyze_pfc_fattree.py:58-70 | the analysis names the true ends of every interface if and only if a pod has (k/2)^2 servers |
| FatTree.TargetEdgeAgrees | simulation/analysis/plot_analyze_pfc_fattree.py:215-225 | the computed target edge is the true other end |
| PfcIntervals.SortMeaning | simulation/parser/parse_dcn_pfc_spine_balance.py:68 | the sorted log is in order of time, holds the same lines, keeps the order of lines of the same time, and is the log itself if that is in order |
| PfcIntervals.EndTimeIsLatest | simulation/parser/parse_dcn_pfc_spine_balance.py:69 | the end of the log is its greatest time |
| PfcIntervals.SortedLinesTell | simulation/parser/parse_dcn_pfc_spine_balance.py:68-74 | after any time the last switch in a port's sorted lines is the port's latest switch in the log as it stands |
| PfcIntervals.ScanPort | simulation/parser/parse_dcn_pfc_spine_balance.py:78-98 | the loop over one port's events yields the specified intervals |
| PfcIntervals.GroupByPort | simulation/parser/parse_dcn_pfc_spine_balance.py:71-74 | the dictionary holds each port's lines in order, ports in order of appearance |
| PfcIntervals.PortsByFirstLine | simulation/parser/parse_dcn_pfc_spine_balance.py:71-74 | ports are listed in the order of their first lines |
| PfcIntervals.ProcessLog | simulation/parser/parse_dcn_pfc_spine_balance.py:65-99 | the whole extraction, port after port |
| PfcIntervals.IntervalsMeanPaused | simulation/parser/parse_dcn_pfc_spine_balance.py:76-98 | a port's intervals are ordered and disjoint, and cover an instant before the log's end exactly if, of the port's pause and resume lines in the log up to then, the latest (the last of several at one time) is a pause |
| PfcIntervals.TotalIsPausedTime | simulation/parser/parse_dcn_pfc_spine_balance.py:120-127 | the total length is the number of instants at which the port's latest line in the log is a pause |
| PfcIntervals.InterleavingIrrelevant | simulation/parser/parse_dcn_pfc_spine_balance.py:68-98 | other ports' lines and how they interleave do not matter |
| PfcIntervals.LogIntervalsAtPort | simulation/parser/parse_dcn_pfc_spine_balance.py:76-98 | the log's intervals at a port are that port's intervals |
| PfcIntervals.PortTotals | simulation/parser/parse_dcn_pfc_spine_balance.py:120-127 | the dictionary of totals over spine ports |
| PfcIntervals.LeafGroups | simulation/parser/parse_dcn_pfc_spine_balance.py:129-135 | exactly the spine ports that face a leaf are grouped under it, with their totals |
| PfcIntervals.BalanceFromLog | simulation/parser/parse_dcn_pfc_spine_balance.py:101-135 | from the log to the groups: each entry is the number of paused instants, and whoever has no entry was never paused |
| PfcIntervals.SumPort | simulation/parser/parse_dcn_pfc_trigger.py:53-61 | the trigger parser's inner loop adds up the same durations |
| PfcIntervals.TriggerTotal | simulation/parser/parse_dcn_pfc_trigger.py:48-63 | its total is the sum over ports, in whatever order it visits them |
| PfcIntervals.PortOrderIrrelevant | simulation/parser/parse_dcn_pfc_trigger.py:50-52 | the order of the ports does not change the total |
| FlowReorder.DealIntoBuckets | simulation/parser/parse_dcn_fct_rto.py:91-96 | the dealing loops produce the columns one after another |
| FlowReorder.GroupBySize | simulation/parser/parse_dcn_fct_rto.py:79-81 | the dictionary holds each size's slowdowns in input order |
| FlowReorder.Reorder | simulation/parser/parse_dcn_fct_rto.py:79-96 | the whole reordering loop |
| FlowReorder.DealtPosition | simulation/parser/parse_dcn_fct_rto.py:91-96 | rank i lands at position (i%k)*(n/k)+min(i%k,n%k)+i/k |
| FlowReorder.PositionBijective | simulation/parser/parse_dcn_fct_rto.py:91-96 | that position is a bijection of ranks onto positions |
| FlowReorder.RankInBlock | simulation/parser/parse_fct_split.py:67-80 | within one size, with n flows, the flow of rank i is at position (i%100)*(n/100)+min(i%100,n%100)+i/100 of the size's block |
| FlowReorder.BlockIsStretch | simulation/parser/parse_fct_split.py:67-80 | a size's block is a stretch of the result, behind all smaller and before all larger sizes |
| FlowReorder.ReorderPermutes | simulation/parser/parse_fct_split.py:67-80 | every flow occurs as often as in the input |
| FlowReorder.ReorderKeepsAll | simulation/parser/parse_fct_split.py:67-80 | the reordered list has the same flows, as a multiset, and the same length |
| FlowReorder.ReorderAscends | simulation/parser/parse_dcn_fct_rto.py:86-96 | sizes never decrease |
| FlowReorder.BucketsBalanced | simulation/parser/parse_dcn_fct_rto.py:91-94 | for every threshold, the numbers of elements below it in any two buckets differ by at most one |
| FctPercentiles.CutIsProportion | simulation/parser/parse_dcn_fct_rto.py:107-111 | a cut point is i*n div the number of buckets |
| FctPercentiles.ChunksArePrefix | simulation/parser/parse_dcn_fct_rto.py:106-119 | the first c buckets together are exactly a prefix: contiguous and disjoint |
| FctPercentiles.ChunksCoverAll | simulation/parser/parse_dcn_fct_rto.py:113-119 | all buckets together are all flows |
| FctPercentiles.AllMeansRecombine | simulation/parser/parse_dcn_fct_rto.py:129 | bucket means weighted by length add up to the overall sum |
| FctPercentiles.PctlMeaning | simulation/parser/parse_dcn_fct_rto.py:54-61 | a percentile is a member; at most a fraction p is strictly below it and, for p < 1, more than a fraction p is not above it; for p >= 1 it is the greatest; it grows with p |
| FctPercentiles.ChunkIsBucket | simulation/parser/parse_dcn_fct_rto.py:103-119 | bucket i of b holds the flows from i*n div b up to (i+1)*n div b |
| FctPercentiles.SummaryDescribes | simulation/parser/parse_dcn_fct_rto.py:118-137 | a row holds the size of the bucket's last flow, the mean, the six percentiles by their two counts, and the greatest slowdown, a member; zeros for an empty bucket |
| FctPercentiles.RowOrdered | simulation/parser/parse_dcn_fct_rto.py:128-136 | p50 <= p80 <= p90 <= p95 <= p99 <= p999 <= tail, and the tail is the greatest |
| FctPercentiles.SizeAxis | simulation/parser/parse_dcn_fct_rto.py:128 | with at least as many flows as buckets none is empty and the size axis never goes back |
| FctPercentiles.SeriesMeaning | simulation/parser/parse_dcn_fct_rto.py:79-152 | for the returned columns: every entry describes its bucket as above; bucket means weighted by bucket length add up to the sum over the flows that went in; with at least as many flows as buckets the size column never falls and the percentiles of every entry are ordered |
| FctPercentiles.GetSteps | simulation/parser/parse_dcn_fct_rto.py:79-152 | the row loop and the column loop return columns in which every entry describes its bucket of the reordered flows, and the empty result exactly for no flows |
| JainFairness.JainIsInverseCv | simulation/parser/parse_dcn_spine_dl_util.py:79-87 | Jain's index is 1/(1+CV^2) if and only if the mean is positive; otherwise both are zero |
| JainFairness.JainRange | simulation/parser/parse_dcn_spine_dl_util.py:86-87 | it lies in [1/n, 1]; it is 1 exactly if all values are equal, 1/n exactly if at most one is not zero |
| JainFairness.VarianceIs | simulation/parser/parse_dcn_spine_dl_util.py:80-81 | the variance is the mean of squares less the square of the mean |
| Cdf.GetCdfFromArray | simulation/fctAnalysis.py:10-34 | the loop with its open bucket, the final append and the dropped first entry return the specified table, or an index error |
| Cdf.TableMeaning | simulation/fctAnalysis.py:14-30 | keys increase, expanding the counts gives the sorted list, column three is the number k of values up to the key, column four is (k-1)/(n-1), and the last probability is 1 |
| Cdf.ScanIsRuns | simulation/fctAnalysis.py:15-30 | the loop's list is the runs, behind the empty bucket unless zeros were counted into it |
| Cdf.CompleteExactlyWhen | simulation/fctAnalysis.py:31-34 | the table is complete if and only if the least value is not zero, in particular for positive values |
| HistoryBlocks.IterBlocks | simulation/mix/split_history_by_topo_bufsz.py:34-61 | the nested index loops yield the specified blocks |
| HistoryBlocks.BlocksPartition | simulation/mix/split_history_by_topo_bufsz.py:34-61 | the blocks' lines are the file from its first data line on, without loss |
| HistoryBlocks.BlockShape | simulation/mix/split_history_by_topo_bufsz.py:47-59 | a block begins with a data line and contains no other |
| HistoryBlocks.BlockKeepsLines | simulation/mix/split_history_by_topo_bufsz.py:47-59 | a block keeps its raw lines but for the newlines and the blank lines at its end |
| HistoryBlocks.DataLineIsDated | simulation/mix/split_history_by_topo_bufsz.py:26 | a data line starts with three pairs of digits, slashes between them, and a comma |
| HistoryBlocks.ParseIntReads | simulation/mix/split_history_by_topo_bufsz.py:80-83 | a decimal number is read with or without a sign and with blanks on both sides |
| HistoryBlocks.TextInLines | simulation/mix/split_history_by_topo_bufsz.py:89-92 | in its file a block takes its data line, the lines that follow it, and one empty line |
| HistoryBlocks.InBucketAppend | simulation/mix/split_history_by_topo_bufsz.py:94 | buckets keep the input order |
| HistoryBlocks.SortIntoBuckets | simulation/mix/split_history_by_topo_bufsz.py:72-94 | every bucket holds the texts of its blocks in input order, and bucket sizes plus skipped are the number of blocks |
| HistoryBlocks.BucketReadsBack | simulation/mix/split_history_by_topo_bufsz.py:89-101 | reading a bucket's text again yields exactly its blocks |
| HistoryFiles.SortedKeys | simulation/mix/split_history_by_topo_bufsz.py:97 | the buckets in the order of their name tuples, each once |
| HistoryFiles.SplitHistory | simulation/mix/split_history_by_topo_bufsz.py:64-108 | the whole script: bucket sizes plus skipped are the number of blocks; the files are exactly those named by column 15, `__Lossless__bufsz_` or `__Lossy__bufsz_` by column 10, and column 24 of the blocks with 25 columns and a number in column 10; each file holds the text of the last bucket written to it; every bucket reads back from its file if and only if the names of the buckets with blocks differ, and then every block with a bucket is found in the file of its name |
| HistoryFiles.FileOfBlock | simulation/mix/split_history_by_topo_bufsz.py:76-98 | a block has a bucket if and only if it has 25 columns and a number in column 10, and the bucket's file has the name written out |
| HistoryFiles.FirstDifferenceDecides | simulation/mix/split_history_by_topo_bufsz.py:97 | names are ordered by their first difference |
| HistoryFiles.NothingLostExactlyWhen | simulation/mix/split_history_by_topo_bufsz.py:97-101 | in any directory so written, every bucket reads back if and only if the names of the buckets with blocks differ |
| HistoryFiles.PlainNamesDiffer | simulation/mix/split_history_by_topo_bufsz.py:29-31 | names differ for buckets without replaced characters whose topology has no double or final underscore |
| HistoryFiles.SameNameLosesBlocks | simulation/mix/split_history_by_topo_bufsz.py:29-101 | for any two buckets that fit into a line there is a history with both in which a block is lost if and only if their file names are the same |
| HistoryFiles.SpaceCollides | simulation/mix/split_history_by_topo_bufsz.py:29-101 | topologies `a b` and `a_b` lose a block: the one file, `a_b__Lossless__bufsz_1.txt`, holds only that of `a_b` |

## Left out

- WorkerPool.NoDeadlock: needs a worker or an empty suite; `StuckOnlyWithoutWorkers` shows that exactly this is needed.
- TestDriver.RunTests: is stated for at least one worker or an empty suite, for the same reason.
- TrafficLock.EveryoneFindsTheFile: says that the file exists, not that it is complete, because it may be half written; `PartialSeenExactlyWhen`, `LockedPathsSeeCompleteFile` and `PartialExactlyWhileWriting` say when.
- The lock protocol is a step relation only: each process is a sequence of file accesses, and there is no object of its own to update in place.
- Lock files left behind by a process that was killed, and file systems without atomic exclusive creation.
- In the test driver: launching commands, parsing their output, XML and HTML reports, and command-line options; a command's return code is a parameter of the step that ends it.
- Rounding of floats and the square root in the coefficient of variation: reals are exact, and the coefficient is kept squared.
- The powers 1/i^0.8 of the Zipfian weights: weights are any positive numbers, normalised where the source normalises them. Incast weights need not add up to one.
- MoeScaling.MoeRowTotals: is stated for positive `base_size` and at least two servers; without them nothing is sent at all (`MoeScaling.NoTraffic`).
- numpy's infinities and 0/0 for groups of one: a quotient that is never read is not formed, and a comparison with 0/0 is false.
- The `uniform`, `power2`, `linear` and `random` patterns, and the analyzer's `uniform` and `zipfian` branches: one expression per entry.
- The analyzer's congestion penalties, which multiply the ideal times by constants; the topology parser that supplies the bandwidth.
- Text is ASCII, without universal newlines; digits have no underscores between them; signed numbers in the message-size file are errors.
- Odd-k fat trees, which both programs refuse, and negative over-subscription factors. For trees other than the standard one `FatTree.PortTypesAgree` shows that the analysis is wrong.
- That the simulator numbers a node's interfaces 1, 2, ... in link order is assumed, as the scripts do; the simulator itself is not modelled.
- PFC logs are lists of parsed lines; pandas' unstable sort is modelled as the stable sort of the list-based parser. The mean, variance and overall summaries of pause durations per leaf, and the time and sample-count statistics of the downlink parser, are plain aggregates.
- The awk filter that produces the flow lists, and the formatting of a flow as a string and back between reordering and cutting: flows are pairs.
- In the CDF the open bucket is a list that is only shared once it is finished; buckets are values here.
- File names in the history directory are compared as they are: no file system that ignores case, and no limit on their length.
