# Verified model of the distributed-systems labs

The repository holds four components whose code decides real properties: a fault-tolerant
MapReduce, a versioned key/value store with a retrying client, a lock and its test programs, the
allocation of shards to groups, and a multiplexer for calls over one connection. This project
models each of them in Dafny and proves what it is for, over every input, every interleaving and
every loss pattern the program admits.

## How it is organised

**Shards** (`ShardAssignment`, `ShardOptimality`, `ShardConfig`). Assignments are sequences; a
specification says which assignment rebalancing reaches. The class updates its array and map in
place and is proved equal to that specification. The specification is then proved balanced, local
and optimal: no balanced assignment moves fewer shards. The number of shards is any N up to 256,
the bound at which the starting value 257 of `analyze` is sound.

**Key/value store** (`KvServer`, `KvLog`, `KvClerk`, `Lock`, `KvSystem`, `KvView`, `KvModel`, `KvModelMeaning`,
`Linearizability`, `Partition`, `StoreLinearizability`, `AppendClients`, `PutClients`, `LockClients`, `LockViolation`).
The server and the Clerk are classes. `KvSystem` interleaves any number of Clerks whose requests
or replies may be dropped; each RPC runs its handler at most once, before the call returns. The
client programs are state machines on top of that system, seen through each client's own view of
its RPC.

**MapReduce** (`MrSpec`, `MrSequential`, `MrTasks`, `MrCoordinator`, `MrWorker`, `MrSystem`,
`MrRefinement`, `MrDuplicates`, `MrCommit`, `MrSchedule`, `MrProgress`, `MrApps`). `IsOutput` says, without
naming a loop, what the right lines for a bag of pairs are. The sequential program and a worker's
reduce body both produce such lines. `MrSystem` interleaves requests, map and reduce executions
that may be repeated, late or abandoned, reports that arrive any number of times or never, and the
clock. Its coordinator steps are the functions of `MrTasks` that the classes of `MrCoordinator` are
proved to compute. Maps iterated in an unspecified order are iterated in an arbitrary order.

**Multiplexer** (`Demux`, `DemuxSystem`). The call map and the client are classes; the callers, the
reader, the server and a failing connection are interleaved steps. Tags wrap at 2^32.

`Collections`, `Grouping` and `Sorting` hold what the components share.

## Where the code and its documents differ

- A put at a version other than 0 of an absent key returns ErrNoKey, for which the repository's
  model of the store has no outcome. `FirstPutNotLinearizable` is a run of one put that shows it,
  `LinearizableIffFound` says exactly when a history is linearizable, and `KnownKeysLinearizable`
  what clients do to stay there.
- The lock excludes as long as no Release's Put returns ErrMaybe. Whatever kinds of message the
  network may lose, it excludes in all runs exactly when replies to Release's Puts are not among
  them: `ExclusiveIffReleasesKept`. `BothInside` is a run that loses one such reply, and nothing
  else, and ends with two holders.
- An input file named twice is mapped twice by the sequential program and once by the distributed
  one, and some application then makes a finished distributed run write other lines:
  `AgreeIffDistinct`.
- The answer to a request for a reduce task holds a pointer to the shared task record, which is
  encoded after the mutex was released (`Encode` in `MrSystem`). The file list is read late, and
  `ListsFrozen` is why that is harmless.

## Model

| member | source | states |
|---|---|---|
| ShardConfiguration.ShardConfig.constructor | lab1/src/shardkv1/shardcfg/shardcfg.go:44-49 | a new configuration has number 0, no groups and all shards on group 0 |
| ShardConfiguration.ShardConfig.CountShards | lab1/src/shardkv1/shardcfg/shardcfg.go:81-84 | the map counts every group's shards, absent meaning none |
| ShardConfiguration.ShardConfig.Analyze | lab1/src/shardkv1/shardcfg/shardcfg.go:80-111 | finds the most and least loaded member groups, ties to the smaller id; the starting value 257 is sound exactly while some group is below it |
| ShardConfiguration.ShardConfig.LeastGroup | lab1/src/shardkv1/shardcfg/shardcfg.go:115-118 | the least loaded group, or -1 when there is none |
| ShardConfiguration.ShardConfig.PlaceShards | lab1/src/shardkv1/shardcfg/shardcfg.go:132-138 | every shard on no member goes to the group least loaded at that moment, nothing else moves, and the stores are as many as the changed shards |
| ShardConfiguration.ShardConfig.MoveOne | lab1/src/shardkv1/shardcfg/shardcfg.go:142-152 | one turn of the move loop happens exactly when two loads are at least 2 apart, and lowers the sum of squared loads |
| ShardConfiguration.ShardConfig.MoveFirst | lab1/src/shardkv1/shardcfg/shardcfg.go:147-152 | the first shard of the giving group, and no other, changes |
| ShardConfiguration.ShardConfig.MoveShards | lab1/src/shardkv1/shardcfg/shardcfg.go:141-153 | the move loop ends at the settled assignment and stores no shard twice |
| ShardConfiguration.ShardConfig.Rebalance | lab1/src/shardkv1/shardcfg/shardcfg.go:122-154 | terminates for any groups and any N up to 256 with exactly the specified assignment, every shard on 0 when there is no group, reassigning each changed shard once and no other |
| ShardAssignment.MoveLowersLoadSum | lab1/src/shardkv1/shardcfg/shardcfg.go:141-153 | the termination measure: a move between loads 2 apart strictly lowers the sum of squared loads |
| ShardAssignment.MoveKeeps | lab1/src/shardkv1/shardcfg/shardcfg.go:141-153 | every move takes a shard that had not moved, from a group that never received to one that never gave |
| ShardAssignment.RebalancedIsFair | lab1/src/shardkv1/shardcfg/shardcfg.go:122-154 | from any shards and any non-empty groups: every shard on a member, loads at most one apart, and only explained moves |
| ShardOptimality.RebalanceIsOptimal | lab1/src/shardkv1/shardcfg/shardcfg.go:120-154 | no valid balanced assignment to the same groups changes fewer shards |
| ShardOptimality.NoGroupReceivesAndGives | lab1/src/shardkv1/shardcfg/shardcfg.go:131-153 | no group both receives and gives a shard |
| ShardOptimality.BalancedIsFixed | lab1/src/shardkv1/shardcfg/shardcfg.go:131-153 | a valid balanced assignment is left untouched |
| ShardOptimality.JoinIsLocal | lab1/src/shardkv1/shardcfg/shardcfg.go:207-213 | from a balanced start a join moves shards only onto joining groups |
| ShardOptimality.LeaveIsLocal | lab1/src/shardkv1/shardcfg/shardcfg.go:215-221 | from a balanced start a leave that keeps some group moves only departed groups' shards |
| ShardConfiguration.ShardConfig.CheckServers | lab1/src/shardkv1/shardcfg/shardcfg.go:164-172 | detects exactly a server shared with a present group |
| ShardConfiguration.ShardConfig.Join | lab1/src/shardkv1/shardcfg/shardcfg.go:156-183 | true if and only if the joining groups are new, at least one, and share no server with another group; then all are added and the number rises; refused only for a group that is there, and always if all are; fatal only for no group or a shared server; which groups a failed join left added |
| ShardConfiguration.ShardConfig.Leave | lab1/src/shardkv1/shardcfg/shardcfg.go:185-205 | true if and only if the ids are at least one, distinct and present; then exactly they are removed; a refusal leaves the ids before the first bad one removed |
| ShardConfiguration.ShardConfig.JoinBalance | lab1/src/shardkv1/shardcfg/shardcfg.go:207-213 | a join then a rebalance; from a balanced configuration only joining groups receive shards |
| ShardConfiguration.ShardConfig.LeaveBalance | lab1/src/shardkv1/shardcfg/shardcfg.go:215-221 | a leave then a rebalance; from a balanced configuration only departed groups' shards move, and every shard is on 0 once no group is left |
| KvTypes.Server.Handle | lab1/src/kvsrv1/server.go:40-77 | a put is OK exactly when it applies, an applied put sets the value and raises the version by one, anything else leaves the store as it was |
| KvServer.KVServer.Get | lab1/src/kvsrv1/server.go:40-52 | ErrNoKey exactly for an absent key, otherwise value and version |
| KvServer.KVServer.Put | lab1/src/kvsrv1/server.go:58-77 | a per-key compare-and-swap on the version, with each error's exact condition and no change on error |
| KvClerk.Network.Call | lab1/src/labrpc/labrpc.go:298-354 | the requests of others that come first run in their order; a dropped request then runs nothing, a dropped reply and a delivered one run the handler once more, for this request, and only a delivered one is answered, by that run |
| KvClerk.Clerk.Resend | lab1/src/kvsrv1/client.go:33-39 | calls are made up to the first answered one and no further, each running what its fate says; the result is the answer of that call, None if there is none |
| KvClerk.Clerk.Get | lab1/src/kvsrv1/client.go:33-39 | the result is the store's answer at the run of the first answered call |
| KvClerk.Clerk.FirstCall | lab1/src/kvsrv1/client.go:60-62 | an answered first call returns the error of its run as it is, and settles whether the put was applied |
| KvClerk.Clerk.ResendPut | lab1/src/kvsrv1/client.go:64-71 | after resends the error of the run that answered is returned, with ErrMaybe for ErrVersion: OK still means applied exactly once, ErrNoKey never |
| KvClerk.Clerk.Put | lab1/src/kvsrv1/client.go:58-72 | returns the error of the run of the first answered call, as it is if that was the first call and with ErrMaybe for ErrVersion otherwise; OK: applied exactly once, by that run; ErrVersion, ErrNoKey: never applied; ErrMaybe: at most once; not applied at all if every request was lost |
| KvLog.SameVersionSameValue | lab1/src/kvsrv1/server.go:63-76 | while a key's version stays, so does its value |
| KvLog.OneWritePerVersion | lab1/src/kvsrv1/server.go:63-76 | at most one write is ever applied for a key and version |
| KvLog.AppliedThenRefused | lab1/src/kvsrv1/server.go:63-76 | a request that was applied can afterwards only be refused with ErrVersion |
| KvLog.ResentPut | lab1/src/kvsrv1/client.go:58-72 | however often a put is resent it is applied at most once, and its last reply says whether it was |
| KvSystem.TraceInv | lab1/src/labrpc/labrpc.go:298-354 | the invariant of every interleaving of Clerks under any losses |
| KvSystem.PutOutcomes | lab1/src/kvsrv1/client.go:58-72 | what each outcome of a Put says about how often its write was applied, in every run |
| KvSystem.PutReturns | lab1/src/kvsrv1/client.go:58-72 | in every run a Put returns the answer of its last run, ErrMaybe standing for ErrVersion exactly if a message of it was lost |
| KvSystem.NoLossNoMaybe | lab1/src/kvsrv1/client.go:64-69 | without losses no Put returns ErrMaybe |
| KvView.NextView | lab1/src/kvsrv1/client.go:58-72 | every step of the system is one step of the acting client's own view and changes no other client's |
| KvModelMeaning.GetAccepted | lab1/src/models1/kv.go:56-58 | a get is accepted if and only if its value is the one the server's handler returns, and changes nothing |
| KvModelMeaning.PutAccepted | lab1/src/models1/kv.go:59-65 | a put is accepted if and only if its error is ErrMaybe or the handler's, with ErrVersion for the handler's ErrNoKey, and the next state is the handler's |
| KvModelMeaning.OthersRejected | lab1/src/models1/kv.go:66-67 | no other operation is accepted |
| KvModelMeaning.AcceptedIff | lab1/src/models1/kv.go:46-69 | a history on one key is accepted if and only if every get returned the value of the last put before it that was made at the version of the key, or the empty string, and every put that was so made is OK or ErrMaybe and every other ErrVersion or ErrMaybe |
| KvModelMeaning.LinearizableMeans | lab1/src/models1/kv.go:46-69 | linearizability of a key's history, said through those answers instead of the model |
| Linearizability.LinearizableIff | lab1/src/models1/kv.go:46-69 | in every run a key's history has an order that respects real time and that the model accepts, if and only if no put on it returned ErrNoKey |
| Linearizability.LinearizableIffFound | lab1/src/kvsrv1/server.go:68-73 | the same condition as the guard of the refusal: no put at a version other than 0 was last run while the key was absent |
| Linearizability.FirstPutNotLinearizable | lab1/src/models1/kv.go:59-65 | from any start, one undisturbed put at a version other than 0 gives a history that is not linearizable |
| Linearizability.KnownKeysLinearizable | lab1/src/models1/kv.go:46-69 | clients that use versions other than 0 only for keys already written have linearizable histories, whatever is lost |
| Partition.SortedKeys | lab1/src/models1/kv.go:35-39 | the keys, collected in any order, come out ascending and complete |
| Partition.Partition | lab1/src/models1/kv.go:29-45 | one part for each key in ascending order, each part the key's operations in history order, all parts together a permutation of the history |
| Partition.PartsPermute | lab1/src/models1/kv.go:29-45 | the parts on all keys are a permutation of the history |
| Partition.PartitionSound | lab1/src/models1/kv.go:46-69 | a store of many keys accepts a sequential history if and only if the model accepts every part |
| StoreLinearizability.StoreLinearizableIff | lab1/src/models1/kv.go:46-69 | the whole history, over all keys at once, has one order that respects real time, that a store of many keys accepts and in which every read also returned the version at its point, if and only if no put returned ErrNoKey |
| AppendClients.Tally | lab1/src/kvtest1/kvtest.go:373-389 | accepts exactly the lists with no entry older than expected, and computes what is expected of and skipped by each client |
| AppendClients.CheckAppends | lab1/src/kvtest1/kvtest.go:372-401 | passes exactly the lists whose numbers increase for each client, skip no more than its ErrMaybes, stay below OK plus ErrMaybe, and whose length fits the version |
| AppendClients.InOrderIncreases | lab1/src/kvtest1/kvtest.go:335-337 | in an accepted list each client's numbers strictly increase |
| AppendClients.RunInv | lab1/src/kvtest1/kvtest.go:338-363 | in every interleaving the shared list has one entry for each version and each client's part in it |
| AppendClients.FinishedRunPasses | lab1/src/kvtest1/kvtest.go:338-401 | the check accepts every finished run of appending clients over the lossy Clerk |
| AppendClients.AloneAppends | lab1/src/kvtest1/kvtest.go:341-361 | from every state of a run, a client between two operations that is left alone has its next entry at the end of the list and counts an OK |
| PutClients.CheckPutConcurrent | lab1/src/kvtest1/kvtest.go:140-150 | sums the counts and compares a given version with them, exactly on a reliable network and as a bound otherwise |
| PutClients.RunInv | lab1/src/kvtest1/kvtest.go:219-238 | in every interleaving the version is the number of writes the clients have made, counted or under way |
| PutClients.PutAccounting | lab1/src/kvtest1/kvtest.go:137-151 | after every finished run the version is the OKs plus the applied ErrMaybes, so at most OK plus ErrMaybe, and exactly OK without losses |
| PutClients.NoFatalError | lab1/src/kvtest1/kvtest.go:219-238 | no client is ever stopped: no put is answered ErrNoKey, every read back finds the key, and after an OK a read at the version put reads the client's own stamp |
| PutClients.AlonePuts | lab1/src/kvtest1/kvtest.go:219-238 | from every state of a run, a client between two puts that is left alone has a put answered OK within two rounds |
| Lock.OverwritesWhatItRead | lab1/src/kvsrv1/lock/lock.go:38-58 | no stale read wins: a put that is OK at the version read overwrites the very value read |
| Lock.Lock.Turn | lab1/src/kvsrv1/lock/lock.go:40-45 | a turn of either loop succeeds only by its own applied put, over an absent key or the value it waits for; undisturbed it succeeds exactly then; it touches no other key and puts no other value |
| Lock.Lock.Acquire | lab1/src/kvsrv1/lock/lock.go:38-47 | returns only when its own put of "held" has just been applied over a free or absent lock; undisturbed, a free or absent lock is acquired |
| Lock.Lock.Release | lab1/src/kvsrv1/lock/lock.go:49-58 | returns only when its own put of "free" has just been applied over a held or absent lock; undisturbed, a held lock is released |
| LockClients.VersionDeterminesValue | lab1/src/kvsrv1/lock/lock.go:38-58 | in every run, lossy or not, the lock is held exactly at odd versions, so a version determines the value |
| LockClients.MutualExclusion | lab1/src/kvsrv1/lock/lock.go:38-58 | while no Release's Put has returned ErrMaybe, at most one client is between a returned Acquire and its applied Release put |
| LockClients.ReleaseNotRefused | lab1/src/kvsrv1/lock/lock.go:49-58 | the holder's version cannot move under it: its Release put is OK |
| LockClients.RunCertain | lab1/src/kvsrv1/lock/lock.go:49-58 | if no reply to a Release's Put is dropped, none returns ErrMaybe |
| LockViolation.BothInside | lab1/src/kvsrv1/lock/lock.go:49-58 | from any fresh lock and any two clients, a run that loses exactly one message, the reply to a Release's Put, and ends with both inside |
| LockViolation.ExclusiveIffReleasesKept | lab1/src/kvsrv1/lock/lock.go:38-58 | for two clients or more and any choice of the kinds of message the network may lose, the lock excludes in all runs if and only if replies to Release's Puts are not among them |
| Grouping.GroupBy | lab1/src/mr/worker.go:130-132 | each key's group is its elements in order, for exactly the keys that occur |
| Sorting.AtMostMeans | lab1/src/main/mrsequential.go:34-34 | the order of keys: a beginning, or the smaller character at the first difference, comes first |
| MrSpec.OutputUnique | lab1/src/main/mrsequential.go:85-101 | for an application that ignores value order, the right output is unique up to the order of its lines |
| MrSequential.Sequential | lab1/src/main/mrsequential.go:51-104 | succeeds exactly when every file is readable, and then writes the right output for all the pairs of all the files, in ascending order of keys |
| MrSequential.Scan | lab1/src/main/mrsequential.go:85-101 | reduce is called exactly once for each distinct key, with exactly that key's values, and the lines ascend by key |
| MrSequential.RunIsKey | lab1/src/main/mrsequential.go:86-90 | in sorted pairs a maximal run holds all the pairs of its key |
| MrCoordinator.TaskManager.constructor | lab1/src/mr/map_task_manager.go:18-32 | every id is pending and nothing was handed out |
| MrCoordinator.TaskManager.GetPendingTask | lab1/src/mr/map_task_manager.go:34-52 | a pending id, and only if none is pending one assigned more than ten seconds ago; none exactly when there is neither |
| MrCoordinator.TaskManager.AssignTask | lab1/src/mr/map_task_manager.go:54-65 | stamps an id that is known and not completed, and no other |
| MrCoordinator.TaskManager.CompleteTask | lab1/src/mr/reduce_task_manager.go:65-75 | completes a known id, and no other |
| MrCoordinator.TaskManager.IsTaskCompleted | lab1/src/mr/map_task_manager.go:79-84 | true exactly for a known, completed id |
| MrCoordinator.TaskManager.AllCompleted | lab1/src/mr/map_task_manager.go:86-93 | true exactly when every id is completed |
| MrCoordinator.Coordinator.constructor | lab1/src/mr/coordinator.go:173-188 | the initial state for the files and the number of buckets |
| MrCoordinator.Coordinator.Register | lab1/src/mr/coordinator.go:35-48 | worker ids count up from 1 |
| MrCoordinator.Coordinator.AssignTask | lab1/src/mr/coordinator.go:50-87 | map tasks before reduce tasks, nothing when none is due, and only the handed-out one changes |
| MrCoordinator.Coordinator.AddFile | lab1/src/mr/reduce_task_manager.go:93-102 | a known list grows by one file, an unknown id changes nothing |
| MrCoordinator.Coordinator.AddFiles | lab1/src/mr/coordinator.go:110-112 | whatever the order of the report's buckets, each known one's list grows by its file and no other list changes |
| MrCoordinator.Coordinator.ReportMapTask | lab1/src/mr/coordinator.go:89-115 | only the first report of a map task completes it and adds its files |
| MrCoordinator.Coordinator.ReportReduceTask | lab1/src/mr/coordinator.go:117-139 | only the first report of a reduce task counts |
| MrCoordinator.Coordinator.Done | lab1/src/mr/coordinator.go:157-171 | true exactly when all map and all reduce tasks are completed |
| MrWorker.FileStore.WriteKeyValues | lab1/src/mr/util.go:220-236 | the pairs are under a new name, all other files as before |
| MrWorker.FileStore.MapTask | lab1/src/mr/worker.go:111-144 | a fresh file for each bucket with pairs, holding exactly the emitted pairs whose key's hash leaves that remainder; nothing at all when the input is unreadable |
| MrWorker.FileStore.ReadFiles | lab1/src/mr/worker.go:174-184 | the files' pairs in order, an unreadable file counting as empty |
| MrWorker.ReduceAll | lab1/src/mr/worker.go:186-198 | hash grouping yields the right output: reduce once for each key with exactly its values, in any key order |
| MrWorker.FileStore.ReduceTask | lab1/src/mr/worker.go:164-212 | the output file becomes the right output for the listed files, other output files stay |
| MrSystem.DeliverMapInv | lab1/src/mr/coordinator.go:99-112 | once all maps are completed a late or repeated report changes nothing at all |
| MrSystem.RunInv | lab1/src/mr/coordinator.go:50-139 | the invariant of every run: completed maps are those with an accepted report, lists are the accepted files, output files are right for their lists |
| MrRefinement.ListIsBucket | lab1/src/mr/worker.go:130-142 | a reduce task's list holds exactly the pairs, of all accepted map tasks, whose key's hash leaves its number as the remainder |
| MrRefinement.OutputsByHash | lab1/src/mr/worker.go:130-142 | in every reachable state each line of mr-out-r is of a key whose hash leaves the remainder r |
| MrRefinement.DoneIsRight | lab1/src/mr/coordinator.go:157-171 | when Done, every input was readable, every mr-out file is there, and together they are the right output for each input file taken once |
| MrRefinement.RunMatchesSequential | lab1/src/main/mrsequential.go:51-101 | end to end: for distinct files and an order-blind application, every run that reaches Done wrote, over all mr-out files, the multiset of lines the sequential program writes |
| MrDuplicates.RunCountsOnce | lab1/src/mr/map_task_manager.go:26-29 | a finished distributed run of a call-counting application counts each input name once |
| MrDuplicates.AgreeIffDistinct | lab1/src/mr/map_task_manager.go:26-29 | for readable files and any number of buckets, every finished distributed run of every order-blind application writes the sequential program's lines if and only if no input file is named twice |
| MrCommit.CommitsAreFirst | lab1/src/mr/coordinator.go:99-112 | the accepted reports are the first delivered report of each map task |
| MrCommit.CommitIsAtomic | lab1/src/mr/coordinator.go:99-112 | in every reachable state the lists are exactly the files of those first reports, each in its own bucket, no file twice, and a map is completed exactly when a report of it arrived |
| MrCommit.ListsFrozen | lab1/src/mr/coordinator.go:60-79 | once a reduce task has been handed out no list changes again |
| MrSchedule.IncompleteShrinks | lab1/src/mr/coordinator.go:99-136 | completed is absorbing: only reports change which tasks are incomplete, each taking out its own |
| MrSchedule.CompletedForGood | lab1/src/mr/coordinator.go:99-136 | over a whole run a completed map or reduce task stays completed, and ever fewer are left |
| MrSchedule.HandoutsSpaced | lab1/src/mr/map_task_manager.go:45-49 | two hand-outs of one task are more than ten seconds apart |
| MrSchedule.Progress | lab1/src/mr/coordinator.go:60-79 | while not Done, once the timeout has passed every request is answered with an incomplete task of the current phase |
| MrSchedule.OutputStays | lab1/src/mr/worker.go:174-214 | re-executing a reduce task, however interleaved, writes the same multiset of lines |
| MrSchedule.DoneIsFinal | lab1/src/mr/coordinator.go:157-171 | once Done, always Done, with the same output files and the same lines in each |
| MrProgress.Finish | lab1/src/mr/coordinator.go:50-171 | from every reachable state with readable inputs there is a continuation, by timeouts, hand-outs, executions and reports, that ends with Done |
| MrProgress.CanFinishIff | lab1/src/mr/worker.go:121-125 | whatever was lost, repeated or abandoned, the job can still be finished if and only if every input file is readable |
| MrApps.ItoaInjective | lab1/src/mrapps/wc.go:40-43 | different counts are written differently |
| MrApps.ItoaWrites | lab1/src/mrapps/wc.go:40-43 | the digits written stand for the number, without leading zeros |
| MrApps.CountMap | lab1/src/mrapps/wc.go:22-35 | one pair for each word, in order, with value "1" |
| MrApps.WordCountBlind | lab1/src/mrapps/wc.go:40-43 | word count's reduce ignores the order of values |
| MrApps.CountLines | lab1/src/mrapps/wc.go:40-43 | the right output has one line for each word of the files, with the number of times it occurs |
| MrApps.DistributedWordCount | lab1/src/mrapps/wc.go:22-43 | every finished distributed word count, whatever happened in it, has counted the words |
| MrApps.IndexMap | lab1/src/mrapps/indexer.go:22-33 | one pair for each distinct word of the document, in any order |
| MrApps.SortedUnique | lab1/src/mrapps/indexer.go:39-39 | a multiset of strings has one sorted listing |
| MrApps.JoinSplits | lab1/src/mrapps/indexer.go:38-41 | what was joined with a separator is split off again at it, for pieces without the separator |
| MrApps.IndexReduce | lab1/src/mrapps/indexer.go:38-41 | sort then join computes the index line of the values |
| MrApps.IndexBlind | lab1/src/mrapps/indexer.go:38-41 | the index line does not depend on the order in which values arrive |
| MrApps.IndexLines | lab1/src/mrapps/indexer.go:22-41 | the right output has a line for each word of the files and for no other, with the number and the ordered list of the files it is in |
| MrApps.DistributedIndex | lab1/src/mrapps/indexer.go:22-41 | every finished distributed indexing, whatever happened in it, has indexed the words |
| Demux.CallMap.Put | lab1/src/tester1/demux/callmap.go:34-43 | refused exactly when closed, otherwise the tag leads to the channel |
| Demux.CallMap.Remove | lab1/src/tester1/demux/callmap.go:45-54 | hands out the tag's channel and forgets it, or nothing |
| Demux.CallMap.Close | lab1/src/tester1/demux/callmap.go:19-25 | closed, with the outstanding calls kept |
| Demux.CallMap.Outstanding | lab1/src/tester1/demux/callmap.go:56-65 | every tag in the map once, in any order |
| Demux.DemuxClnt.constructor | lab1/src/tester1/demux/dmxclnt.go:34-47 | an empty map, and tag 0 spent on the opening message |
| Demux.DemuxClnt.Tag | lab1/src/tester1/demux/dmxclnt.go:49-56 | tags count up and wrap at 2^32 |
| Demux.DemuxClnt.Answer | lab1/src/tester1/demux/dmxclnt.go:58-64 | one send on the tag's channel, or the fatal exit exactly when the tag is unknown |
| Demux.DemuxClnt.Drain | lab1/src/tester1/demux/dmxclnt.go:69-81 | never fatal, the map ends closed and empty, and the sends are one failure for each outstanding call |
| Demux.OneFailureEach | lab1/src/tester1/demux/dmxclnt.go:76-80 | a drain sends each outstanding channel exactly one failure and no other channel any |
| DemuxSystem.RunInv | lab1/src/tester1/demux/dmxclnt.go:58-101 | the invariant of every run: a blocked caller is in the map under its own tag or being handed its result, never both |
| DemuxSystem.OwnReplies | lab1/src/tester1/demux/dmxclnt.go:58-81 | the reader never meets an unknown tag, and a call returns a failure or the server's answer to that very call |
| DemuxSystem.ReturnsOnce | lab1/src/tester1/demux/dmxclnt.go:83-101 | a call's one result never changes |
| DemuxSystem.HealthyNeverFails | lab1/src/tester1/demux/dmxclnt.go:83-101 | no call fails while no read has failed and nobody has closed the connection |
| DemuxSystem.CallSucceeds | lab1/src/tester1/demux/dmxclnt.go:83-101 | on an open connection a new call that nothing goes wrong with returns the server's answer |
| DemuxSystem.NobodyLeft | lab1/src/tester1/demux/dmxclnt.go:69-81 | once the reader has drained, the map is empty and stays empty and no caller is blocked |
| DemuxSystem.DrainKeepsOn | lab1/src/tester1/demux/dmxclnt.go:76-80 | no step of anyone sets the drain back, and its next step brings it forward |
| DemuxSystem.DrainCanGoOn | lab1/src/tester1/demux/dmxclnt.go:76-80 | the drain's next step is always possible |
| DemuxSystem.DrainFinishes | lab1/src/tester1/demux/dmxclnt.go:69-101 | from any state of the drain its own steps reach a state where every blocked caller has returned |

## Left out

- Raft, the replicated state machine, kvraft, the shard controller, shard groups and their client: their bodies are stubs.
- Sockets, gob and JSON encoding, reflection, plugins, logging and process control: an RPC is a step, and encoding and decoding are the identity, so values the test clients store are kept decoded.
- labrpc's delays, reordering and dead or disabled endpoints: there a handler may run after the call has failed.
- Files: a map from names to contents, with successful reads of existing files and each output file written in one step; write errors and half-written outputs are not modelled.
- The hash functions of keys are parameters with non-negative results, and splitting a text into words is a parameter.
- KvClerk.Clerk.Get: the loop is over a finite script of losses and interleaved requests, and None stands for a Clerk that is still retrying when the script ends; the same for Clerk.Put and the loops of the lock.
- The client programs OnePut, OneClientPut and OneClientAppend, and the lock's callers, are state machines with a program counter rather than loops, because the other clients interleave at every RPC; put clients use one key.
- AppendClients.CheckAppends: takes lists whose ids name a client and one result for each client; the program stops with an index out of range on others. Stopping the test is a false result.
- PutClients.CheckPutConcurrent: takes the version as an argument instead of reading it through a Clerk.
- Versions are unbounded, without the wrap-around of 64-bit numbers.
- ShardConfiguration.ShardConfig.Rebalance: for at most 256 shards, where the program has 12; above 256 the starting value 257 is no longer sound, as Analyze states.
- Copy, String, GidServers, IsMember and CheckConfig of a shard configuration, and the getters of the task managers that count or test.
- MrCoordinator.TaskManager.GetPendingTask: both managers are one generic class, and their tasks and statusMap maps, which have the same keys, are one map; the reduce tasks' file lists are a map of the Coordinator.
- A worker's own loop of registering, asking and retrying three times: any number of requests, executions and reports is allowed, in any order.
- MrApps.IndexReduce: the argument is a value, so that sorting it in place is not visible to the caller, which in the program does not use it again.
- Liveness of the lock. For MapReduce it is proved that Done stays reachable, not that a fair schedule reaches it.
- DemuxSystem.OwnReplies: assumes fewer than 2^32 tags between the oldest outstanding call and the next one, and a server that answers each request at most once, as the server side of the connection does.
- The server side of the multiplexer, and the transport's framing.
