# A verified model of the course infrastructure

The labs of this repository run on supplied infrastructure whose correctness
rests on arguments that its comments only hint at: an online
consistency checker, a simulated network with crashes and restarts, an
apply-log check, shard-map workflows, and three small algorithmic cores. This
project models that infrastructure in Dafny 4.11 and proves what it is for.
Run `dafny verify dfyconfig.toml` to check everything.

| files | models |
|---|---|
| `Checker`, `WriteHistory`, `CheckerProtocol`, `CheckerSoundness`, `StressTester` | the consistency checker, and the stress test around it |
| `Persister`, `Labrpc`, `Wiring`, `RaftConfig` | the persister, the network's tables and the harness's control of servers, on the heap |
| `CrashProtocol`, `CrashSafety`, `CrashIsolation`, `CrashWitness` | requests racing with crashes and restarts; instances that were superseded and still save; a run to which all of it applies |
| `RequestPath` | the same requests on the heap, through the network's tables |
| `ApplyLog` | the check of what servers apply |
| `ShardMap`, `ShardWorkflows`, `ListenerBarrier`, `Stripe` | shard maps: validity, edits, moves and drains, notification of listeners, generation |
| `TypeWalk` | the encoder's walk over types |
| `Base64`, `Base64Codes`, `Bcrypt` | printing, parsing and comparing deterministic bcrypt hashes |

**Form.** What the program changes in place is a class here, and its methods
are proved to act as functions over values say; the lemmas are about those
functions. What the program leaves to many goroutines (requests against
crashes, Sets against Gets, updates against listeners) is a state machine
whose actions are the critical sections, in any interleaving; the theorems
speak of every state of every run, of any length. Clocks, random choices, end names and the
answers of servers are parameters or free choices.

**Consistency checker.** The world around the checker is one clock, any number
of keys, and for each key any number of replicas, Sets and Gets. The
assumptions are those of the stress test: hosts are fixed, nothing is deleted,
values are never written twice to a key (a duplicate makes the program panic,
so such a step does not exist), a write touches replicas only between its
BeginWrite and CompleteWrite, a successful one touches all of them before it
returns, a failed one any of them, and a replica serves what it was last given
until that is older than the time to live. Under them:

* a value read from a replica is never called incorrect; it can be called
  expired iff expiry is checked with a negative tolerance and the time to live is
  not negative (`ExpiryExact`);
* the version and pending counters decide exactly whether another write
  overlapped a write or a read;
* a read that finds nothing can be reported, wrongly, only while no write to
  its key has succeeded: `FailedWriteMisleads` gives the run (one failed write
  that reached nobody, then a read), and `NotFoundExact` says exactly when it
  happens. So "no false positives" is not true without that hypothesis.

Conversely, `VerdictExact` says what is reported, for an arbitrary answer that no
replica need have given: an undisturbed read of a value that was replaced, or never
written, is always reported, and so is one of an expired value; everything the
checker says follows from the history of writes on the key.
`StressTester.Tester.Do` and `CheckAnswer` carry these results over to the checker object.

**Crashes.** A request that was answered with true had its handler finish while
its server object was still registered; since the harness deletes the server
before it copies the persister, everything the handler saved is in the copy.
Saves carry a serial number and the instance that made them. So `AckedSavesSurvive`
says of every persister that matters later: its state is that of the acknowledged
save or a later one, so is its snapshot if the save carried one, and the saves
since then are, in order, by the answering instance and newer ones of that server.
`RestartedFromOwn` says that the next instance starts from a save of the answering
instance itself. What makes this true is isolation: instances are never killed,
but from the crash's copy on an old one saves to a persister nobody else has
(`CrashSupersedes`, `SupersededHarmless`), and the bytes the harness keeps for a
server change only by a save of its newest instance (`OnlyNewestChanges`).
`RequestLaws` and `DriverLaws` state what every step decides, both ways, so that a
reply that has arrived does go out unless the server is dead or the network drops it;
`CrashWitness.CallSucceeds` is a run with an answered call, a restart and a save by
the superseded instance.
Enabling, connecting and the network's reliability may change arbitrarily at any
time in this machine, which covers every schedule of `connect` and `disconnect`;
`Wiring` and `RaftConfig` say what those two calls do. `RequestPath` proves that
the tables of the network and the local variables of a request, with server
objects compared by identity, do what the machine's actions say.

**Where code and comments disagree** the code is modelled.

* `UpdateShardMapping` updates twice to wait for the first update to have been
  processed. At its return an open listener has completed a handler run that began
  after the map was published iff it was registered when the first round took its
  lock, or its server's constructor (which runs the handler itself) has returned, or
  its loop has completed any run: `DoubleUpdateExact`. For a caller: every server
  registered when the call began, or whose `MakeKvServer` has returned, is covered
  (`DoubleUpdateIsBarrier`). A server that registers between the rounds and is still
  in its constructor is not (`LateListenerUncovered`); if it was there for the second
  round, its loop has at least begun a run (`SecondRoundBegun`).
* bcrypt's base64 puts back four padding characters when none is missing, so
  decoding undoes encoding iff the length is not a multiple of three. The
  lengths bcrypt uses, 16 and 23, are not.
* The applier's comment says it keeps reading after an error; `log.Fatalf` has
  ended the program by then, so `applyErr` is never set. The apply-log theorems
  hold of the messages up to the first error and, a fortiori, of a check that went on.
* A parsed hash need not print to itself: separators and length are not checked,
  and a '+' may stand for the first digit of the cost. `ParsePrint` says exactly
  which hashes do.
* `addReplicasForShard` does not check the documented conditions on its requested
  nodes: it takes unknown ones, takes more than it was asked to add, and panics if
  they are more than there are nodes left (`AddReplicas`).
* A move whose source does not host the shard fails after the copy on the
  destination has been published (`MoveShard`).

## Model

| member | source | states |
|---|---|---|
| Checker.ConsistencyChecker.constructor | lab4/checker/checker.go:100-107 | every key starts with version 0, no pending write and no value |
| Checker.ConsistencyChecker.BeginWrite | lab4/checker/checker.go:109-118 | one more pending write on this key, its version returned, other keys untouched; nothing at all when checking is off |
| Checker.Retire | lab4/checker/checker.go:152-157 | the loop moves every current value into the overwritten ones, keeping those already there |
| Checker.ConsistencyChecker.ReplaceValues | lab4/checker/checker.go:151-158 | the new entry becomes the only candidate, all former candidates are overwritten, other keys untouched |
| Checker.ConsistencyChecker.CompleteWrite | lab4/checker/checker.go:120-168 | the new state of the key, in both branches; the panic on a duplicate value, with nothing changed; other keys untouched |
| Checker.ConsistencyChecker.BeginRead | lab4/checker/checker.go:170-177 | returns version and whether writes are pending |
| Checker.ScanExpiry | lab4/checker/checker.go:195-204 | the loop finds whether some candidate may have expired, and collects exactly the others |
| Checker.ConsistencyChecker.CheckReadCorrect | lab4/checker/checker.go:179-224 | the verdict for every combination of skipped, not found, unknown, overwritten and expired (what it means is `VerdictExact`); counts a check unless skipped, modulo 2^64 |
| WriteHistory.AloneExact | lab4/checker/checker.go:151 | in any history of write intervals: no other write overlapped this one iff no write completed since it began and it alone is pending |
| WriteHistory.QuietExact | lab4/checker/checker.go:187 | no write was under way since a position iff the three counter tests of the skip test all say so |
| WriteHistory.LiveAppend | lab4/checker/checker.go:151-164 | how one completion changes the values no later unoverlapped success replaced, and the replaced ones |
| CheckerProtocol.UnrivalledExact | lab4/checker/checker.go:109-118 | for a pending write, the saved version equals the current one and one write is pending iff no other write overlapped it |
| CheckerProtocol.SeeExplained | lab4/checker/checker.go:193-222 | what a read sees of any replica while no write is pending is explained by the candidates and their expiry windows |
| CheckerProtocol.StepKeeps | lab4/cmd/stress/tester.go:146-195 | every step of a Set, a Get or a replica keeps the invariant that ties counters, candidates and replicas to the history |
| CheckerSoundness.RunInv | lab4/cmd/stress/tester.go:146-195 | that invariant holds for every key in every world of every run |
| CheckerSoundness.ValueSound | lab4/checker/checker.go:209-217 | a read that returned what a replica held is never reported as an incorrect value |
| CheckerSoundness.ExpirySound | lab4/checker/checker.go:135-141 | a served value is reported as expired only if expiry is checked, under a negative tolerance, given the order in which the tester reads its clock |
| CheckerSoundness.ExpiryExact | lab4/checker/checker.go:218-221 | some run reports a served value as expired iff expiry is checked, the tolerance is negative and the time to live is not |
| CheckerSoundness.NotFoundExact | lab4/checker/checker.go:193-207 | a read that found nothing is reported iff it was undisturbed, its replica never held the key, no write has succeeded, and all candidates are unexpired |
| CheckerSoundness.NoFalsePositive | lab4/checker/checker.go:179-224 | once some write to the key has succeeded, no read is ever reported |
| CheckerSoundness.FailedWriteMisleads | lab4/checker/checker.go:159-164 | without that hypothesis there is a run in which a genuine not-found is reported |
| CheckerSoundness.WriteTestExact | lab4/checker/checker.go:143-151 | in every run, a write replaces the candidates iff it succeeded and no other write on the key overlapped it |
| CheckerSoundness.ReadTestExact | lab4/checker/checker.go:186-189 | in every run, a read is skipped iff some write on the key was under way since its BeginRead |
| CheckerSoundness.VerdictExact | lab4/checker/checker.go:179-224 | for any answer handed in, right or wrong, in any run: nothing if a write was under way since BeginRead; otherwise "overwritten" iff a clean write replaced the value, "never written" iff no completed write had it, "expired" iff its successful write ended too long before; a not-found iff some value is live and none may have expired |
| CheckerSoundness.StateIsHistory | lab4/checker/checker.go:84-98 | version counts completed writes, rc pending ones; candidates and overwritten values are the live and dead values of the history, disjoint, and add up to the version |
| CheckerSoundness.OverwrittenForever | lab4/checker/checker.go:152-158 | an overwritten value stays overwritten and is never a candidate again |
| CheckerSoundness.ReplicasExplained | lab4/checker/checker.go:120-168 | what a replica holds is being written by a pending Set of that value or is a candidate |
| StressTester.Tester.constructor | lab4/cmd/stress/tester.go:146-150 | the test starts with an empty checker and no inconsistency |
| StressTester.Tester.StepSet | lab4/cmd/stress/tester.go:174-195 | the checker object, called where a Set calls it and with its arguments, is always in the state the protocol predicts, and never panics on an enabled step |
| StressTester.Tester.StepGet | lab4/cmd/stress/tester.go:146-150 | the checker object, called where a Get calls BeginRead, returns the version and pending flag that the protocol remembers for the Get |
| StressTester.Tester.CheckGet | lab4/cmd/stress/tester.go:146-171 | the complaint the object returns for a Get is the predicted one |
| StressTester.Tester.Count | lab4/cmd/stress/tester.go:146-195 | the counters of Gets, Sets, errors and logged inconsistencies |
| StressTester.Tester.CheckAnswer | lab4/cmd/stress/tester.go:147-164 | the checker object answers any value handed in for a Get as the history of writes on the key demands |
| StressTester.Tester.Do | lab4/cmd/stress/tester.go:146-195 | in any interleaving, the object answers each Get as the history of writes demands, and with a tolerance that is not negative complains at most of a missing value, on a key to which no write succeeded |
| Persister.Clone | lab2/raft/persister.go:24-28 | a new array with the same bytes, also for nil |
| Persister.Store.Copy | lab2/raft/persister.go:30-37 | a new persister that shares both arrays |
| Persister.Store.SaveRaftState | lab2/raft/persister.go:39-43 | the state becomes a fresh array with the caller's bytes; the snapshot is untouched |
| Persister.Store.SaveStateAndSnapshot | lab2/raft/persister.go:59-64 | both become fresh arrays with the caller's bytes |
| Persister.Store.ReadRaftState | lab2/raft/persister.go:45-49 | a fresh array with the saved bytes |
| Persister.Store.ReadSnapshot | lab2/raft/persister.go:66-70 | a fresh array with the saved bytes |
| Persister.Client.Sizes | lab2/raft/persister.go:51-76 | the two sizes reported are the lengths of what the two reads would return |
| Persister.Client.Do | lab2/raft/persister.go:24-76 | any one call or caller-side write, on persisters and buffers that share arrays in any reachable way, has the effect it has on plain values |
| Persister.Client.DoAll | lab2/raft/persister.go:24-76 | so does any sequence of them |
| Persister.OnlyOwnSaves | lab2/raft/persister.go:30-48 | what a persister returns is unchanged by any sequence of copies, reads, saves to others and writes to buffers passed in or read out |
| Labrpc.Network.MakeEnd | lab2/labrpc/labrpc.go:313-330 | a new end is disabled and unconnected; a second one of that name aborts with nothing changed |
| Labrpc.Network.DeleteServer | lab2/labrpc/labrpc.go:339-344 | the name stands for no server |
| RequestPath.Runtime.Submit | lab2/labrpc/labrpc.go:150-162 | accepting a request counts it and its argument bytes, as the protocol's action does |
| RequestPath.Runtime.Route | lab2/labrpc/labrpc.go:192-221 | the request goes on iff its end is enabled and connected to a name that stands for an object; that name and object are what it keeps, and the step is the protocol's |
| RequestPath.Runtime.Dispatch | lab2/labrpc/labrpc.go:238-242 | the handler starts on the very object that was looked up, whose own count, kept per object identity, goes up by one and no other |
| RequestPath.Runtime.Poll | lab2/labrpc/labrpc.go:254-261 | the loop ends iff the end is disabled or the name stands for another object or none; the step is the protocol's |
| RequestPath.Runtime.FinalCheck | lab2/labrpc/labrpc.go:264-281 | a reply goes out iff one arrived, the end is enabled, the name still stands for the very object looked up, and the network does not drop it; the step is the protocol's |
| RequestPath.Runtime.DeleteServer | lab2/raft/config.go:104-106 | deleting the table entry is the protocol's first step of a crash: every request that holds the object finds it dead |
| RequestPath.Runtime.AddServer | lab2/raft/config.go:225-228 | registering a new object is the last step of a restart; no request holds that object |
| Wiring.ConnectTouches | lab2/raft/config.go:249-269 | connecting i enables exactly the present ends between i and connected servers |
| Wiring.ConnectedAfter | lab2/raft/config.go:249-275 | which servers are on the net after a call, and which ends they have |
| Wiring.PerformKeeps | lab2/raft/config.go:248-292 | every call keeps the matrix, the distinctness of ends and the rule that only present ends are enabled |
| Wiring.MatrixAlways | lab2/raft/config.go:184-292 | after any sequence of start, crash, connect and disconnect, each present end i to j is enabled iff i and j are both connected |
| Wiring.StartRetires | lab2/raft/config.go:187-199 | a restart with fresh names retires every end of the instance it replaces |
| Wiring.RetiredForever | lab2/raft/config.go:177-199 | an end of a superseded instance is never enabled again |
| RaftConfig.Config.ConnectServer | lab2/raft/config.go:249-269 | the two loops enable exactly the ends to and from connected servers and keep the matrix |
| RaftConfig.Config.DisconnectServer | lab2/raft/config.go:272-292 | the two loops disable exactly the present ends to and from the server and keep the matrix |
| RaftConfig.Config.Crash1 | lab2/raft/config.go:104-133 | disconnected and unregistered; its bytes are kept in a fresh persister with fresh arrays that no instance holds; other servers untouched |
| RaftConfig.Config.MakeEnds | lab2/raft/config.go:187-199 | every new end is registered, disabled and connected to its server |
| RaftConfig.Config.Start1 | lab2/raft/config.go:184-229 | the new instance has a fresh persister with the last persisted bytes, fresh ends and a fresh registered server object; other servers keep theirs |
| RaftConfig.MakeConfig | lab2/raft/config.go:64-101 | the result is valid, every server runs on its saved persister, is connected, and every end between servers is enabled |
| CrashSafety.StepKeeps | lab2/labrpc/labrpc.go:218-309 | every step of a request, a handler, an old instance or the driver keeps the system invariant |
| CrashSafety.RunInv | lab2/raft/config.go:104-229 | it holds in every state of every run |
| CrashSafety.CheckedReqInv | lab2/labrpc/labrpc.go:264-276 | the final check lets a reply through only if the answering instance is the newest of its server and uses the harness's persister, which holds the handler's saves |
| CrashSafety.CopyKeeps | lab2/raft/config.go:115-132 | replacing the harness's persister by a copy, a re-save of bytes read before, or a new one keeps every acknowledged save |
| CrashSafety.RepliesFinal | lab2/labrpc/labrpc.go:110-123 | a call that has returned true is settled: nothing about it ever changes |
| CrashSafety.LatestBytes | lab2/raft/persister.go:30-64 | a persister's state and snapshot are those of its latest save and its latest save with a snapshot, no older than any save it holds, and no older instance has saved to it since |
| CrashSafety.SnapshotData | lab2/raft/persister.go:57-64 | the snapshot is that of the latest save that carried one, and empty without any |
| CrashSafety.AckedSavesSurvive | lab2/labrpc/labrpc.go:264-269 | whatever the handler of a call that returned true saved is never lost: at every later moment the harness's persister, and that of every later instance, has the state (and snapshot) of that save or a later one, and only the answering instance and newer ones of that server, in order, have saved since |
| CrashIsolation.RestartedFromOwn | lab2/raft/config.go:201-217 | the next instance after the answering one starts with the state (and snapshot) of the acknowledged save or of a later one by that same instance |
| CrashIsolation.CrashSupersedes | lab2/raft/config.go:111-117 | from the crash's copy on, every instance the server had is superseded, at every later moment |
| CrashIsolation.SupersededHarmless | lab2/raft/config.go:177-183 | a superseded instance may save at any later time, in a handler or not: no persister of the harness and none of another instance changes |
| CrashIsolation.OnlyNewestChanges | lab2/raft/config.go:104-133 | in any step the bytes the harness keeps for a server change only by a save of its newest instance, which uses that persister; crashes and restarts keep them |
| CrashSafety.TrueReplyMeans | lab2/labrpc/labrpc.go:244-291 | a request turns successful only at the final check, its one handler finished, its end enabled and the very server object it was dispatched to still registered |
| CrashSafety.RequestLaws | lab2/labrpc/labrpc.go:218-309 | what each step of a request decides, both ways, in every run: routed iff enabled, connected and registered; given up by the poll iff dead; sent iff a reply arrived, the server is alive and nothing is dropped, which a reliable network never does; counts and bytes |
| CrashSafety.DriverLaws | lab2/raft/config.go:104-229 | the driver works on one server until it rests, with nobody registered under its name; a crash ends that way, a restart with the newly made instance registered |
| CrashWitness.CallSucceeds | lab2/labrpc/labrpc.go:264-291 | there is a run on a reliable network in which a call returns true with its save kept, the server restarts from it, and a later save by the superseded instance reaches nobody |
| CrashSafety.Conservation | lab2/labrpc/labrpc.go:150-162 | accepted requests, dispatches per server, replies and bytes are all accounted for; at most one dispatch and one reply each |
| CrashSafety.NeverStuck | lab2/labrpc/labrpc.go:218-309 | a request without a reply always has an enabled next step that brings it nearer to one, unless it waits for its running handler |
| ApplyLog.LogChecker.CheckLogs | lab2/raft/config.go:135-152 | reports a conflict iff some log holds another command for the index, whether the index before is in the server's log, and records the message |
| ApplyLog.LogChecker.Apply | lab2/raft/config.go:156-175 | an error iff there is a conflict or the message is out of order |
| ApplyLog.LogChecker.Watch | lab2/raft/config.go:156-175 | over a whole trace, the logs are the replay of the trace, and an error is raised iff some message was complained about |
| ApplyLog.LogChecker.NCommitted | lab2/raft/config.go:377-399 | how many servers hold the index and their common command; aborts iff two of them differ |
| ApplyLog.ConflictExact | lab2/raft/config.go:138-145 | on an agreeing trace the test over the logs finds every earlier disagreement in the trace and no other, also after re-application |
| ApplyLog.ComplaintExact | lab2/raft/config.go:135-175 | after a safe trace, a message is complained about iff it makes the trace unsafe |
| ApplyLog.CheckExact | lab2/raft/config.go:154-175 | the online check is silent iff every server applied in order and equal indices always carried equal commands |
| ApplyLog.MaxIndexExact | lab2/raft/config.go:148-150 | maxIndex is the greatest index applied |
| ApplyLog.OneGlobalLog | lab2/raft/config.go:135-152 | a silent run has one sequence of commands, of length maxIndex, of which every server's log is a prefix |
| ApplyLog.GlobalLogReached | lab2/raft/config.go:148-150 | some server's log is all of it |
| ApplyLog.NoCommitMismatch | lab2/raft/config.go:389-393 | in a silent run nCommitted never aborts |
| ShardMap.HostsValid | lab4/kv/shardmap.go:47-58 | true iff all hosts are known nodes and distinct |
| ShardMap.IsValid | lab4/kv/shardmap.go:39-61 | true iff there are no more shards than allowed, all in range, each with known and distinct hosts |
| ShardMap.RangeLimitsSize | lab4/kv/shardmap.go:40-42 | the size test follows from the range test, for any map with a non-negative number of shards |
| ShardMap.ShardsForNode | lab4/kv/shardmap.go:136-147 | lists a shard as often as its hosts list the node; on a valid map, without duplicates, exactly the shards the node hosts |
| ShardMap.ShardsForNodeInverse | lab4/kv/shardmap.go:136-162 | on a valid map any list with those multiplicities is the duplicate-free inverse of the hosting relation |
| ShardMap.EnoughOptions | lab4/kv/test/test_setup.go:213-223 | pigeonhole: there are enough free nodes for what the requested ones leave open |
| ShardMap.AddReplicas | lab4/kv/test/test_setup.go:188-227 | for every request: refused iff too few nodes or a requested one is already there; panics iff not refused and the requested ones are more than there is room for; otherwise old hosts, requested ones, then distinct free ones, the right number in all, other shards untouched; nothing changes unless it is done |
| ShardMap.Candidates | lab4/kv/test/test_setup.go:263-276 | the hosts left when the requested ones are taken out, and the requested ones not found |
| ShardMap.DropReplicas | lab4/kv/test/test_setup.go:238-286 | refused iff too few hosts, too many requested, or one not hosting, and then nothing changes; otherwise the right number fewer, drawn from the old without the requested, other shards untouched |
| ShardMap.AddedGood | lab4/kv/test/test_setup.go:178-187 | adding to a valid entry gives a valid entry that keeps every old host and has every requested one |
| ShardMap.AddRefusedExact | lab4/kv/test/test_setup.go:194-212 | an addition is refused iff there are too few nodes, a requested one is a host already, or one is requested twice |
| ShardMap.AddedExact | lab4/kv/test/test_setup.go:204-226 | the new entry is the old hosts, the requested nodes in order, then known nodes that occur nowhere before, the right number in all |
| ShardMap.DroppedGood | lab4/kv/test/test_setup.go:229-237 | dropping from a valid entry gives a valid entry of old hosts without the requested ones |
| ShardMap.DropRefusedExact | lab4/kv/test/test_setup.go:244-276 | a removal is refused iff there are too few hosts, too many requests, or a requested node that is no host |
| ShardMap.DroppedOne | lab4/kv/test/test_setup.go:263-285 | dropping one requested host from a valid entry leaves exactly the others |
| ShardWorkflows.TestSetup.UpdateShardMapping | lab4/kv/test/test_setup.go:101-114 | publishes the edited table, twice, and touches no table published before |
| ShardWorkflows.TestSetup.CopyTable | lab4/kv/test/test_setup.go:157-176 | a table of its own with the published entries |
| ShardWorkflows.TestSetup.MoveShard | lab4/kv/test/test_setup.go:334-355 | every outcome, with exactly the maps it published: nothing, the copy only, or the copy and then the removal |
| ShardWorkflows.MoveExact | lab4/kv/test/test_setup.go:334-355 | on a valid map: fails iff the cluster is full for the shard, the destination is a host or the source is none, having published at most the copy; otherwise the destination takes the place of the source and no other shard changes |
| ShardWorkflows.TestSetup.DrainNode | lab4/kv/test/test_setup.go:308-332 | from a valid map it never fails and publishes first the extra hosts, then the removal |
| ShardWorkflows.DrainedBy | lab4/kv/test/test_setup.go:304-332 | after a drain the node hosts nothing, other shards are untouched, and each affected shard keeps all its other hosts and its replica count, or loses one if every node hosted it |
| ShardWorkflows.MovedGood | lab4/kv/test/test_setup.go:334-355 | every map a move publishes is valid, keeps hosted shards hosted, and shares a host with its predecessor for each of them |
| ShardWorkflows.DrainedGood | lab4/kv/test/test_setup.go:308-332 | so does every map a drain publishes, with at least two nodes |
| ShardWorkflows.LoneNodeDrained | lab4/kv/test/test_setup.go:308-332 | with one node a drain leaves a hosted shard hosted iff the node did not host it |
| ShardWorkflows.TestSetup.Run | lab4/kv/test/test_setup.go:130-137 | over any sequence of moves and drains every published map is good in that sense, and no published table is ever edited again |
| ListenerBarrier.StepKeeps | lab4/kv/shardmap.go:174-206 | every step of updaters, listeners, constructors and handlers keeps what an updater has achieved for each listener, seen in the first round, in the second, or in neither |
| ListenerBarrier.DoubleUpdateIsBarrier | lab4/kv/test/test_setup.go:101-114 | when the double update returns, each open server that was registered when the call began, or whose constructor has returned, has completed a handler run that began after the map was published, and it was published during the call |
| ListenerBarrier.DoubleUpdateExact | lab4/kv/test/test_setup.go:107-113 | an open listener has completed such a run iff it was seen in the first round, or its constructor has returned, or its loop has completed any run |
| ListenerBarrier.SecondRoundBegun | lab4/kv/shardmap.go:197-206 | every open listener of the second round has at least begun a run in its loop after the second publication |
| ListenerBarrier.EarlySeen | lab4/kv/shardmap.go:174-190 | identifiers are never reused: a listener registered when the call began and open since is seen in the first round |
| ListenerBarrier.LateListenerUncovered | lab4/kv/server.go:36-48 | there is a run in which a server that registers between the rounds and is still in its own handler call has completed none |
| TypeWalk.Encoder.Walk | lab2/labgob/labgob.go:72-113 | ends on cyclic types; whatever is already marked, it marks the type and only types it reaches, leaves every field, element and key type of all newly marked ones marked, and adds their lower-case fields |
| TypeWalk.Encoder.WalkFields | lab2/labgob/labgob.go:88-102 | each field of a struct is looked at once, lower-case ones counted, its type visited |
| TypeWalk.Encoder.CheckType | lab2/labgob/labgob.go:72-113 | from marks closed under field, element and key types: afterwards the least such set that holds the old marks and the type, which is the old marks and everything reachable; the count raised by the lower-case fields of newly reached structs |
| TypeWalk.Encoder.CheckAll | lab2/labgob/labgob.go:68-113 | over a whole run each struct reached is complained about once |
| TypeWalk.ClosedUnderPaths | lab2/labgob/labgob.go:77-84 | a closed set of marks contains whatever its members reach |
| Base64.Base64Encode | lab1/det_bcrypt/det_bcrypt.go:30-38 | the padded encoding without its padding; a panic on the empty input only |
| Base64.AlphabetExact | lab1/det_bcrypt/det_bcrypt.go:26 | the symbol for each six-bit value, spelled out |
| Base64Codes.EncodedNumbers | lab1/det_bcrypt/det_bcrypt.go:30-38 | three bytes, as a number, are their four sextets as a number; two bytes at the end are three sextets with two zero bits, one byte two with four; the length follows |
| Base64.Base64Decode | lab1/det_bcrypt/det_bcrypt.go:40-52 | decoding of the input followed by one to four padding characters |
| Base64Codes.DecodedNumbers | lab1/det_bcrypt/det_bcrypt.go:40-52 | what each quantum of a decodable input stands for, as numbers, with surplus low bits dropped |
| Base64Codes.DecodesExact | lab1/det_bcrypt/det_bcrypt.go:47-50 | decoding succeeds iff the input is whole quanta of symbols with at most two padding characters, at the end |
| Base64Codes.DecodeExact | lab1/det_bcrypt/det_bcrypt.go:40-52 | the unpadded form succeeds iff its input, without line breaks and with 4 - length % 4 padding characters, is such |
| Base64.EncodeShape | lab1/det_bcrypt/det_bcrypt.go:34-37 | exactly the padding is stripped: symbols only are left, and putting it back gives the padded encoding |
| Base64.QuantaRoundTrip | lab1/det_bcrypt/det_bcrypt.go:26-33 | padded decoding undoes padded encoding for every byte string |
| Base64.RoundTrip | lab1/det_bcrypt/det_bcrypt.go:30-52 | unpadded decoding undoes unpadded encoding iff the length is not a multiple of three |
| Base64.EncodeInjective | lab1/det_bcrypt/det_bcrypt.go:30-38 | encodings of such byte strings are equal iff the strings are |
| Bcrypt.CopyInto | lab1/det_bcrypt/det_bcrypt.go:281-289 | Go's copy: as much as fits, the rest of the array untouched |
| Bcrypt.Hash | lab1/det_bcrypt/det_bcrypt.go:271-291 | for every record, well formed or not, each byte of the filled array is the one the last write to it left |
| Bcrypt.PrintedParts | lab1/det_bcrypt/det_bcrypt.go:271-291 | with a two-digit cost and a 22-byte salt this is prefix, salt and hash, the hash cut or zero-filled to 31 bytes |
| Bcrypt.Parser.DecodeVersion | lab1/det_bcrypt/det_bcrypt.go:293-307 | version bytes and their length, or the error with nothing changed |
| Bcrypt.Parser.DecodeCost | lab1/det_bcrypt/det_bcrypt.go:310-321 | the cost, or an error with nothing changed |
| Bcrypt.NewFromHash | lab1/det_bcrypt/det_bcrypt.go:196-222 | the record filled in step by step is the parse of the hash; null exactly on an error |
| Bcrypt.ParseExact | lab1/det_bcrypt/det_bcrypt.go:196-321 | for every input, byte by byte: which error, or which fields |
| Bcrypt.PrintParse | lab1/det_bcrypt/det_bcrypt.go:196-321 | for every record, parsing undoes printing iff cost, salt and hash are well formed, the major version is at most '2' and the minor one is not '$' |
| Bcrypt.ParsePrint | lab1/det_bcrypt/det_bcrypt.go:196-321 | printing undoes parsing iff the hash is canonical |
| Bcrypt.GeneratedParses | lab1/det_bcrypt/det_bcrypt.go:122-130 | generation fails iff the cost is above the maximum, and what it prints parses back to the record it was printed from |
| Bcrypt.GeneratedForm | lab1/det_bcrypt/det_bcrypt.go:122-194 | the generated hash byte for byte: "$2a$", the cost in two digits (10 below 4), "$", the encoding of sixteen times 'a', the encoding of the cipher's first 23 bytes |
| Bcrypt.GeneratedAccepts | lab1/det_bcrypt/det_bcrypt.go:132-161 | for any cipher: a generated hash reports its effective cost and accepts a guess iff the cipher gives the same 23 bytes as for the password |
| Bcrypt.CompareExact | lab1/det_bcrypt/det_bcrypt.go:134-161 | for every hash that parses, whatever its salt: its cost, and acceptance iff its salt decodes and its hash begins with the 31 symbols made of the guess; more bytes are ignored |
| Bcrypt.UnparsedRejected | lab1/det_bcrypt/det_bcrypt.go:134-161 | a hash that does not parse is never accepted and has no cost; the error is that of parsing |
| Bcrypt.OwnPasswordAccepted | lab1/det_bcrypt/det_bcrypt.go:119-150 | a hash accepts the password it was made from |
| Stripe.NameInjective | lab4/scripts/make-shardmap.py:26-27 | different nodes have different names |
| Stripe.NameSpelled | lab4/scripts/make-shardmap.py:26-27 | a name is an 'n' and digits that denote the node's number, counted from one, without leading zeros |
| Stripe.FirstName | lab4/scripts/make-shardmap.py:26-27 | the first nine names are n1 to n9 |
| Stripe.MakeShardMap | lab4/scripts/make-shardmap.py:24-51 | nodes with their ports, and every shard hosted by the nodes whose turn it is; fails iff replicas are wanted and there is no node |
| Stripe.DistinctExact | lab4/scripts/make-shardmap.py:39-44 | a stripe has distinct hosts iff it is no longer than the number of nodes |
| Stripe.StripedValid | lab4/scripts/make-shardmap.py:24-51 | the generated map is valid iff no shard wants more replicas than there are nodes |
| Stripe.LoadExact | lab4/scripts/make-shardmap.py:34-44 | a node's load depends only on the total dealt so far, whatever the mix of replica counts |
| Stripe.Balanced | lab4/scripts/make-shardmap.py:15-16 | the loads of any two nodes differ by at most one |
| Stripe.LoadIsListing | lab4/kv/shardmap.go:136-147 | that load is the length of the list the program reads off the map for the node |

## Left out

- lab2/raft/raft.go: the consensus protocol is a skeleton; a Raft instance is an arbitrary handler that saves to its persister and applies messages, and `Kill` does nothing here.
- The bodies that are stubs: Get, Set, Delete, GetShardContents and handleShardMapUpdate of the key-value server, the client, the string sets, GetTopVideos.
- processReq, Update, MakeListener and Close run concurrently with themselves and each other, so they are steps of state machines (`CrashProtocol`, `ListenerBarrier`) and not methods; the classes in `Labrpc` hold the network's tables, and `RequestPath` runs the critical sections of processReq on them one at a time.
- CrashProtocol: delays and long reordering only postpone a step, which the interleaving covers; aborts (an unknown service, a reply that cannot be decoded) and Cleanup of the network are not steps.
- Whether Shutdown racing with Update blocks is a liveness question and left out; a closed server's handler runs are not followed.
- CrashSafety.Conservation: counters are unbounded; the wrap-around of the 32-bit and 64-bit network counters is not modelled.
- Gob encoding and reflective method lookup: payloads are opaque byte strings or lengths, types a finite graph. The walk over types is modelled for one goroutine at a time; checkDefault is not modelled.
- StressTester.Tester.Do: checking is switched on; the rate limiters are a free choice; latencies, logging and the random choice of keys and values are not modelled. Error texts and `overwrittenAt`, which the program never sets, are omitted.
- CheckerSoundness.NoFalsePositive: a failed write whose request reaches a replica after CompleteWrite is outside the checker's assumptions and outside the model.
- Slices of node names are never written in place once they are in a table, so they are values here; the tables themselves are objects.
- ShardWorkflows.TestSetup.Run: moves name a known destination and a shard in range; one workflow runs at a time, as the source demands. RemoveNode, DropShard and MoveRandomShard are left out: the first two lose hosts on purpose, the last is a random choice of a move.
- Stripe.MakeShardMap: a negative replica or node count behaves like zero; the number of shards fits the 64-bit integers of the program that reads the map. The branch without `--stripe` is left out.
- Blowfish and the key schedule: any function from password, cost and decoded salt to 24 bytes. Base64 quanta follow section 4 of RFC 4648 with the library's skipping of line breaks; the library's error positions are not modelled.
- File watching, JSON, command line parsing, generated code, load generation, failure injection and the remaining test assertions.
