# A verified model of the PA-LCTL distributed runtime core

PA-LCTL is a columned language for quantum programs with a deterministic distributed runtime. This project models the
parts of the runtime where several machines, threads, replicas or registers must agree, and proves what they promise:

- **Causality.** Vector clocks of every message-passing run order events exactly as causality does (`VectorClock.dfy`).
- **Scheduling.** The turnstile thread pool is a state machine over the steps of its threads; every schedule ends with
  all jobs run in submission order, also when jobs raise, and exactly when that is the outcome of the serial runner is
  determined (`Turnstile.dfy`, `TaskRuntime.dfy`); each task ends as its body decides in the world that the tasks before
  it left (`TaskOutcomes.dfy`). Work-stealing deques lose and duplicate nothing (`WorkStealing.dfy`).
  Waiting cycles are found, and minimal (`DeadlockDetector.dfy`). Futures are drained in an order that extends
  happens-before (`AsyncEngine.dfy`). The hashed timer wheel is a plain ordered list (`TimerWheel.dfy`, `TimerRuns.dfy`,
  `TimerIds.dfy`).
- **Ownership.** Payload handles have one holder, and the log rebuilds who it is until it is sealed (`TaskRuntime.dfy`,
  `OwnershipHistory.dfy`); what a release, a transfer or a cancellation means holds for ever after (`CallHistory.dfy`).
  The static verifier accepts, as far as ownership goes, exactly the programs that a machine of lineage tokens can run
  (`OwnershipVerifier.dfy`, `LineageMachine.dfy`). What acceptance says about the cells of the rows is spelled out:
  nothing measured, moved or released is named again before it is prepared again, and every row is in form
  (`AcceptedPrograms.dfy`, `AcceptedForms.dfy`).
- **Collectives.** What tree, binomial, recursive-doubling, ring, linear and pairwise schedules compute, compared with
  the plain in-order fold, prefix scan, gather or transpose (`Fold.dfy`, `TreeCollectives.dfy`, `BinomialBroadcast.dfy`,
  `DoublingCollectives.dfy`, `RingCollectives.dfy`). For reduce and allreduce, what each schedule asks of the operator
  at each number of ranks and each root (`OperatorLaws.dfy`), and what the rule-based choice makes of it
  (`CollectiveDispatch.dfy`).
- **Witness.** A multiply-and-xor witness over row words is lowered to four register machines; its meaning is preserved
  at every register width from 64 bits on, chains of segments equal the whole, and any single changed word is detected
  (`Bits.dfy`, `Witness.dfy`, `WitnessCompiler.dfy`, `WitnessLowering.dfy`).
- **Replicated data.** Which merges are semilattices, what a merge needs for one sweep of anti-entropy to make all
  replicas agree, and that what a counter, a register or an observed-remove set then says is explained by the updates of
  the run (`Crdt.dfy`, `AntiEntropy.dfy`, `CounterRuns.dfy`, `RegisterRuns.dfy`, `ObservedRemove.dfy`).
- **Error composition.** Laws for combining error terms, in exact real arithmetic, and what each law computes
  (`ErrorAlgebra.dfy`, `ErrorLaws.dfy`).

`Basics.dfy` holds the small shared vocabulary. `dafny verify dfyconfig.toml` checks everything.

## How the source is represented

- Engines that update fields are classes over `map` and `seq` fields, or over arrays where the source works in place;
  each method is tied to a function of the old state, and the theorems are about those functions and their runs.
- The thread pool, the message-passing runs, the runs of replicas, of the runtime and of timers are sequences of steps,
  and the theorems quantify over all of them.
- Reduction operators are abstract functions. The reduce and allreduce methods assume nothing of them and state the
  combination they compute; that the laws named for a schedule are needed is proved for operators with a unit. The scans
  assume associativity where the schedule regroups.
- An exception that leaves a call is a flag beside the state the call leaves behind, so what was changed before it stays
  changed.
- Worker, replica and future names are numbers standing for their rank in sorted order. Task bodies and thunks are
  functions given from outside; a thunk's outcome is success or failure.
- State hashes are an arbitrary function on states; row words are given, so the digest of a row's text is not part of
  this model.
- `r ^ dist` for a power of two is written arithmetically (`DoublingCollectives.Partner`); exclusive or on words is a
  recursive function on bits (`Bits.Xor`).

## What the proofs found

Where the code and its own texts disagree, the model follows the code.

- The tree broadcast is complete only from rank 0 (`BinomialBroadcasts.TreeBroadcast`), although any root is accepted;
  the rule-based choice selects it for four or more ranks (`CollectiveDispatch.BroadcastSelected`).
- The two deterministic runners differ behind a task whose execution raises: the serial one stops, the threaded one runs
  the rest before it re-raises. They leave the same runtime if and only if no task behind the first that raises would
  have changed anything (`TaskRuntimes.ThreadedEqualsSerial`, `TaskRuntimes.OwnersDecide`,
  `TaskRuntimes.UnknownOwnerSplitsRunners`).
- Behind a sealed log, transfers and releases still change the owner index before they raise, so replay no longer gives
  it (`OwnershipHistories.ReplayIsIndexIff`, `OwnershipHistories.SealedTransferIsUntold`).
- Resolving a future leaves its outgoing waits in place, so a cycle through a resolved future is still a deadlock
  (`DeadlockDetection.ResolveBreaksNoCycle`, `DeadlockDetection.DeadlockThroughResolved`).
- The class text of the collectives says values are produced by the recorded transfers. The tree scan of a range records
  no transfer from its left half into its right half, so for two or more workers the recorded transfers cannot have
  produced the scan (`BinomialBroadcasts.ScanRange`, `BinomialBroadcasts.TreeScan`); with two workers there is none.
- A ring allreduce combines in an order that differs from rank to rank. For an operator with a unit it is right for n
  ranks if and only if the operator commutes and, from three ranks on, is associative; `concat` does not commute
  (`OperatorLaws.AllReduceRightIff`, `OperatorLaws.ConcatOnARing`, `CollectiveDispatch.ChosenConcatIff`).
- The rule for ring-like topologies claims that only neighbours exchange. On a line or chain the ring allreduce uses a
  link between the last and the first rank that is not there, and the ring all-to-all exchanges only between neighbours
  on a true ring of three only (`CollectiveDispatch.AllReduceSelected`, `CollectiveDispatch.AllToAllSelected`).
- Timer ids are padded to five digits and compared as text, so from the 100001st timer on the order within a tick is no
  longer the order of creation (`TimerIds.IdOrderIff`, `TimerRuns.AtOnceInOrderIff`). A timer with delay zero never
  fires (`TimerRuns.FiresExactlyOnTime`).
- The version-vector policy of the last-writer-wins register falls through to timestamps when dominated, so its merge is
  not commutative (`Crdts.VersionMergeClashes`; exactly when, `Crdts.VersionMergeCommutesIff`). A sweep of anti-entropy
  converges all the same (`Crdts.RegistersAbsorb`, `AntiEntropies.SweepAgreesIff`).
- The ownership document (core/spec/PA_LCTL_OWNERSHIP_MODEL.md:122) lets the first quantum write of any other operation
  create a live object. The verifier reports that write as a use of an unknown object first, so in an accepted program
  it never creates one (`LineageMachine.OnlySourcesMint`).
- A teleport whose destination range overlaps a later source does not deliver (`LineageMachine.TeleportDeliversIff`),
  and the verifier accepts such a program (`LineageMachine.ShiftRightIsAccepted`).
- The refusal of LCTLC/1.1 units over 512 source lines cannot occur (`WitnessLowerings.LowerLctlc11`).
- The witness detects a change of one word, not of two neighbouring ones (`Witnesses.TwoWordsCanCancel`).
- Section 9.3 of the fabric document lists the migration rules among the refusals of a steal, but only the named steal
  asks them. The outward walk migrates a movable task with a known quantum payload that the default rules forbid
  (`WorkStealings.WalkIgnoresRules`). Deques and scopes alone decide what it takes (`WorkStealings.StealIsDetermined`);
  that is permitted exactly when the rules' hop limit is at least one, quantum migration is allowed or the task holds
  none, and the two workers share a trust domain or need not (`WorkStealings.StealRespectsRulesIff`); all it ever takes
  is permitted if and only if everything in its reach is (`WorkStealings.WalksRespectRulesIff`).
- The additive error law is independent of grouping if and only if both parts stay in its domain, which negative values
  can prevent (`ErrorAlgebra.Regroup`).
- Composing standard deviations yields a variance, which no longer composes with a bare standard deviation
  (`ErrorAlgebra.DeviationsDoNotMix`).

## Model

| member | source | states |
|---|---|---|
| `VectorClocks.VectorClock.constructor` | core/reference/pacore/fabric.py:375-379 | a clock always has an entry for its own node, zero if none was given |
| `VectorClocks.VectorClock.Tick` | core/reference/pacore/fabric.py:381-383 | only the own entry grows, by one |
| `VectorClocks.VectorClock.Merge` | core/reference/pacore/fabric.py:385-388 | the loop leaves the entrywise maximum over the union of the nodes |
| `VectorClocks.VectorClock.Receive` | core/reference/pacore/fabric.py:390-392 | receiving is merging and then ticking |
| `VectorClocks.VectorClock.Copy` | core/reference/pacore/fabric.py:394-395 | a fresh clock with the same contents |
| `VectorClocks.StampMeaning` | core/reference/pacore/fabric.py:381-392 | in every run the entry of the node of e in the clock of f has reached e exactly when e is f or causally precedes it |
| `VectorClocks.HeldMeaning` | core/reference/pacore/fabric.py:381-392 | the same for the clock a node holds between events |
| `VectorClocks.ClocksCharacteriseCausality` | core/reference/pacore/fabric.py:397-401 | for any two events of any run of ticks, sends and receives: e causally precedes f if and only if happens_before holds of their clocks |
| `VectorClocks.ConcurrentIsUnrelated` | core/reference/pacore/fabric.py:403-405 | concurrent holds if and only if the events differ and neither precedes the other |
| `DeadlockDetection.TracePath` | core/reference/pacore/fabric.py:3835-3841 | following predecessors gives a simple path from the start, one node longer than the depth of its end |
| `DeadlockDetection.NoShortCycle` | core/reference/pacore/fabric.py:3826-3843 | while every node above a level has been expanded, no cycle through the start is that short |
| `DeadlockDetection.CycleThrough` | core/reference/pacore/fabric.py:3825-3844 | the breadth-first search from one start finds a shortest cycle through it, or there is none |
| `DeadlockDetection.MinimalCycle` | core/reference/pacore/fabric.py:3821-3846 | None if and only if the whole graph is acyclic; otherwise a real simple cycle, no longer than any cycle anywhere, starting at the least node of any cycle that short |
| `DeadlockDetection.DeadlockDetector.constructor` | core/reference/pacore/fabric.py:3763-3776 | an empty graph under the two given thresholds |
| `DeadlockDetection.DeadlockDetector.AddWait` | core/reference/pacore/fabric.py:3783-3788 | one edge added, the waiting time kept if already known, nothing else changed |
| `DeadlockDetection.DeadlockDetector.AddResourceWait` | core/reference/pacore/fabric.py:3790-3794 | an edge from task to resource |
| `DeadlockDetection.DeadlockDetector.AddResourceHold` | core/reference/pacore/fabric.py:3796-3799 | an edge from resource to holder |
| `DeadlockDetection.DeadlockDetector.AddFutureDep` | core/reference/pacore/fabric.py:3801-3806 | an edge to the future, recorded as unresolved if it is new |
| `DeadlockDetection.DeadlockDetector.ResolveFuture` | core/reference/pacore/fabric.py:3808-3810 | the future is marked resolved and present; the outgoing edges it has stay |
| `DeadlockDetection.DeadlockDetector.RecordRetry` | core/reference/pacore/fabric.py:3812-3814 | the count of retries of one task grows by one |
| `DeadlockDetection.DeadlockDetector.ClearWait` | core/reference/pacore/fabric.py:3816-3819 | the outgoing waits of one task disappear |
| `DeadlockDetection.ClearWaitBreaksCycles` | core/reference/pacore/fabric.py:3816-3819 | clearing a wait removes exactly the cycles through that task |
| `DeadlockDetection.DeadlockThroughResolved` | core/reference/pacore/fabric.py:3808-3870 | in contrast, a task and a future that wait for each other are a deadlock before and after the future is resolved |
| `DeadlockDetection.DeadlockDetector.Detect` | core/reference/pacore/fabric.py:3848-3885 | DEADLOCK if and only if the graph has a cycle, and then the reported one is minimal; retry storm, unsatisfied future, starvation and clear each if and only if no verdict before it applies, with exactly the futures, retries and waits they name |
| `DeadlockDetection.RetriesVerdict` | core/reference/pacore/fabric.py:3772-3858 | from a new detector, n retries of one task are a retry storm if and only if n is above the first threshold |
| `DeadlockDetection.WaitsVerdict` | core/reference/pacore/fabric.py:3773-3862 | from a new detector, a wait that n steps have passed over starves if and only if n is above the second threshold |
| `Turnstile.InvStep` | core/reference/pacore/fabric.py:1309-1328 | every interleaved step of the pool, whether or not jobs raise, keeps: tickets are handed out in order, each open job is held by one thread, only the holder of the current turn is past the gate, and state and failures are those of the jobs done so far |
| `Turnstile.MutualExclusion` | core/reference/pacore/fabric.py:1313-1323 | in every state of every run at most one thread is past the turnstile |
| `Turnstile.Progress` | core/reference/pacore/fabric.py:1309-1328 | with at least one thread some step is always possible until all jobs are finished: no deadlock, no lost wake-up |
| `Turnstile.StepSpendsBudget` | core/reference/pacore/fabric.py:1309-1328 | every step spends a bounded budget, so every schedule ends |
| `Turnstile.StuckIsFinished` | core/reference/pacore/fabric.py:1309-1328 | a state with no step left is a finished one: every job has been run, and the futures with an exception are exactly those of the jobs that raise |
| `Turnstile.TurnstileIsSerial` | core/reference/pacore/fabric.py:1305-1328 | any schedule of any number of threads has bounded length; where it ends, all jobs have been run in submission order, also behind one that raised; it re-raises if and only if the serial runner raises, and leaves the serial state if and only if the jobs behind the first to raise change nothing |
| `Turnstile.SerialStops` | core/reference/pacore/fabric.py:1305-1307 | the serial runner is at the state after all its jobs until one raises, and stays at the state that one leaves |
| `TaskRuntimes.ThreadedEqualsSerial` | core/reference/pacore/fabric.py:1305-1328 | instantiated with task execution: the threaded runner always ends and has executed the whole list; it raises if and only if the serial runner does; task states, results, log, clock and world are the serial ones if and only if no task behind the first that raises would have changed anything |
| `TaskRuntimes.RaisesIff` | core/reference/pacore/fabric.py:1268-1303 | an execution raises if and only if the task is not cancelled and the log is sealed, or it is not over-long and its body's exception escapes, its owner is no worker, or its result cannot be hashed; it touches no other task, only lengthens the log, and settles its task unless it raises |
| `TaskRuntimes.UnchangedIffInert` | core/reference/pacore/fabric.py:1268-1303 | executing a list leaves the runtime exactly as it is if and only if every task on it is cancelled, or was already stopped in that state by a sealed log |
| `TaskRuntimes.PendingRunnersAgreeIff` | core/reference/pacore/fabric.py:1370-1388 | for the lists that run() passes on, fresh ready tasks, the two runners leave the same runtime if and only if no task but the last raises |
| `TaskRuntimes.OwnersDecide` | core/reference/pacore/fabric.py:1294-1307 | in what a caller sees before run(): with an open log and bodies that return hashable values or raise ordinary exceptions, the runners agree if and only if every task but the last is over-long or has a known owner; with a sealed log, if and only if there is at most one task |
| `TaskRuntimes.UnknownOwnerSplitsRunners` | core/reference/pacore/fabric.py:1294-1328 | the concrete difference: behind a task spawned for the owner "nobody" the next task stays ready under the serial runner and is done under the threaded one |
| `TaskRuntimes.ExecuteAllSettles` | core/reference/pacore/fabric.py:1268-1328 | a task of the list none of whose executions raises is settled in the end, and tasks not on the list stay as they were |
| `TaskRuntimes.SerialStopsAt` | core/reference/pacore/fabric.py:1305-1307 | the serial runner has executed exactly the list up to the task that raises: those before it are settled, those behind are as they were |
| `TaskOutcomes.Completes` | core/reference/pacore/fabric.py:1283-1301 | the whole runtime after a body that returns: state done, result and completion event carry the returned value, the owner has one more credit, the log has a start and a completion event more |
| `TaskOutcomes.Breaks` | core/reference/pacore/fabric.py:1286-1301 | the whole runtime after a body that raises: state failed, result and credits as before |
| `TaskOutcomes.Overruns` | core/reference/pacore/fabric.py:1272-1280 | an over-long task times out with its body never called; a cancelled one is left alone |
| `TaskOutcomes.UnknownOwnerStops` | core/reference/pacore/fabric.py:1289-1298 | the whole runtime when the owner is no worker: state and result are set, credit and event are missing |
| `TaskOutcomes.UnhashableStops` | core/reference/pacore/fabric.py:1283-1301 | the whole runtime when the result cannot be hashed: state, result and credit are set, the clock has ticked, the event is missing |
| `TaskOutcomes.StopsAtSeal` | core/reference/pacore/fabric.py:1272-1283 | on a sealed log a task is stopped before its body and only its state has changed |
| `TaskOutcomes.ListEnds` | core/reference/pacore/fabric.py:1268-1303 | over a list of pending tasks: each result is what the body returned in the world left by the bodies before it, the last world is theirs, and each worker is credited once per body that returned |
| `TaskOutcomes.FailsIffTroubled` | core/reference/pacore/fabric.py:1268-1303 | the turn of a pending task raises if and only if an exception escapes its body, its owner is unknown, or what it is to log cannot be hashed |
| `TaskOutcomes.SerialEnds` | core/reference/pacore/fabric.py:1305-1307 | the same for the serial runner: up to and with the first task whose turn goes wrong each task ends as its body decides, those behind are untouched |
| `TaskOutcomes.ApplyAt` | core/reference/pacore/fabric.py:565-575 | the owner of one payload after one event: gone if released or consumed, else the last destination, else the acquirer, else as before |
| `TaskRuntimes.EventLog.Append` | core/reference/pacore/fabric.py:513-542 | a sealed log refuses without a tick, a value that cannot be hashed is refused after the tick, and otherwise the log grows by one event at its end, at the given time or the ticked one |
| `TaskRuntimes.EventLog.Seal` | core/reference/pacore/fabric.py:509-511 | sealing changes the flag and no event |
| `TaskRuntimes.EventLog.Reconstruct` | core/reference/pacore/fabric.py:556-575 | the loops over the events and their acquisitions, moves, releases and consumptions compute the replayed ownership map |
| `TaskRuntimes.TaskRuntime.SpawnTask` | core/reference/pacore/fabric.py:1150-1164 | all fields after a spawn; a repeated identity is refused, and a sealed log refuses after the task is registered and the clock ticked |
| `TaskRuntimes.TaskRuntime.CancelTask` | core/reference/pacore/fabric.py:1407-1415 | all fields after a cancellation; a settled task is left alone |
| `TaskRuntimes.TaskRuntime.TransferOwnership` | core/reference/pacore/fabric.py:1174-1203 | all fields after a transfer, the refusals for a payload that is not live or already held, and the error of a sealed log after handles and index have changed |
| `TaskRuntimes.TaskRuntime.ReleaseOwnership` | core/reference/pacore/fabric.py:1212-1218 | all fields after a release, also when a sealed log then refuses the event |
| `TaskRuntimes.TaskRuntime.ExecuteTask` | core/reference/pacore/fabric.py:1268-1303 | all fields after one execution, and whether it raised: cancelled, timed out, failed or done, or stopped by a sealed log, an escaping exception, an unknown owner or a result that cannot be hashed |
| `TaskRuntimes.TaskRuntime.RunSerial` | core/reference/pacore/fabric.py:1305-1307 | the loop executes the list up to the first task that raises |
| `OwnershipHistories.RunsKeepOwnership` | core/reference/pacore/fabric.py:1268-1328 | executing tasks under either runner changes neither handles nor what the log says about ownership |
| `OwnershipHistories.CallKeeps` | core/reference/pacore/fabric.py:1124-1218 | spawn, preparation, transfer, release, marking, cancellation, running and sealing keep: live handles sit once in their owner; on an open log replay gives the owner index; on a sealed log nothing is logged any more |
| `OwnershipHistories.SingleHolder` | core/reference/pacore/fabric.py:1174-1218 | in every history, sealed or not, each live payload is held by at most one task, once, namely the one the owner index names |
| `OwnershipHistories.ReplayIsIndexIff` | core/reference/pacore/fabric.py:1196-1218 | while the log is open, replay gives the owner index; once it is sealed, replay gives the index of the moment of sealing, and so the current one if and only if the two are equal |
| `OwnershipHistories.SealedReplayBreaksIff` | core/reference/pacore/fabric.py:1196-1218 | behind a seal replay stays right until the first call that changes the index: an accepted transfer, or the release of an owned payload |
| `OwnershipHistories.OwnerChangesIff` | core/reference/pacore/fabric.py:1174-1218 | a call changes the owner index if and only if it is an accepted transfer or the release of an owned payload |
| `OwnershipHistories.SealedTransferIsUntold` | core/reference/pacore/fabric.py:1196-1203 | the concrete failure: spawn, prepare, seal, transfer leaves the index naming an owner that replay does not know |
| `OwnershipHistories.NeverTransferredAgain` | core/reference/pacore/fabric.py:1180-1183 | in every history a payload that stopped being live stays so, and every later transfer of it is refused and changes nothing |
| `CallHistories.ReleasedForGood` | core/reference/pacore/fabric.py:1180-1218 | after a release the payload is never live again, the releasing task never holds it, every later transfer of it is refused without effect, and it stays consumed unless it is released or marked again |
| `CallHistories.LifeEndsOnlyBy` | core/reference/pacore/fabric.py:1212-1214 | no call but a release or a mark of it changes the state of a payload |
| `CallHistories.ReleaseConsumes` | core/reference/pacore/fabric.py:1212-1215 | handles, payload states and index after a release, whatever the log says |
| `CallHistories.ReleaseTells` | core/reference/pacore/fabric.py:1216-1218 | the event of a release names what is consumed; behind a seal nothing is told |
| `CallHistories.TransferTakes` | core/reference/pacore/fabric.py:1180-1203 | a live payload that the task does not hold moves to it and leaves everyone else; any other transfer changes nothing |
| `CallHistories.TransferTells` | core/reference/pacore/fabric.py:1196-1203 | the event of an accepted transfer names payload, previous owner and new owner |
| `CallHistories.SpawnRegisters` | core/reference/pacore/fabric.py:1124-1164 | a spawn registers a ready task with what it was given, stamped by a tick and holding nothing |
| `CallHistories.CancelledOnlyByCancel` | core/reference/pacore/fabric.py:1407-1415 | a task becomes cancelled by a cancellation while ready or running, and by no other call |
| `CallHistories.CancelledForGood` | core/reference/pacore/fabric.py:1270-1271 | in every history a cancelled task keeps its record: no runner calls its body |
| `OwnershipVerifier.Keys` | core/reference/pacore/lang.py:427-446 | the keys of a cell are distinct |
| `OwnershipVerifier.Elements` | core/reference/pacore/lang.py:427-434 | a range lists its elements from lo up to hi |
| `OwnershipVerifier.TeleportLoop` | core/reference/pacore/lang.py:1011-1020 | the loop moves the pairs one after the other, in place |
| `OwnershipVerifier.CheckRow` | core/reference/pacore/lang.py:853-1086 | one row of the pass, with its diagnostics in the order of the source |
| `OwnershipVerifier.Verify` | core/reference/pacore/lang.py:821-1089 | the final state of the pass; accepted if and only if the policies are closed and no rejecting diagnostic was issued |
| `LineageMachine.SimRow` | core/reference/pacore/lang.py:935-1078 | row by row: the ownership rules are silent if and only if the token machine can make the step, and the two then agree on who holds what |
| `LineageMachine.OwnershipRulesAreExact` | core/reference/pacore/lang.py:935-1078 | for every program: no ownership diagnostic at all if and only if the token machine runs it to its end |
| `LineageMachine.NoCloning` | core/reference/pacore/lang.py:935-1078 | after every prefix of an accepted program at most one live object carries any lineage |
| `LineageMachine.MeasuredAtMostOnce` | core/reference/pacore/lang.py:992-1001 | the machine running an accepted program measures every lineage at most once, and a measured lineage is live nowhere |
| `LineageMachine.DeadNeverReferenced` | core/reference/pacore/lang.py:958-980 | no row of an accepted program except a preparation names a moved, measured or released object, or an unknown one that looks quantum |
| `LineageMachine.OnlySourcesMint` | core/reference/pacore/lang.py:939-1078 | in an accepted program new lineages come from preparations and entanglement links only |
| `LineageMachine.TeleportDeliversIff` | core/reference/pacore/lang.py:1004-1020 | every destination ends live with the lineage of its own source if and only if no destination is the source of a later pair |
| `LineageMachine.ShiftRightDoesNotDeliver` | core/reference/pacore/lang.py:1004-1020 | the concrete failure: moving q[0:2] onto q[1:3] leaves q[1] moved and sends the lineage of q[0] on to q[2] |
| `LineageMachine.ShiftRightIsAccepted` | core/reference/pacore/lang.py:1009-1092 | a program of three rows that the verifier accepts and in which exactly this happens |
| `AcceptedPrograms.DeadNeedsPreparation` | core/reference/pacore/lang.py:955-1062 | on the cells of the rows: once a row of an accepted program measures an object it knows, teleports it away or releases it, no later row names the object before a row in between prepares it again |
| `AcceptedPrograms.DeadUseIsExplained` | core/reference/pacore/lang.py:958-973 | the first row that breaks this promise gets the diagnostic for a moved, a measured or a released object, by what the earlier row did to it |
| `AcceptedPrograms.ProvidedBeforeUse` | core/reference/pacore/lang.py:960-966 | in an accepted program a row of quantum type, or a gate or noise on an object with a quantum name, uses only what an earlier row prepared, linked or teleported to |
| `AcceptedPrograms.UnprovidedUseIsExplained` | core/reference/pacore/lang.py:960-966 | the first row that uses an object nothing provided is told that it is unknown |
| `AcceptedPrograms.JoinsAreDisjoint` | core/reference/pacore/lang.py:983-991 | a joint operation of an accepted program never has one object in both operands |
| `AcceptedPrograms.PreparationMints` | core/reference/pacore/lang.py:939-953 | a preparation makes one new lineage, live at its node, for each object of its OUT cell, or one for a text that is no reference |
| `AcceptedPrograms.LocalUseIsAtHome` | core/reference/pacore/lang.py:974-981 | only distributed operations of an accepted program name an object that was last provided on another node |
| `AcceptedPrograms.MisplacedUseIsExplained` | core/reference/pacore/lang.py:974-981 | the first local use away from the node where the object was prepared or linked is told so |
| `AcceptedPrograms.LocalProtocolIsNoted` | core/reference/pacore/lang.py:1044-1056 | a remote gate between two objects is noted, though accepted, if and only if both were last provided on the same node |
| `AcceptedPrograms.UseAfterMeasureIsRejected` | core/reference/pacore/lang.py:958-1001 | the concrete programs: prepare, measure, measure again, and prepare, measure, apply a gate, are rejected |
| `AcceptedForms.AcceptedIff` | core/reference/pacore/lang.py:821-1092 | acceptance as a whole, without the verifier: both policies closed, every row well formed given the rows before it, and the token machine runs to the end |
| `Folds.LevelsIsCeilLog` | core/reference/pacore/fabric.py:2576 | the number of halvings is the binary logarithm rounded up |
| `TreeCollectives.ReduceRange` | core/reference/pacore/fabric.py:2706-2719 | in place over any range and target: the halving combination reaches the target, nothing outside the range changes, every other rank sends exactly once, within ceil(log2 n) levels |
| `TreeCollectives.Reduce` | core/reference/pacore/fabric.py:2703-2723 | for any root: the tree combination, hence the in-order fold when the operator is associative |
| `TreeCollectives.TreeRightIff` | core/reference/pacore/fabric.py:2706-2719 | the halving reduce equals the in-order fold on every list if and only if the operator is associative |
| `TreeCollectives.GatherRange` | core/reference/pacore/fabric.py:2515-2532 | the target ends with all entries of the range in rank order, everybody else with nothing, each having sent exactly once |
| `TreeCollectives.Gather` | core/reference/pacore/fabric.py:2571-2577 | the root receives all values in rank order in n - 1 transfers |
| `TreeCollectives.ScatterRange` | core/reference/pacore/fabric.py:2458-2475 | every rank of the range gets its own chunk; every rank but the holder receives exactly once, from a rank that had the data in an earlier step; every message carries its receiver's chunk and only chunks its sender had received |
| `TreeCollectives.Scatter` | core/reference/pacore/fabric.py:2509-2512 | the same from any root over all ranks |
| `TreeCollectives.DrainsNode` | core/reference/pacore/fabric.py:2515-2532 | joining two drained halves by one transfer drains the whole |
| `TreeCollectives.FloodsNode` | core/reference/pacore/fabric.py:2458-2475 | splitting by one transfer and flooding both halves floods the whole |
| `TreeCollectives.ForwardsNode` | core/reference/pacore/fabric.py:2458-2475 | a block sent to one half and two forwarding halves make the whole forward: no rank sends a chunk it has not received |
| `BinomialBroadcasts.Round` | core/reference/pacore/fabric.py:2405-2415 | with the root first, one round doubles the set of ranks that have the value, in rank order; otherwise one rank is passed over |
| `BinomialBroadcasts.BinomialBroadcast` | core/reference/pacore/fabric.py:2398-2417 | ceil(log2 n) rounds; with the root first every rank is reached and each other rank exactly once; with any other root one named rank is never written |
| `BinomialBroadcasts.StrandedIsMissed` | core/reference/pacore/fabric.py:2405-2413 | no sender in any later round aims at the rank next after the root |
| `BinomialBroadcasts.TreeBroadcast` | core/reference/pacore/fabric.py:2420-2455 | the public tree broadcast is complete if and only if the root is rank 0 or there is only one rank |
| `BinomialBroadcasts.ScanRange` | core/reference/pacore/fabric.py:2831-2845 | in place: every rank of the range holds its inclusive prefix, and the total is the fold of the range; no recorded transfer goes from the left half into the right half |
| `BinomialBroadcasts.TreeScan` | core/reference/pacore/fabric.py:2831-2849 | every inclusive prefix, for any associative operator; the recorded transfers alone bring every rank what lies below it if and only if there is a single rank; with two workers there is none |
| `BinomialBroadcasts.NeverReaches` | core/reference/pacore/fabric.py:2831-2845 | where no transfer crosses a line from below, nothing held below the line reaches a rank above it along any route |
| `DoublingCollectives.BlocksPair` | core/reference/pacore/fabric.py:2756-2757 | partners form one aligned block of twice the size, the lower rank in its lower half, and partnership is symmetric |
| `DoublingCollectives.BlockFits` | core/reference/pacore/fabric.py:2755-2757 | for a power of two every partner exists |
| `DoublingCollectives.BlockFoldsStep` | core/reference/pacore/fabric.py:2760-2764 | one exchange round takes blocks combined by halves to blocks twice as long, for any operator |
| `DoublingCollectives.ReduceRound` | core/reference/pacore/fabric.py:2755-2766 | one round on the array: every paired rank combines lower with higher as they were before the round |
| `DoublingCollectives.DoublingRounds` | core/reference/pacore/fabric.py:2751-2766 | all rounds: for a power of two nobody is left without a partner and every rank holds everything combined by halves |
| `DoublingCollectives.AllReduce` | core/reference/pacore/fabric.py:2751-2777 | for a power of two every rank ends with everything combined by halves, and nothing is repaired; otherwise with the in-order fold, from the repair; for any operator |
| `DoublingCollectives.Scan` | core/reference/pacore/fabric.py:2806-2817 | every inclusive prefix for any number of ranks, in ceil(log2 n) rounds |
| `DoublingCollectives.AllGather` | core/reference/pacore/fabric.py:2605-2635 | every buffer is full and right; for a power of two no entry had to be filled in afterwards |
| `DoublingCollectives.GatheredStep` | core/reference/pacore/fabric.py:2621-2627 | for a power of two, one round takes buffers holding exactly a block to buffers holding exactly a block twice as long |
| `RingCollectives.RingAllReduce` | core/reference/pacore/fabric.py:2737-2750 | rank r ends with the fold in the order in which the values pass it; in each of n - 1 steps every rank sends to its successor and nothing else is sent |
| `RingCollectives.RingRightIff` | core/reference/pacore/fabric.py:2737-2750 | that is the in-order fold for every list on every rank if and only if the operator is associative and commutative |
| `RingCollectives.RingFoldsStep` | core/reference/pacore/fabric.py:2740-2748 | one hop extends the fold of every rank by the value of one more predecessor |
| `RingCollectives.RingReduce` | core/reference/pacore/fabric.py:2693-2702 | the root combines its own value with the fold of the others in ring order, over the path that starts behind the root |
| `RingCollectives.LinearReduce` | core/reference/pacore/fabric.py:2680-2692 | the root combines its own value first and the others in rank order; each other rank sends once, to the root |
| `RingCollectives.ReduceOrders` | core/reference/pacore/fabric.py:2680-2702 | both orders give the in-order fold at rank 0 from associativity, at any root with commutativity as well |
| `OperatorLaws.AllReduceRightIff` | core/reference/pacore/fabric.py:2727-2788 | for an operator with a unit and each number n of ranks: the allreduce is right on every list of length n if and only if the operator has what the schedule asks: nothing for linear and pairwise, associativity for the tree from three ranks and for doubling from four if n is a power of two, commutativity for the ring of two, both for larger rings |
| `OperatorLaws.ReduceRightIff` | core/reference/pacore/fabric.py:2668-2725 | the same for a reduce to each root: linear needs nothing at rank 0, commutativity at rank 1, both laws beyond; the ring needs associativity at rank 0, commutativity at the last rank, both between; the tree needs associativity from three ranks on |
| `OperatorLaws.AllReduceLawSuffices` | core/reference/pacore/fabric.py:2727-2788 | the law suffices for every list without any unit |
| `OperatorLaws.ReduceLawSuffices` | core/reference/pacore/fabric.py:2668-2725 | the law suffices for every list and root without any unit |
| `OperatorLaws.ConcatOnARing` | core/reference/pacore/fabric.py:2737-2750 | the concrete failure: on a ring of three, rank 1 concatenates a, b and c to bac |
| `OperatorLaws.UnitIsNeeded` | core/reference/pacore/fabric.py:2737-2750 | the unit matters: an operator without one that does not commute, for which a ring of three is right on every list |
| `RingCollectives.RingAllGather` | core/reference/pacore/fabric.py:2589-2604 | after n - 1 hops every buffer holds every value; in each hop every rank sends to its successor |
| `CollectiveDispatch.RunBroadcast` | core/reference/pacore/fabric.py:2420-2455 | every rank has the value if and only if there is one rank, the root is 0, or the schedule is not a binomial one; the transfers form a star, a path round the ring, or a tree of ceil(log2 n) levels |
| `CollectiveDispatch.RunReduce` | core/reference/pacore/fabric.py:2668-2725 | for any operator the root holds the combination that belongs to the schedule; the transfers form a star, a path round the ring, or a tree of n - 1 transfers in ceil(log2 n) levels |
| `CollectiveDispatch.RunAllReduce` | core/reference/pacore/fabric.py:2727-2788 | for any operator every rank holds the combination that belongs to the schedule, over a reduce to rank 0 that is over before the broadcast from there begins, n - 1 full rounds of the ring, or exchanges without repair for a power of two |
| `CollectiveDispatch.RunScan` | core/reference/pacore/fabric.py:2790-2850 | under every schedule rank r ends with the fold of values 0 to r |
| `CollectiveDispatch.AllToAllRound` | core/reference/pacore/fabric.py:2871-2877 | in round k every rank sends exactly one block, k ranks ahead |
| `CollectiveDispatch.PairwiseAllToAll` | core/reference/pacore/fabric.py:2860-2887 | the result is the exact transpose; in each of n - 1 rounds every rank sends one message, reaching one rank further than in the round before |
| `CollectiveDispatch.ChosenAllReduceRightIff` | core/reference/pacore/fabric.py:2932-2991 | for an operator with a unit the allreduce chosen for n ranks is right on every list of length n if and only if it is associative and commutative where a ring was chosen, associative where doubling was chosen |
| `CollectiveDispatch.ChosenConcatIff` | core/reference/pacore/fabric.py:2285-2991 | concatenation comes out in order under the chosen schedule, on every list, if and only if no ring was chosen |
| `CollectiveDispatch.ChosenReduceRightIff` | core/reference/pacore/fabric.py:2932-2991 | for an operator with a unit the exact law under which the reduce chosen for n ranks and a root is right on every list |
| `CollectiveDispatch.AllReduceSelected` | core/reference/pacore/fabric.py:2932-2986 | the chosen allreduce: recursive doubling repairs nothing; on a ring-like topology the transfers use existing links only if and only if the topology is a true ring |
| `CollectiveDispatch.ReduceSelected` | core/reference/pacore/fabric.py:2957-2987 | the chosen reduce: the tree takes n - 1 transfers in ceil(log2 n) levels; on a ring-like topology the transfers use existing links only if and only if the topology is a true ring or the root is the last rank |
| `CollectiveDispatch.AllToAllSelected` | core/reference/pacore/fabric.py:2957-2968 | the chosen all-to-all is the transpose with one message per rank and round; on a ring-like topology, where the claim is that only neighbours exchange, that is so if and only if it is a true ring of three |
| `CollectiveDispatch.BroadcastSelected` | core/reference/pacore/fabric.py:2957-2987 | the chosen broadcast is complete if and only if the root is 0, there are at most three ranks, or the topology is ring-like; there its transfers use existing links only if and only if the topology is a true ring or the root is 0 |
| `Bits.XorCancels` | adapter/dfabric/witness.py:111-116 | exclusive or with the same word twice is the identity |
| `Bits.XorMod` | adapter/dfabric/witness.py:17-23 | the low k bits of an exclusive or depend on the low k bits of its operands only |
| `Witnesses.ReferenceWitness` | adapter/dfabric/witness.py:111-116 | the loop computes the witness function; its last mask changes nothing |
| `Witnesses.KnownWitnesses` | adapter/dfabric/witness.py:111-116 | two witnesses worked out by hand |
| `Witnesses.MixInverts` | adapter/dfabric/witness.py:114-115 | mixing with a fixed word is a bijection of the 64-bit accumulators, with an explicit inverse |
| `Witnesses.StartIsDetected` | adapter/dfabric/witness.py:111-116 | two starting accumulators give the same witness if and only if they agree on 64 bits |
| `Witnesses.OneWordIsDetected` | adapter/dfabric/witness.py:111-116 | replacing any one word changes the witness if and only if the word changes on 64 bits |
| `Witnesses.TwoWordsCanCancel` | adapter/dfabric/witness.py:111-116 | the limit: any change of a word can be hidden by a change of the next one |
| `Witnesses.SegmentsJoin` | adapter/dfabric/witness.py:128-132 | segments lose, repeat and reorder nothing |
| `Witnesses.WitnessConcat` | adapter/dfabric/witness.py:128-132 | threading the accumulator through two parts is witnessing the whole |
| `Witnesses.ThreadedIsJoined` | adapter/dfabric/witness.py:37-44 | threading it through any list of segments is witnessing their concatenation |
| `WitnessCompiler.WideMix` | adapter/dfabric/witness.py:17-23 | the low 64 bits of the wide multiply and exclusive or are those of the 64-bit operations |
| `WitnessCompiler.RowPreserves` | adapter/dfabric/witness.py:186-189 | the three instructions of a row take the witness of i rows to that of i + 1 rows |
| `WitnessCompiler.LoweringPreservesMeaning` | adapter/dfabric/witness.py:184-191 | for all words, starting accumulators, register contents and widths of at least 64 the code halts in step 3n + 4 and not before, with the witness in the low 64 bits of R2 |
| `WitnessCompiler.WidthIsExact` | adapter/dfabric/witness.py:17-23 | a register width is wide enough for every program if and only if it is at least 64 |
| `WitnessLowerings.RowBoundIsCeiling` | adapter/dfabric/witness.py:54-66 | the row bounds 84 and 21843 are exactly the instruction ceilings 256 and 65535 |
| `WitnessLowerings.CheckBound` | adapter/dfabric/witness.py:139-149 | refused if and only if there are no rows or 3n + 4 exceeds the ceiling, with the matching reason |
| `WitnessLowerings.LowerLctlc11` | adapter/dfabric/witness.py:156-199 | accepted within the ceiling only, assembles to the common code, in 3n + 10 lines: the 512-line refusal is never reached |
| `WitnessLowerings.LowerMssl` | adapter/dfabric/witness.py:205-224 | accepted within the ceiling only, assembles to the common code |
| `WitnessLowerings.LowerLctlc12` | adapter/dfabric/witness.py:230-263 | accepted within the ceiling only, assembles to the common code |
| `WitnessLowerings.LowerQvm` | adapter/dfabric/witness.py:269-306 | accepted within the ceiling only, assembles to the common code |
| `WitnessLowerings.Submit` | adapter/dfabric/fabric_runtime.py:128-142 | lowering, assembling and running a segment on a node gives its witness, or the refusal of its lowering |
| `WitnessLowerings.ChainTask` | adapter/dfabric/fabric_runtime.py:145-163 | the chain on one node ends with the witness of the whole bundle and agrees with the reference; it is refused if and only if the first segment is too long for the node |
| `WitnessLowerings.Pipeline` | adapter/dfabric/fabric_runtime.py:228-280 | segments placed on nodes of any kinds and widths are never refused and end with the witness of the whole bundle |
| `Crdts.GCounterLaws` | core/reference/pacore/crdt.py:193-198 | merge is associative, commutative and idempotent |
| `Crdts.PNCounterLaws` | core/reference/pacore/crdt.py:241-248 | merge is associative, commutative and idempotent |
| `Crdts.GSetLaws` | core/reference/pacore/crdt.py:290-292 | merge is associative, commutative and idempotent |
| `Crdts.ORSetLaws` | core/reference/pacore/crdt.py:343-349 | merge is associative, commutative and idempotent, the counter included |
| `Crdts.ClockRegisterLaws` | core/reference/pacore/crdt.py:423-454 | under the Lamport and wall-clock policies merge is associative, commutative and idempotent |
| `Crdts.RegistersAbsorb` | core/reference/pacore/crdt.py:423-454 | under every policy, the version-vector one included, the merge absorbs, so a sweep converges |
| `Crdts.VersionMergeClashes` | core/reference/pacore/crdt.py:410-454 | the concrete clash: a write with an explicit earlier timestamp after having seen a later one |
| `Crdts.MergeKeeps` | core/reference/pacore/crdt.py:435-454 | in plain comparisons: a merge carries the write of one side, versions are the entrywise maximum, and neither side outdoes it by timestamp, writer and value, except that under the version-vector policy a left side that is ahead wins |
| `Crdts.SweepKeepsLatest` | core/reference/pacore/crdt.py:423-454 | after a sweep under a clock policy every replica holds the maximal write of all replicas and the entrywise maximum of all versions |
| `AntiEntropies.AntiEntropy.constructor` | core/reference/pacore/crdt.py:662-665 | the reconciler starts from the given replicas with an empty history |
| `AntiEntropies.AntiEntropy.Sync` | core/reference/pacore/crdt.py:677-693 | both partners end with the merge, nobody else changes, and the record says whether a hash changed; unknown names are refused |
| `AntiEntropies.SweepReachesJoin` | core/reference/pacore/crdt.py:705-706 | for any number of replicas one lexicographic sweep of all pairs leaves every replica at the merge of all states, for every merge that absorbs |
| `AntiEntropies.SweepAgreesIff` | core/reference/pacore/crdt.py:705-706 | for an idempotent merge a sweep brings all replicas to the merge of all states, from any states, if and only if the merge absorbs: merging a state once more into a merge it began adds nothing; neither associativity nor commutativity is needed |
| `AntiEntropies.FirstRow` | core/reference/pacore/crdt.py:705-706 | the first row collects everything in the first replica and leaves each prefix of the merge with the replica that completed it |
| `AntiEntropies.LaterRows` | core/reference/pacore/crdt.py:705-706 | in every later row each exchange meets two neighbouring prefixes, and the row ends at the whole merge |
| `AntiEntropies.AntiEntropy.SweepRound` | core/reference/pacore/crdt.py:704-707 | the loop over the pairs is that sweep; from equal states it reports no change |
| `AntiEntropies.AntiEntropy.Converge` | core/reference/pacore/crdt.py:695-719 | for every merge that absorbs, with at least two replicas and one round: converged, at most two rounds, everybody at the merge of all states; otherwise nothing changes; the verdict is exactly whether all hashes agree |
| `ObservedRemove.Replica.Add` | core/reference/pacore/crdt.py:324-332 | the element is added under a tag of this replica with a counter raised by one |
| `ObservedRemove.Replica.Remove` | core/reference/pacore/crdt.py:334-337 | exactly the tags of the element that are here become tombstones |
| `ObservedRemove.Replica.Merge` | core/reference/pacore/crdt.py:343-349 | the state becomes the merge |
| `ObservedRemove.TagsAreFresh` | core/reference/pacore/crdt.py:324-332 | over every run of adds, removes and exchanges, two adds never mint the same tag |
| `ObservedRemove.CounterBounds` | core/reference/pacore/crdt.py:324-349 | the counter of a replica bounds the numbers of all tags it has minted |
| `ObservedRemove.StatesAreExplained` | core/reference/pacore/crdt.py:328-349 | over every run the state of a replica holds exactly the tags of the adds that have reached it and has removed exactly the tags that removes that have reached it had seen |
| `ObservedRemove.ContainsIff` | core/reference/pacore/crdt.py:339-341 | at any moment an element is present on a replica if and only if some add of it has reached it that no remove that has reached it had observed |
| `ObservedRemove.ConvergedContainsIff` | core/reference/pacore/crdt.py:324-349 | after any run and one sweep, on every replica: present if and only if some add of it was not observed by any remove, so an add concurrent with every remove survives |
| `CounterRuns.RunsAreBounded` | core/reference/pacore/crdt.py:185-198 | over every run an entry never exceeds what its replica has counted, and a replica knows its own count |
| `CounterRuns.ConvergedValue` | core/reference/pacore/crdt.py:185-201 | after any run and one sweep the value of every replica is the sum of all increments: none is lost or counted twice |
| `CounterRuns.ConvergedBalance` | core/reference/pacore/crdt.py:219-252 | after any run of increments and decrements and one sweep the value of every replica is the difference of all of them |
| `RegisterRuns.ConvergedReadsLatest` | core/reference/pacore/crdt.py:410-454 | after any run of writes and exchanges and one sweep every replica reads one of the writes of the run or of the start, and none outdoes it |
| `RegisterRuns.NeverBack` | core/reference/pacore/crdt.py:410-454 | under a clock policy what a replica holds is never outdone by what it held before |
| `TimerIds.IdValue` | core/reference/pacore/fabric.py:2115 | the number of a timer can be read back from its id |
| `TimerIds.EqualLengthIsNumeric` | core/reference/pacore/fabric.py:2128 | texts of equal length are ordered like the numbers they write |
| `TimerIds.IdOrderIff` | core/reference/pacore/fabric.py:2115-2128 | among the first N timers the text order of ids is the order of creation if and only if N is at most 100000 |
| `TimerWheels.TimerWheel.constructor` | core/reference/pacore/fabric.py:2099-2106 | an empty wheel refines the empty list |
| `TimerWheels.TimerWheel.Schedule` | core/reference/pacore/fabric.py:2108-2120 | refused if and only if the delay is negative or at least the number of slots; otherwise the list gains the timer and every slot still holds exactly its residue class |
| `TimerWheels.TimerWheel.Tick` | core/reference/pacore/fabric.py:2124-2133 | one tick on one slot is one tick of the plain list: the due timers leave in the order of their ids |
| `TimerWheels.TimerWheel.Advance` | core/reference/pacore/fabric.py:2122-2134 | the wheel refines the list over any number of ticks |
| `TimerRuns.TicksMove` | core/reference/pacore/fabric.py:2122-2134 | without the tick function: after n ticks the time is n higher, exactly the pending timers due in between have fired, the others are pending |
| `TimerRuns.AdvanceReturns` | core/reference/pacore/fabric.py:2122-2134 | what an advance returns is exactly what became due during it, in the order of ticks and, within a tick, of ids |
| `TimerWheels.RemoveAll` | core/reference/pacore/fabric.py:2127-2129 | taking the due timers out one by one leaves exactly the others |
| `TimerWheels.SlotOfDue` | core/reference/pacore/fabric.py:2119-2127 | what is due is found in its own slot and no other slot loses anything |
| `TimerRuns.FiresExactlyOnTime` | core/reference/pacore/fabric.py:2108-2134 | over every run of schedules and advances a timer has fired if and only if its delay was at least one tick and its tick has come; until then, and forever for delay zero, it is pending |
| `TimerRuns.FiredInOrder` | core/reference/pacore/fabric.py:2122-2134 | what has fired is in the order of ticks and, within a tick, of ids; no timer fires twice |
| `TimerRuns.FiredInCreationOrder` | core/reference/pacore/fabric.py:2122-2134 | with at most 100000 timers the order within a tick is the order of creation |
| `TimerRuns.AtOnceInOrderIff` | core/reference/pacore/fabric.py:2108-2134 | timers scheduled one after the other for the same tick fire in that order if and only if there are at most 100000 of them |
| `AsyncEngines.AsyncEngine.constructor` | core/reference/pacore/fabric.py:2160-2171 | no futures, no edges |
| `AsyncEngines.AsyncEngine.AddHappensBefore` | core/reference/pacore/fabric.py:2249-2251 | exactly one edge is added |
| `AsyncEngines.AsyncEngine.Submit` | core/reference/pacore/fabric.py:2174-2187 | a new pending future with an edge from each named predecessor |
| `AsyncEngines.AsyncEngine.Pass` | core/reference/pacore/fabric.py:2198-2214 | one pass resolves every future that is ready when it is reached; a pass without progress leaves only futures that are not ready |
| `AsyncEngines.AsyncEngine.Drain` | core/reference/pacore/fabric.py:2189-2216 | terminates; the order of resolution extends happens-before and is the order of submission when every edge points forward; what is left waits for something unresolved; everything is resolved if and only if no cycle runs through pending futures |
| `AsyncEngines.StuckHasCycle` | core/reference/pacore/fabric.py:2195-2214 | futures that all wait for one another contain a cycle |
| `AsyncEngines.CycleStays` | core/reference/pacore/fabric.py:2199-2203 | no future on a cycle of pending futures is ever resolved |
| `AsyncEngines.AsyncEngine.HappensBefore` | core/reference/pacore/fabric.py:2253-2264 | true if and only if a nonempty path of edges leads from a to b |
| `WorkStealings.WorkStealing.constructor` | core/reference/pacore/fabric.py:3025-3037 | all deques empty, under the given migration rules and trust domains |
| `WorkStealings.WorkStealing.Push` | core/reference/pacore/fabric.py:3039-3043 | the task joins the back of one deque and is owned by that worker; refused for an unknown worker; sound placement of tasks survives if and only if no task of that identity was queued |
| `WorkStealings.WorkStealing.PopLocal` | core/reference/pacore/fabric.py:3045-3048 | the youngest task of the own deque leaves, nothing else does |
| `WorkStealings.WorkStealing.StealSpecific` | core/reference/pacore/fabric.py:3084-3122 | succeeds if and only if the task is movable, holds no unknown quantum state, the rules permit it and the victim queues it; the set of queued tasks is unchanged |
| `WorkStealings.WorkStealing.AttemptSteal` | core/reference/pacore/fabric.py:3124-3160 | takes the youngest own task, else the oldest stealable task of the deepest victim that has one, at the nearest level where any victim has one; nothing if no victim has one; rejected if and only if, in strict mode, the first task on the walk that is stealable or of unknown quantum state is unknown; the refusals noted are the tasks passed by |
| `WorkStealings.WorkStealing.Seek` | core/reference/pacore/fabric.py:3132-3157 | the search over levels, victims and queues: the first task met that may be taken or, in strict mode, has unknown quantum state ends it, and every task met before is one refusal |
| `WorkStealings.WalkIgnoresRules` | core/reference/pacore/fabric.py:3105-3160 | the concrete failure: under the default rules a movable task with a known quantum payload is refused to a named steal and then migrated by the walk |
| `WorkStealings.WalksTakeAll` | core/reference/pacore/fabric.py:3124-3160 | repeated walks of a thief until nothing is on offer take exactly the tasks that were in its reach: stealable and queued on another worker of its scopes |
| `WorkStealings.WalksRespectRulesIff` | core/reference/pacore/fabric.py:654-673 | all that such walks migrate is permitted by the migration rules if and only if every task in reach of the thief is |
| `WorkStealings.DropPlaces` | core/reference/pacore/fabric.py:3114 | taking a task out keeps: every queued task is queued once, owned where it is, and unknown quantum state is where it was pushed |
| `WorkStealings.AppendPlaces` | core/reference/pacore/fabric.py:3039-3043 | adding a task keeps the same |
| `WorkStealings.SortOrders` | core/reference/pacore/fabric.py:3067-3070 | victims come deepest queue first, then by name |
| `ErrorAlgebra.Compose` | core/reference/pacore/erroralgebra.py:274-415 | the loops compute the composition with its refusals in order; an empty list is an error |
| `ErrorLaws.ResolvesIff` | core/reference/pacore/erroralgebra.py:274-415 | a composition resolves if and only if its terms are comparable, a law covers them and the outcome stays in range |
| `ErrorLaws.ReasonsInOrder` | core/reference/pacore/erroralgebra.py:285-345 | why a composition does not resolve: the first of these reasons in the order of the source |
| `ErrorLaws.ResolvedMeans` | core/reference/pacore/erroralgebra.py:345-415 | the value of a resolved composition by its kind and assumption: chance that all succeed, that one fails, sum, or sum of squares, each in plain arithmetic |
| `ErrorLaws.TwoDeviations` | core/reference/pacore/erroralgebra.py:370-374 | two independent deviations compose to the sum of their squares, as a variance |
| `ErrorAlgebra.ProductInRange` | core/reference/pacore/erroralgebra.py:345-350 | a product of probabilities is a probability |
| `ErrorAlgebra.NeverRefused` | core/reference/pacore/erroralgebra.py:345-408 | the product, additive and variance laws never build a term that its constructor refuses |
| `ErrorAlgebra.ProductBounds` | core/reference/pacore/erroralgebra.py:354-359 | 1 - sum <= product <= 1 - sum + sum over pairs, and twice the pairs are at most the square of the sum |
| `ErrorAlgebra.AdditiveLawError` | core/reference/pacore/erroralgebra.py:354-369 | the additive value over-estimates the exact one, by exactly what is reported, by at most the sum over pairs and half its own square |
| `ErrorAlgebra.Regroup` | core/reference/pacore/erroralgebra.py:274-415 | when a list of terms resolves, composing two parts and then their results resolves to the same term under the same law, if and only if under the additive law neither part sums to more than one; values that are not negative never do |

## Left out

- Files, subprocesses, command lines, manifests, ledgers, schemas and reports: input and output.
- The BSP engine, barriers, load balancing, federation topology, resource limits and claims, and the process-pool
  runner.
- Task bodies that themselves call the runtime, cancel tasks or use its clock: a body reads and changes the world
  outside.
- The worker a task gets when its spawner names none, and the ordering of pending tasks by priority: owners and lists
  are given, in any order.
- A log or clock handed to a runtime from outside, payload provenance, and the resource and failure deltas of events.
- Timer callbacks, which may raise and lose the rest of their tick, or schedule further timers.
- Wall-clock metrics, payload byte counts, synchronisation counts and history records of collectives; the transfers'
  steps, senders and receivers are modelled for broadcast, reduce, allreduce, tree gather, tree scatter, tree scan,
  doubling and ring allgather, and pairwise all-to-all.
- Allgather under the linear, tree and pairwise schedules; gather and scatter under the linear, pairwise and ring ones;
  all-to-all under the linear and doubling ones: direct copies that would add easy members.
- Payloads equal to Python's None in a doubling allgather, where the source reads them as missing and fills them in
  again.
- The virtual machines and assemblers themselves; brvm.c and brasm.c are not part of this model. The target machine is
  the one described at adapter/dfabric/witness.py:17-23, and a source line is the fields its assembler reads, without
  row ids, lanes, capabilities and header texts.
- The digest of a row's text, JSON canonicalisation and Unicode normalisation.
- The commutation oracle (numpy matrices), Monte-Carlo propagation and coherence budgets.
- The parser of programs and canonical text; the verifier starts from rows whose catalogue memberships are given as
  flags, and raw cells that are no references are opaque keys.
- The iteration order of Python sets in the verifier: keys are taken in listing order, which affects the numbering of
  new lineages and the order of diagnostics of one row only.
- Cancelling a pending future: the source's drain then raises and loses its pending list, so futures are pending, done
  or failed.
- Changes of a queued task's own flags between a push and a steal: a task carries fixed flags.
- Deques in which a task is queued twice: pushing may make them, popping and stealing are modelled without them.
- Counter increments and register writes as methods of objects: they are functions on states, because their runs are
  what is reasoned about; the OR-Set replica is a class.
- An explicit tag given by the caller of an OR-Set add, which may repeat; tags are minted by the replica.
- Registers with different clock policies, which the source refuses to merge, and merges of different types.
- RegisterRuns.ConvergedReadsLatest: does not cover writes with an explicit timestamp, nor the version-vector policy,
  whose merges are not commutative (`Crdts.VersionMergeClashes`); what one merge keeps under it is `Crdts.MergeKeeps`.
- AcceptedPrograms.LocalUseIsAtHome: does not speak of a teleport destination without a source of its own, which the
  teleport leaves alone.
- ErrorAlgebra.Compose: does not model the covariance law L5, names, domains, confidence levels and provenance, nor the
  neglected magnitude attached to a refused additive composition; law L5 needs square roots.
- TaskRuntimes.TaskRuntime.ReleaseOwnership: does not require that the releasing task holds the payload, because the
  source does not check it either.
- AsyncEngines.AsyncEngine.Drain: does not model the events and log entries emitted along the way.
- AntiEntropies.AntiEntropy.Converge: does not model the version vector ticked at each exchange, nor quantum-value
  rejection.
- DeadlockDetection.DeadlockDetector.Detect: does not model the explanatory texts of the report.
