# Verified model of orditect's coordination core

orditect coordinates long-running tasks: it registers dependencies between tasks, decides which tasks are ready,
cancels children whose parents have failed, runs workflows with compensation, hands out resource slots, recovers
from crashes and keeps an append-only record of what happened. This Dafny project models the parts of it in which a
mistake would be hard to see by reading one function, and proves what they promise for every input, every run and
every interleaving.

`dafny verify dfyconfig.toml` checks the whole project. Every module verifies on its own contracts; nothing is assumed.

## What is modelled

* **Dependency governance** (`HotStore`, `Protocol*`, `SoloRun`, `Governor`, `Lineage`, `Rebuild`, `RebuildTwice`,
  `CycleScan`). `register_dependency`, `notify_task_terminal` and `vote_cancel` are modelled twice. `Protocol` is a
  transition system in which any number of registrations, notifications and manual votes interleave, one storage call
  at a time, with task creation and status writes. `Governor` is the imperative method over a mutable store. `SoloRun`
  connects the two: a registration that runs alone ends with the store the method leaves.
* **Workflows** (`WorkflowDag`, `Saga`): validation, Kahn's sort, parallel groups, sequential and parallel execution,
  and rollback in reverse order.
* **Execution** (`TaskStatus`, `Recovery`, `Slots`, `SlotsDepth`, `SlotsStructured`, `Cascade`): terminal finality
  under races, safe reuse, slot inheritance along the lineage, and cascading cancellation.
* **Records and budgets** (`SnapshotFold`, `SnapshotRules`, `Budget`): the snapshot merge, the drift rules over it,
  and the post-charged budget ledger with its audit table.

Task, step and resource names are values of `Graph.Node`; statuses of the governance are arbitrary strings, as its
vocabulary is declared by the caller. Time, expiry and randomness are left out; what a handler, a task body or a race
decides is a parameter or a choice of the step taken. Loops over Python sets and over storage listings take their
elements in any order. Integers are unbounded, as in Python.

## Where the code does less than its comments say

Each of these has a concrete run or input, and the condition under which the property does hold.

* *Registration compensation is not harmless* (comment at `packages/flow/src/orditect/flow/governance/dependency.py:220-224`):
  a parent that ends during a registration can be decremented for twice, and the child is then reported ready while
  another parent is still running (`ProtocolOverlap.OverlapReportsTooEarly`). With one registration per child and one
  notification per task, the counter is right exactly when no parent was both found ended by the re-check and
  decremented by its notification after the counter was set (`ProtocolDecrements.CounterExactInOnceRuns`). Runs in
  which no parent ends during a registration ensure that (`ProtocolTheorems.ExactReadinessInCalmRuns`).
* *Exactly one voter observes the threshold* (docstrings of `vote_cancel` and of the storage primitive): a parent that
  votes twice can observe it twice (`ProtocolObservers.TwoVotesObserve`). At most one vote of a ballot observes it if
  and only if no vote is cast after the ballot is complete (`ProtocolObservers.OneObserverIff`), as with distinct voters.
* *A notification clears the ballot of the task that ended*: a vote decided on before the task ended may be cast after
  the clearing and then stays (`ProtocolCleanup.LateVoteStays`, `ProtocolCleanup.BallotAfterCleanup`). Only such votes
  can be on the ballot of a task that has been notified of (`ProtocolCleanup.NotificationCleansUp`).
* *The registration-time cycle check* rejects only real cycles, misses none while all ways from the parents up to the
  child stay within 32 links, and misses every one when all ways are longer (`Lineage.CheckIsExact`). With ways of both
  kinds one clear way is enough (`Lineage.ClearWayIsFound`); but because a node first met at the bound is not looked at
  again, a registration that closes a cycle of three tasks can be accepted (`Lineage.ShortCycleMissed`). Submissions
  are not checked at all (`Lineage.UnknownParentClosesCycle`). The graph stays acyclic if and only if no changed task
  was an ancestor of what it was linked to (`Lineage.HistoryAcyclicIff`).
* *Repeated dependencies* pass workflow validation but defeat the topological sort, so that a failed parallel run
  compensates nothing it has completed (`Saga.RepeatedDependencyLosesCompensation`): rollback happens if and only if
  no step repeats a dependency (`Saga.Execute`).
* *A child with a missing parent* is not always skipped as a whole by the counter rebuild (`Rebuild.SkippedPartly`,
  `Rebuild.SkippedWholeIff`), and with an injected lifecycle a second rebuild may change a child whose parent the first
  one cancelled (`RebuildTwice.LifecycleBreaksIdempotence`). The second changes nothing if and only if the first came
  to no child before it ended one of its parents, as far as that shows in the counter or the votes
  (`RebuildTwice.RebuildIsIdempotent`); cold rows that mention parents before their children ensure that
  (`RebuildTwice.SettledWhen`).
* *Slot inheritance* stops at 32 levels: one level deeper a task can wait for a slot its own ancestor holds
  (`SlotsDepth.DeepTaskWaits`). And the ancestor need not hold it any more: a body can run while no slot is in use
  (`SlotsStructured.BodyWithoutSlot`). Every body is backed by a held slot if tasks leave their bodies only after the
  tasks they submitted have left theirs (`SlotsStructured.EveryBodyIsBacked`), and whenever a holder leaves earlier
  than that, the run can go on to a body without one (`SlotsStructured.EarlyLeaveCanStrand`).
* *Terminal finality* holds within a generation, but a run that outlives the reopening of its task settles the new
  generation (`Recovery.StaleRunSettlesNewGeneration`). Reopening only what nothing works on rules that out
  (`Recovery.OwnRunSettlesGeneration`), and nothing less does (`Recovery.OldRunCanSettle`). The recovery service waits
  for that, but for five seconds at most. A recorded result can be replaced within its generation exactly while an
  execution past its start is in flight and not cancelled (`Recovery.ResultIsFinal`, `Recovery.ResultCanChange`).
* *The snapshot fold* keeps the last update time that has a value; its docstring says the last row's value
  (`SnapshotFold.LastRowKeepsUpdateTime`).

## Model

| member | source | states |
|---|---|---|
| CycleScan.GroupParents | packages/flow/src/orditect/flow/governance/tools.py:26-32 | the one-pass adjacency lists hold exactly the stored edges, in row order, and the node set exactly their endpoints |
| CycleScan.NextParent | packages/flow/src/orditect/flow/governance/tools.py:50-66 | taking parents off a frame stops at the first new one, if any, and every parent passed on the way is visited already or closes a cycle that is reported, each node set once |
| CycleScan.ScanFrom | packages/flow/src/orditect/flow/governance/tools.py:39-69 | the search from one root keeps a reverse finishing order of everything visited in which only reported cycles run backwards |
| CycleScan.ScanDependencyCycles | packages/flow/src/orditect/flow/governance/tools.py:15-70 | every reported list is a simple cycle of the stored edges, no node set is reported twice, nothing is reported if and only if the graph is acyclic, and every cycle there is has an edge with both ends on one reported cycle |
| CycleScan.LoopIsSimple | packages/flow/src/orditect/flow/governance/tools.py:57-61 | cutting the current path at a parent that is on it gives a closed walk without repetition |
| WorkflowDag.IndexSteps | packages/flow/src/orditect/flow/workflow/dag.py:16-22 | the step index keeps, for each name, the last step declared under it |
| WorkflowDag.CycleCheck.HasCycle | packages/flow/src/orditect/flow/workflow/dag.py:42-54 | the recursive colouring search answers true only with a real cycle behind it, and false only after placing all it visited in dependency order |
| WorkflowDag.Validate | packages/flow/src/orditect/flow/workflow/dag.py:24-61 | validation succeeds if and only if every dependency exists and the dependencies are acyclic, and tells the two errors apart |
| WorkflowDag.StartQueue | packages/flow/src/orditect/flow/workflow/dag.py:69-78 | the initial in-degrees count dependencies with repetition and the queue holds exactly the steps without any |
| WorkflowDag.Release | packages/flow/src/orditect/flow/workflow/dag.py:86-91 | after a step is done, the in-degrees are those of the larger finished set and exactly the steps that reached zero are queued, once |
| WorkflowDag.DegreeZero | packages/flow/src/orditect/flow/workflow/dag.py:86-91 | an in-degree reaches zero if and only if the step repeats no dependency and all of them are finished |
| WorkflowDag.NothingStuck | packages/flow/src/orditect/flow/workflow/dag.py:93-97 | an acyclic workflow without repeated dependencies leaves no step unsorted when the queue runs dry |
| WorkflowDag.TopologicalSort | packages/flow/src/orditect/flow/workflow/dag.py:63-97 | succeeds if and only if the workflow is acyclic and repeats no dependency, and then lists every step once, after its dependencies |
| Saga.GetReadySteps | packages/flow/src/orditect/flow/workflow/dag.py:99-114 | exactly the steps not completed whose dependencies all are, once each |
| Saga.ReadyIsLevel | packages/flow/src/orditect/flow/workflow/dag.py:116-138 | once everything with shorter dependency chains is completed, the ready steps are exactly those whose longest chain has the next length |
| Saga.GetParallelGroups | packages/flow/src/orditect/flow/workflow/dag.py:116-138 | group k holds exactly the steps whose longest dependency chain has k links, and the groups together hold every step |
| Saga.LevelsDisjoint | packages/flow/src/orditect/flow/workflow/dag.py:116-138 | no step is in two groups |
| Saga.DependenciesInEarlierGroups | packages/flow/src/orditect/flow/workflow/executor.py:60-82 | all dependencies of a step are in groups that run before its own |
| Saga.ExecuteSequential | packages/flow/src/orditect/flow/workflow/executor.py:50-58 | exactly the steps before the first raising one in the order are completed, with the results their handlers returned; success if and only if none raises |
| Saga.ExecuteGroup | packages/flow/src/orditect/flow/workflow/executor.py:70-82 | a group adds exactly its members that return, and when one raises only those of them that the cancellation does not stop; what is completed stays closed under dependencies |
| Saga.FlatIsShallow | packages/flow/src/orditect/flow/workflow/executor.py:68-70 | the groups before the k-th hold exactly the steps whose longest dependency chain has fewer than k links |
| Saga.ExecuteParallel | packages/flow/src/orditect/flow/workflow/executor.py:60-82 | when a step raises, exactly the steps shallower than the shallowest raising ones are completed, and of that level those that return and are not stopped |
| Saga.RollbackInOrder | packages/flow/src/orditect/flow/workflow/saga.py:36-49 | each compensator of a completed step is called exactly once, with that step's result, never before the compensator of a step that depends on it; those that raise stop none of the others |
| Saga.Rollback | packages/flow/src/orditect/flow/workflow/saga.py:18-51 | rollback takes place if and only if the order can be computed, that is when the workflow is acyclic and repeats no dependency |
| Saga.LaterInOrderNotNeeded | packages/flow/src/orditect/flow/workflow/saga.py:33-38 | a step later in the execution order is not needed, directly or indirectly, by an earlier one |
| Saga.Execute | packages/flow/src/orditect/flow/workflow/executor.py:26-48 | a whole run: when it succeeds, exactly what a failed run has completed in either mode, and that this is compensated if and only if no step repeats a dependency |
| Saga.RepetitionLosesCompensation | packages/flow/src/orditect/flow/workflow/executor.py:45-48 | in every workflow that repeats a dependency, a parallel run failed by one raising step has completed what that step depends on and compensates nothing |
| Saga.RepeatedDependencyLosesCompensation | packages/flow/src/orditect/flow/workflow/dag.py:24-61 | a two-step workflow that validation accepts: with the second step raising, the first is completed and has a compensator, and the rollback fails before calling it |
| Governor.TaskStorage.SaddActiveChild | examples/dependency-governance/infra.py:172-174 | the store after the atomic set insertion, everything else unchanged |
| Governor.TaskStorage.SetRemainingDeps | examples/dependency-governance/infra.py:181-183 | the store after the counter write |
| Governor.TaskStorage.DecrRemainingDeps | examples/dependency-governance/infra.py:184-188 | the store after the decrement, a missing counter counting as zero, and the new value |
| Governor.TaskStorage.VoteAndCheckThreshold | examples/dependency-governance/infra.py:202-208 | the store after the vote, and whether the number of distinct voters has reached the threshold |
| Governor.TaskStorage.ListReadyDepTasks | examples/dependency-governance/infra.py:192-200 | exactly the tasks with a counter at or below zero and the given status |
| Governor.RunningExact | packages/flow/src/orditect/flow/governance/dependency.py:191-199 | the counted parents are exactly the declared ones whose status is not terminal |
| Governor.AbnormalExact | packages/flow/src/orditect/flow/governance/dependency.py:191-199 | the parents taken as votes are exactly those that ended without success |
| Governor.Dedupe | packages/flow/src/orditect/flow/governance/dependency.py:165 | removing repetitions keeps exactly the declared parents, once each |
| Governor.DependencyGovernor.CastVotes | packages/flow/src/orditect/flow/governance/dependency.py:207-209 | the votes afterwards, and that some vote saw the threshold if and only if the votes together reach it |
| Governor.DependencyGovernor.Recheck | packages/flow/src/orditect/flow/governance/dependency.py:220-242 | one decrement for each counted parent that has ended meanwhile, one vote for each of those without success, and that some vote saw the threshold if and only if the votes together reach it |
| Governor.DependencyGovernor.CancelTask | packages/flow/src/orditect/flow/governance/dependency.py:272-276 | the injected lifecycle writes its status unless the task is terminal already |
| Governor.DependencyGovernor.RegisterDependency | packages/flow/src/orditect/flow/governance/dependency.py:135-279 | every error condition, that errors leave the store as it was, and the exact store after success; where only declared parents have voted, a live child gets the lifecycle's status if and only if each of them has ended without success or voted, at least one the former, and no other status changes |
| Governor.RegistrationCancelsIff | packages/flow/src/orditect/flow/governance/dependency.py:207-276 | the same of the store a registration leaves; without earlier votes the child is cancelled if and only if every declared parent is terminal and not a success |
| Governor.NothingEnded | packages/flow/src/orditect/flow/governance/dependency.py:220-242 | without interference the re-check changes nothing |
| SoloRun.SoloRegistration | packages/flow/src/orditect/flow/governance/dependency.py:135-279 | the protocol's registration, run alone, ends with the store that the registration method leaves, cancellation included |
| SoloRun.SoloRecheck | packages/flow/src/orditect/flow/governance/dependency.py:220-242 | the protocol's re-check, run alone, does what the method's does whichever counted parents have ended by then |
| ProtocolSafety.StepEvolves | packages/flow/src/orditect/flow/governance/dependency.py:135-459 | no step drops a task, changes a terminal status or takes back a manual vote |
| ProtocolSafety.ThresholdMeansAll | packages/flow/src/orditect/flow/governance/dependency.py:349-379 | as long as votes are sound, the threshold is reached if and only if the voters are exactly the declared parents |
| ProtocolObservers.VotesMove | packages/flow/src/orditect/flow/governance/dependency.py:347-459 | votes come only from declared parents and are compared with their number; a ballot gains votes only by casting and loses them only by clearing |
| ProtocolObservers.ObservesIff | packages/flow/src/orditect/flow/governance/dependency.py:349-379 | a vote observes the threshold if and only if all other parents have voted, and is the first to do so if and only if moreover its caster had not voted |
| ProtocolObservers.ObserversCounted | packages/flow/src/orditect/flow/governance/dependency.py:349-379 | in every run, the vote that completes a ballot and every later one observe the threshold, and no other does |
| ProtocolObservers.OneObserverIff | packages/flow/src/orditect/flow/governance/dependency.py:349-379 | in every run, at most one vote of a ballot observes the threshold if and only if none is cast after the ballot is complete; then one does as soon as it is complete |
| ProtocolObservers.DistinctVotersAreNotLate | packages/core/src/orditect/core/redis/task_db.py:612-627 | when no parent votes twice, no vote comes after the ballot is complete |
| ProtocolObservers.TwoVotesObserve | packages/flow/src/orditect/flow/governance/dependency.py:349-379 | a concrete run in which two votes of one ballot observe the threshold |
| ProtocolSafety.StepKeepsSafe | packages/flow/src/orditect/flow/governance/dependency.py:135-459 | every step of every interleaving keeps the safety invariant: votes come only from declared parents that are dead or voted by hand, and what registrations and notifications have read or decided is warranted by the store |
| ProtocolSafety.CancelIsWarranted | packages/flow/src/orditect/flow/governance/dependency.py:269-276 | a governance step changes a child's status only when every parent is dead or was voted for by hand |
| ProtocolProgress.StepKeepsWakeful | packages/flow/src/orditect/flow/governance/dependency.py:201-242 | every step keeps, for a living child, the exact value of its counter and that each counted parent is still to be re-checked, already decremented for, or going to be notified |
| ProtocolProgress.NoLostWakeUp | packages/flow/src/orditect/flow/governance/dependency.py:220-242 | when the re-check is over and all counted parents have notified, the counter is at or below zero |
| ProtocolVotes.StepKeepsBallot | packages/flow/src/orditect/flow/governance/dependency.py:424-459 | every step keeps, for a living child, that each abnormal parent has voted or its vote is still on the way, and that a complete ballot has a cancellation on the way |
| ProtocolVotes.DeadParentsHaveVoted | packages/flow/src/orditect/flow/governance/dependency.py:435-454 | once all parents are dead and have notified, all their votes are in |
| ProtocolVotes.NoHangOnDeadParents | packages/flow/src/orditect/flow/governance/dependency.py:383-402 | a child all of whose parents are dead and have notified has ended, unless its cancellation is in flight |
| ProtocolReadiness.CounterExactIff | packages/flow/src/orditect/flow/governance/dependency.py:220-233 | the counter equals the number of counted parents still awaited if and only if every decrement was for a counted parent and none was repeated |
| ProtocolDecrements.RunKeepsSources | packages/flow/src/orditect/flow/governance/dependency.py:225-233 | in runs with one registration per child and one notification per task, every decrement is by the re-check or by a notification, at most once each per parent |
| ProtocolDecrements.CounterExactInOnceRuns | packages/flow/src/orditect/flow/governance/dependency.py:220-233 | in such runs the counter is exact if and only if no parent was both found ended by the re-check and decremented by its notification after the counter was set, and only counted parents were |
| ProtocolReadiness.StepKeepsCalm | packages/flow/src/orditect/flow/governance/dependency.py:135-459 | steps that let a child register once, a task notify once and no parent end during a registration keep decrements unrepeated |
| ProtocolReadiness.ReadinessIsExact | packages/flow/src/orditect/flow/governance/dependency.py:336-345 | under calm, the counter is the number of counted parents that have not decremented it; a child is at zero only when all parents have ended, and while no counted parent is notifying, exactly when they have ended and notified |
| ProtocolTheorems.RunIsSafe | packages/flow/src/orditect/flow/governance/dependency.py:135-459 | the safety invariant holds at the end of every run |
| ProtocolTheorems.RunMakesProgress | packages/flow/src/orditect/flow/governance/dependency.py:135-459 | the progress invariants hold at the end of every run for every child still alive |
| ProtocolTheorems.NoLostWakeUpInAnyRun | packages/flow/src/orditect/flow/governance/dependency.py:220-242 | in every run, a registered child in the ready status whose parents have all notified is reported ready |
| ProtocolTheorems.NoHangInAnyRun | packages/flow/src/orditect/flow/governance/dependency.py:383-459 | in every run, a registered child whose parents are all dead and have notified has ended, unless its cancellation is in flight |
| ProtocolCleanup.RemovalStep | packages/flow/src/orditect/flow/governance/dependency.py:417-418 | a removal takes the task out of the active children of the next declared parent and changes no other membership, vote, counter or record |
| ProtocolCleanup.NotificationCleansUp | packages/flow/src/orditect/flow/governance/dependency.py:413-422 | from every state: once a notification of a registered task is over and until the task registers again, it is among the active children of none of its declared parents, and its ballot holds at most votes that were under way when the notification began |
| ProtocolCleanup.CleanedUpInAnyRun | packages/flow/src/orditect/flow/governance/dependency.py:413-422 | in every run, the same of a task whose registration was over by then |
| ProtocolCleanup.EndsAlone | packages/flow/src/orditect/flow/governance/dependency.py:383-422 | a notification left to itself comes to its end |
| ProtocolCleanup.LateVoteStays | packages/flow/src/orditect/flow/governance/dependency.py:397-398 | from every state, a vote under way when the notification begins can be cast after it is over and stay on the ballot |
| ProtocolCleanup.BallotAfterCleanup | packages/flow/src/orditect/flow/governance/dependency.py:397-398 | a concrete run with such a vote |
| ProtocolTheorems.NoWrongfulCancelInAnyRun | packages/flow/src/orditect/flow/governance/dependency.py:347-379 | in every run, every vote is from a declared parent that is dead or voted by hand, and the next step cancels a child only if that holds of all its parents |
| ProtocolTheorems.CalmRunStaysCalm | packages/flow/src/orditect/flow/governance/dependency.py:135-459 | a run made of calm steps is calm throughout |
| ProtocolTheorems.ExactReadinessInCalmRuns | packages/flow/src/orditect/flow/governance/dependency.py:336-345 | in every calm run the counter is the number of counted parents that have not decremented it; a child is reported ready only when all its parents have ended, and exactly then, once the counted ones have notified and none of their notifications is under way |
| ProtocolOverlap.OverlapReportsTooEarly | packages/flow/src/orditect/flow/governance/dependency.py:220-233 | a concrete run, with a parent ending during the registration, in which a child is reported ready while another parent runs |
| Lineage.FindsCycle | packages/flow/src/orditect/flow/governance/dependency.py:281-303 | the loop with its stack, visited set and depth bound computes the recursive search |
| Lineage.SearchIsSound | packages/flow/src/orditect/flow/governance/dependency.py:281-303 | a rejected registration has a real chain of ancestors behind it, at any depth |
| Lineage.SearchIsComplete | packages/flow/src/orditect/flow/governance/dependency.py:281-303 | a search that finds nothing has seen a set without the child that is closed under ancestors of nodes never met at the depth bound |
| Lineage.ClearWayIsFound | packages/flow/src/orditect/flow/governance/dependency.py:281-303 | one way up to the child on which no node can be met at the depth bound is enough for it to be found, whatever other ways there are |
| Lineage.FarIsMissed | packages/flow/src/orditect/flow/governance/dependency.py:292 | if every way from the parents up to the child has more than 32 links, no stage of the search comes to the child |
| Lineage.CheckIsExact | packages/flow/src/orditect/flow/governance/dependency.py:281-303 | the check finds only real ancestors, at a distance of at most 32 links, and always along a clear way; so if every way from the parents up to the child has at most 32 links it finds the child exactly when it is an ancestor, and if every way has more it finds nothing |
| Lineage.RedirectKeepsAcyclic | packages/flow/src/orditect/flow/governance/dependency.py:173-174 | pointing a task at others of which it is no ancestor creates no cycle |
| Lineage.RedirectClosesCycle | packages/flow/src/orditect/flow/governance/dependency.py:173-174 | pointing it at one of which it is an ancestor does |
| Lineage.ChangeKeepsAcyclicIff | packages/flow/src/orditect/flow/governance/dependency.py:163-217 | a submission, whatever parent it names, or a registration that passes the check keeps the combined graph of parents and dependencies acyclic if and only if the changed task is no ancestor of what it is linked to |
| Lineage.HistoryAcyclicIff | packages/flow/src/orditect/flow/governance/dependency.py:163-217 | over every sequence of them the graph stays acyclic throughout if and only if every one of them is of that kind |
| Lineage.AcceptedIsHarmless | packages/flow/src/orditect/flow/governance/dependency.py:163-174 | submissions under fresh names with existing parents, and accepted registrations all of whose ways up to the child are within the bound, are of that kind, however deep the store is otherwise |
| Lineage.RegistrationsKeepAcyclic | packages/flow/src/orditect/flow/governance/dependency.py:163-217 | every sequence of those keeps the graph acyclic, starting from nothing |
| Lineage.UnknownParentClosesCycle | packages/flow/src/orditect/flow/core/orchestrator.py:119-155 | two tasks submitted under each other close a cycle that no check sees |
| Lineage.LadderCaughtUpToBound | packages/flow/src/orditect/flow/governance/dependency.py:292 | after any number of submissions, each under the last, a registration of the oldest below the newest closes a cycle, and is accepted if and only if the chain has more than 32 links |
| Lineage.ShortCycleMissed | packages/flow/src/orditect/flow/governance/dependency.py:281-303 | a history of submissions and one accepted registration that closes a cycle of three tasks, because one of them was marked at the depth bound first |
| Rebuild.CollectParents | packages/flow/src/orditect/flow/governance/tools.py:116-136 | the loop collects exactly the parents up to the first missing one, counts the running ones and notices a complete ballot |
| Rebuild.RebuildChild | packages/flow/src/orditect/flow/governance/tools.py:110-150 | the verdict on one child and the exact store afterwards |
| Rebuild.RebuildDepCounters | packages/flow/src/orditect/flow/governance/tools.py:73-154 | the store and the statistics after the whole rebuild, child after child in first-mention order, and what the statistics count |
| Rebuild.TallyMeans | packages/flow/src/orditect/flow/governance/tools.py:98-143 | rebuilt are the children on record with all their parents, skipped those without a record, and listed as skipped, once each, those with a missing parent |
| Rebuild.Order | packages/flow/src/orditect/flow/governance/tools.py:96-109 | the rebuild visits every child of the cold store exactly once |
| Rebuild.AllLeaveOthers | packages/flow/src/orditect/flow/governance/tools.py:109-150 | children the cold store does not mention keep counter, memberships and votes |
| RebuildTwice.AllActIndependently | packages/flow/src/orditect/flow/governance/tools.py:109-150 | the whole rebuild does to a child what rebuilding it alone would do, if and only if the injected lifecycle ends none of its parents before it in a way that changes a counter, a membership or a vote |
| RebuildTwice.RebuildAgreesWithRegistration | packages/flow/src/orditect/flow/governance/tools.py:83-95 | a child whose records all exist ends with the counter, memberships and votes that registering it would give, if and only if the rebuild ends none of its parents before it |
| RebuildTwice.CancelledIsExact | packages/flow/src/orditect/flow/governance/tools.py:145-150 | listed as cancelled are the children on record with all their parents, each of which has failed by the child's turn or had voted, at least one the former; a live one gets the lifecycle's status and every other child keeps its own |
| RebuildTwice.RebuildIsIdempotent | packages/flow/src/orditect/flow/governance/tools.py:73-154 | a second rebuild changes no counter, memberships or votes of any child, and no record, if and only if the first one came to no child before it ended one of the parents it saw there, in a way that shows in the counter or the votes |
| RebuildTwice.ChildRebuiltTwice | packages/flow/src/orditect/flow/governance/tools.py:109-150 | a second rebuild changes a child if and only if a parent seen running at its turn in the first has ended at its turn in the second and that shows in the counter or the votes |
| RebuildTwice.SettledWhen | packages/flow/src/orditect/flow/governance/tools.py:145-150 | it is so without a lifecycle, and with one whenever parents come before their children in the cold rows |
| RebuildTwice.LifecycleBreaksIdempotence | packages/flow/src/orditect/flow/governance/tools.py:145-148 | two cold rows over three tasks on which the second rebuild changes a counter, because the first one cancelled the parent after the child's turn |
| Rebuild.PendingCancelIsExact | packages/flow/src/orditect/flow/governance/tools.py:145-150 | after lost votes, a child is reported as pending cancellation if and only if it and its parents exist and every parent ended without success |
| Rebuild.SkippedWholeIff | packages/flow/src/orditect/flow/governance/tools.py:119-140 | a child with a missing parent keeps its counter, and is left entirely as it was if and only if every parent before the missing one was recorded already |
| Rebuild.SkippedPartly | packages/flow/src/orditect/flow/governance/tools.py:86-87 | a child that is skipped for a missing parent and yet joins the active children of the parent before it |
| Recovery.StepKeepsSound | packages/flow/src/orditect/flow/core/executor.py:295-361 | every storage call of an execution, cancellation, reopening or initialization keeps results with successes only and respects terminal statuses within a generation |
| Recovery.TerminalStatusIsFinal | packages/flow/src/orditect/flow/core/lifecycle.py:96-104 | over every interleaving, within one generation the first terminal status stands and a result is not lost |
| Recovery.OwnRunSettlesGeneration | packages/flow/src/orditect/flow/recovery/service.py:179-198 | in every run in which a task is reopened and initialized only when nothing works on it, whatever a process changes in its record it changes in the generation it was started in |
| Recovery.OldRunCanSettle | packages/flow/src/orditect/flow/recovery/service.py:179-198 | from every sound state, a task given a new generation while an execution or cancellation of it is in flight can have that generation settled by the old process alone |
| Recovery.ResultIsFinal | packages/core/src/orditect/core/lua/task_update.lua:38-44 | a recorded result stays as it is in its generation over every continuation, unless some process can still overwrite it |
| Recovery.ResultCanChange | packages/core/src/orditect/core/lua/task_update.lua:38-44 | a process past its start, with no cancellation requested, or about to write another result, is such a process |
| Recovery.ReuseIffSucceeded | packages/flow/src/orditect/flow/recovery/service.py:89-106 | in every run a node is reused if and only if its snapshot carries a reuse word and its current record has succeeded, and a node just reopened is rerun |
| Recovery.UndisturbedExecution | packages/flow/src/orditect/flow/core/executor.py:384-520 | an execution alone leaves a terminal record as it was, cancels a flagged one, and otherwise records success with the value returned, failure, or cancellation |
| Recovery.BodyOver | packages/flow/src/orditect/flow/core/executor.py:464-486 | once the body has returned or raised, a cancellation requested by then still decides |
| Recovery.InterruptedExecution | packages/flow/src/orditect/flow/core/executor.py:494-511 | an execution interrupted before its last write cancels a live record |
| Recovery.UndisturbedCancel | packages/flow/src/orditect/flow/core/lifecycle.py:110-186 | a cancellation alone flags and cancels a live record, whatever its status, and leaves a terminal one alone |
| Recovery.UndisturbedQueue | packages/flow/src/orditect/flow/core/orchestrator.py:163 | a submission queues a pending task, and only a pending one can be queued |
| TaskStatus.OneStageForward | packages/flow/src/orditect/flow/core/state_machine.py:27-37 | a task moves one stage forward at a time or is cancelled, until it has ended, and nothing else is allowed |
| Recovery.StaleRunSettlesNewGeneration | packages/core/src/orditect/core/lua/task_reopen.lua:68-85 | a concrete run in which an execution started for the old generation settles the new one |
| Slots.StepKeepsOk | packages/flow/src/orditect/flow/core/executor.py:133-167 | every step keeps that an ancestor walk has collected exactly what it passed and that a task which queues or holds has no entry of its resource above it |
| Slots.NoAncestorHoldsIt | packages/flow/src/orditect/flow/core/executor.py:413-424 | a task that waits for a resource or holds it has no ancestor within the depth limit that holds the same resource |
| Slots.StepKeepsBooks | examples/mvp/infra.py:27-51 | every step keeps that the tokens on the books are exactly those held, by one task each, and that usage counts them within capacity |
| Slots.ReleaseKeepsHolders | packages/flow/src/orditect/flow/core/executor.py:528-534 | a release always finds its token on the books, so it takes effect exactly once |
| Slots.SlotsInAnyRun | packages/flow/src/orditect/flow/core/executor.py:364-534 | over every run: no waiting for an ancestor's slot within the limit, slots handed out within capacity, and all of them free once all executions are over |
| Slots.EveryTaskCanEnd | packages/flow/src/orditect/flow/core/executor.py:364-534 | from every state an execution can come to its end by its own steps, a queueing one in one step without being granted the slot |
| Slots.AncestorsDistinct | packages/flow/src/orditect/flow/core/executor.py:148-156 | in every reachable lineage the ancestors of a task are all different, so the cycle guard of the walk never cuts it short |
| Slots.FindAncestorResources | packages/flow/src/orditect/flow/core/executor.py:133-167 | the loop with its cycle guard reports only resources of ancestors, and on a chain without repetition all of them up to the limit |
| SlotsDepth.NextInherits | packages/flow/src/orditect/flow/core/executor.py:149-167 | down to the limit, every nested task of one chain inherits the slot its root holds |
| SlotsDepth.DeepTaskWaits | packages/flow/src/orditect/flow/core/executor.py:106-167 | for every limit there is a run in which a task one level deeper waits for the slot its root holds, and with capacity one cannot get it before the root ends |
| SlotsStructured.RunKeepsEntries | packages/flow/src/orditect/flow/core/executor.py:417-436 | in every run a ledger entry is for a slot held until its task has finished, and a task that inherits has such an entry above it |
| SlotsStructured.EveryBodyIsBacked | packages/flow/src/orditect/flow/core/executor.py:528-534 | in every run in which tasks leave their bodies only after the tasks they submitted are over, every body runs under a slot held by the task or by an ancestor within the limit |
| SlotsStructured.UnstartedChildCanStrand | packages/flow/src/orditect/flow/core/executor.py:413-421 | otherwise: a holder that leaves before an unstarted child of the same resource can leave that child running on a slot nobody holds |
| SlotsStructured.InheritingChildStrands | packages/flow/src/orditect/flow/core/executor.py:528-534 | a holder that leaves before a child that has inherited its slot leaves it running on a slot nobody holds |
| SlotsStructured.WorkingChildCanStrand | packages/flow/src/orditect/flow/core/executor.py:413-421 | a holder that leaves before any child in its body lets a task that this child submits later run on a slot nobody holds |
| SlotsStructured.ChildEnters | packages/flow/src/orditect/flow/core/executor.py:364-436 | a child that is not over, wherever it stands, can go on to its body, holders of what it queues for giving way |
| SlotsStructured.EarlyLeaveCanStrand | packages/flow/src/orditect/flow/core/executor.py:413-421 | any run in which a holder is in its body while a task it submitted is not over can go on, with the holder leaving, until some task runs on a slot nobody above it holds |
| SlotsStructured.BodyWithoutSlot | packages/flow/src/orditect/flow/core/executor.py:364-534 | a concrete run in which a body runs on an inherited slot while no slot of the resource is in use |
| Cascade.PathsAgree | packages/flow/src/orditect/flow/core/orchestrator.py:193-225 | when every task is listed under one parent, two paths to the same task agree as far back as both go |
| Cascade.SubtreesDisjoint | packages/flow/src/orditect/flow/core/orchestrator.py:208-222 | below different children of a cancelled task nothing is shared |
| Cascade.NextChildDone | packages/flow/src/orditect/flow/core/orchestrator.py:208-225 | after each child, exactly the live subtrees of the children so far are cancelled |
| Cascade.Orchestrator.LifecycleCancel | packages/flow/src/orditect/flow/core/lifecycle.py:110-186 | refuses missing and terminal tasks and otherwise marks and cancels the task, and only it |
| Cascade.Orchestrator.CascadeChildren | packages/flow/src/orditect/flow/core/orchestrator.py:193-225 | cancels only live tasks that live tasks lead to, within the depth limit, and on a forest all of them |
| Cascade.Orchestrator.Cancel | packages/flow/src/orditect/flow/core/orchestrator.py:227-232 | succeeds on live tasks only, and then cancels the task and, on a forest, exactly the live tasks within 32 levels that live tasks lead to |
| SnapshotFold.MergeRow | packages/protocol/src/orditect/protocol/mechanism.py:89-98 | merging one row field by field is one map overlay: merge fields and update time when they have a value, status when not empty |
| SnapshotFold.FoldRows | packages/protocol/src/orditect/protocol/mechanism.py:65-99 | the loop computes the recursive fold |
| SnapshotFold.FoldMeans | packages/protocol/src/orditect/protocol/mechanism.py:74-84 | every field of the record is what the last row that overwrites it says, and otherwise what the first row says; nothing is erased |
| SnapshotFold.LastWordShows | packages/protocol/src/orditect/protocol/mechanism.py:58-98 | the last row with a pointer, parent, error, cost, model, expiry or update time, or with a status that is not empty, decides what the record shows |
| SnapshotFold.FirstRowStays | packages/protocol/src/orditect/protocol/mechanism.py:86-98 | identity, creation time and unknown fields are the first row's, and so is whatever no later row says anything about |
| SnapshotFold.LastRowKeepsUpdateTime | packages/protocol/src/orditect/protocol/mechanism.py:82-98 | a last row without an update time leaves the earlier one on record |
| SnapshotFold.SegmentOverlay | packages/protocol/src/orditect/protocol/mechanism.py:65-99 | a folded segment used as a row overwrites exactly what its rows would have overwritten one by one |
| SnapshotFold.CompactionPreservesFold | packages/protocol/src/orditect/protocol/mechanism.py:65-99 | replacing any non-empty stretch of the stream by its own fold leaves the record unchanged |
| SnapshotRules.GroupRows | packages/adapter-ui/src/orditect/adapter/ui/reader.py:193-200 | each generation's group holds exactly its rows, in stream order |
| SnapshotRules.FoldView | packages/adapter-ui/src/orditect/adapter/ui/reader.py:190-205 | each generation's record is the fold of the rows that agree on task, step and execution, a missing one read as empty, whatever is interleaved; there are no other records |
| SnapshotRules.FiledTogetherIff | packages/adapter-ui/src/orditect/adapter/ui/reader.py:193-200 | two rows go into the same record if and only if they agree on task, step and execution |
| SnapshotRules.StatusDrift | packages/protocol/src/orditect/protocol/rules/snapshot.py:13-59 | reports, in order, exactly the rows that contradict the last terminal row with a status on the same task, step and execution, and, degraded, exactly the rows without operation that contradict the one before |
| SnapshotRules.DriftsIff | packages/protocol/src/orditect/protocol/rules/snapshot.py:28-58 | a row drifts if and only if its status differs from that of the last earlier row of the kind compared with, on the same task, step and execution |
| SnapshotRules.IllegalSequence | packages/protocol/src/orditect/protocol/rules/snapshot.py:62-95 | reports exactly the rows that the drift rule reports undegraded |
| SnapshotRules.FoldedStatusIsLast | packages/protocol/src/orditect/protocol/rules/snapshot.py:20-22 | the status the rules track is the status of the folded record |
| SnapshotRules.DriftIffRecordChanges | packages/protocol/src/orditect/protocol/rules/snapshot.py:13-23 | a key has an undegraded finding if and only if the status folded from its operations changes after a terminal row that carries a status |
| SnapshotRules.DegradedDriftIsChange | packages/protocol/src/orditect/protocol/rules/snapshot.py:43-58 | a degraded finding is exactly a row without operation that changes a status already folded |
| Budget.Quota.ReserveUnits | examples/mvp/infra.py:66-83 | reserves once for each id and only within the limit; other scopes keep their accounts |
| Budget.BudgetLedger.Open | packages/flow/src/orditect/flow/governor/budget.py:133-157 | opening registers the ledger's slot without consuming, never resets, and fails exactly when a ledger not yet open has overspent |
| Budget.BudgetLedger.Check | packages/flow/src/orditect/flow/governor/budget.py:164-174 | admits a call if and only if the charges accepted so far, one for each call id, sum up to less than the budget |
| Budget.BudgetLedger.Settle | packages/flow/src/orditect/flow/governor/budget.py:176-238 | a settlement of positive units under a new id is accepted if and only if the charges so far and its own stay within a thousand times the budget, and lowers the balance by exactly its units; any other leaves the account as it was; the audit row is written either way |
| Budget.Conservation | packages/flow/src/orditect/flow/governor/budget.py:159-162 | in every run, what is consumed is the sum of one charge for each accepted call id |
| Budget.SettlementIsRecorded | packages/flow/src/orditect/flow/governor/budget.py:199-209 | the same in every run: overspending is recorded as it is up to a thousand times the budget |
| Budget.OpeningIsRecorded | packages/flow/src/orditect/flow/governor/budget.py:133-157 | in every run an opening consumes nothing, and registers the slot unless the budget is overspent by then |
| Budget.FirstChargeStays | packages/flow/src/orditect/flow/governor/budget.py:182-189 | a charge once accepted is never changed or dropped by retries or openings |
| Budget.Floor | packages/flow/src/orditect/flow/governor/budget.py:202-211 | no run brings a balance below minus 999 times the budget |
| Budget.FloorIsAttained | packages/flow/src/orditect/flow/governor/budget.py:202-211 | for every budget some run ends at exactly minus 999 times it |
| Budget.Overshoot | packages/flow/src/orditect/flow/governor/client.py:162-190 | with at most k calls between check and settlement, none above c units, no run consumes more than the budget minus one plus k times c |
| Budget.OvershootIsAttained | packages/flow/src/orditect/flow/governor/client.py:162-190 | within the headroom some run consumes exactly that, so no better bound holds |
| Budget.AuditAgreesIff | packages/flow/src/orditect/flow/governor/budget.py:192-230 | account and audit table agree row by row after a run if and only if no settlement was refused or filed under the ledger's own slot: a divergence never heals |

## Left out

- CheckIsExact: leaves open the registrations with a way of at most 32 links up to the child but no clear one. There the outcome depends on the order in which nodes are marked, as `ShortCycleMissed` shows.
- RegisterDependency: the exemption snapshot with its cap, the cold-path edge writes and the audit events are not part of the store it describes.
- RebuildDepCounters: the count of children that raised an exception is not modelled, as storage calls do not raise.
- LifecycleCancel: the branches for a record that changes between its storage calls are modelled in `Recovery`, not here.
- CascadeChildren: the `terminate` mode and force-cancelling of coroutines are not modelled, and it runs without interference.
- EarlyLeaveCanStrand: the continuation may let other holders leave early too, and needs an ancestor walk of more than one level; with a walk of one level only `UnstartedChildCanStrand` and `InheritingChildStrands` speak.
- FoldView: expiry, pagination and the latest-generation queries over the view are not modelled.
- Different parent lists for the same child: the protocol gives each child one declared list, as re-registering with another is documented as unsupported. Two registrations of the same child at the same time are not modelled either.
- Storage failures: storage calls succeed or report a missing record; the best-effort branches that log an exception and go on are not modelled.
- `lifecycle.cancel` is one atomic step inside the governance protocol; `Recovery` takes it apart call by call.
- Retry policies, hooks, snapshots written by the executor, timeouts as such (a timeout is one way a body can end) and the reuse short-circuit before a slot is acquired.
- Expiry and lease renewal of hot records, the Redis semaphore and the Redis quota behind the in-memory ones; audit sink failures.
- Snapshot envelopes whose payload is not an object.
- HTTP, streaming, CLI, storage adapters, conformance suites and schema validation: they would add members without hard properties.
