# Verification of the job queue executor

A Dafny model, with proofs, of the executor side of the RabbitMQ job queue: the failure policies that
decide when an executor pool gives up, the pool that replaces dead consumers and drains itself on
shutdown, and the way a delivered job is run and acknowledged.

`dafny verify dfyconfig.toml` checks the whole project.

## How it is laid out

| file | content |
|---|---|
| Machine.dfy | 32-bit integers and Option |
| FailurePolicy.dfy | policy trees and their stateless meaning |
| EnforcerState.dfy | the state of an enforcer tree and what each call does to it; flattening |
| EnforcerRuns.dfy | whole runs of calls: agreement with the meaning, queries, flattening, reasons |
| WindowBounds.dfy | what checking after every failure bounds in any time window |
| BufferBounds.dfy | what it bounds in memory, and for which policies, whatever the clock does |
| ForwardBuffers.dfy | the same for a clock that does not go back |
| Enforcers.dfy | the enforcer objects on the heap, tied to EnforcerState |
| ExecutorLinks.dfy | the linked list as a value, intended and as printed; runs of the intended one |
| PrintedList.dfy | runs of the printed list: when it is right and when an add fails |
| ExecutorPool.dfy | the pool on the heap: links, callbacks, drain, tied to PoolRuns |
| PoolRuns.dfy | the pool as runs of atomic events |
| PrintedPool.dfy | the pool with the printed list: when it is right and which consumers it leaks |
| PoolPolicy.dfy | policy and pool composed |
| PoolTrace.dfy | the state of a pool read off its events and the meaning of the policy |
| PoolInterleaving.dfy | the pool as freely interleaving small steps |
| InterleavingTrace.dfy | the state of that pool read off its steps |
| JobDelivery.dfy | the handler list and the delivery callback |
| HandlerRuns.dfy | runs of registrations and deregistrations |
| Broker.dfy | deliveries against an abstract broker, composed with the pool |
| BrokerTrace.dfy | the joint run of pool and broker read off its steps |

Objects that the code changes in place are classes here. The enforcer interface is a datatype over its
three implementing classes. Each heap method is proved to do what a function on values says
(EnforcerState, ExecutorLinks, PoolRuns), and the properties are proved of those functions over runs.
The original Executor class has two sides, which are kept apart: the list node is in ExecutorPool, the
delivery callback in JobDelivery.

## Two versions of the list

The executors are documented as linked both ways, but `add` never assigns `ex.prev`
(JobQueueExecutorPool.kt lines 202-210). The flag `linksBack` selects the version: true is the intended list, with
`ex.prev = tail` in the non-empty branch of `add`; false is the code as printed. Results that do not fix
the flag hold of both. What the defect does is stated exactly, and the three conditions differ:

- PrintedListIsFifo and PrintedPoolAgreesOnHeads: the printed list, or pool, behaves as intended throughout a
  run if and only if every removal takes the oldest node.
- PrintedAddFails: an add fails at `tail!!` if and only if some node is added after the newest node was
  removed while the list went on without it. These runs are fewer: MiddleRemovalsGoOn.
- PrintedPoolLeaksTheLost: the consumers still subscribed after the pool closed are the replacements that
  callbacks subscribed when `head` was set and `tail` null, and that have not died since. So it leaks
  nobody if and only if all of those died. PrintedPoolLeaksAConsumer is such a run for any pool of two or more.

## Assumptions

- The clock does not go back, and each outer call on an enforcer reads it once. Where a result holds
  for any clock, its row says so. A callback's mark, check and request for a reason are three calls and
  may read three different times.
- Times are unbounded integers. The only window for which the original's 64-bit subtraction could
  overflow is a negative infinite one.
- Creating a channel and subscribing do not fail. Each executor gets its shutdown callback at most once,
  after its consumer has died.
- PoolRuns and ExecutorPool run callbacks atomically, except that in ExecutorPool callbacks may come in
  between two turns of the drain, and stopping an executor may run its own at once. PoolInterleaving drops this: only `stopExecutors` takes the monitor, and single
  list operations and single reads and writes of `closing` are the atomic steps. It is about the intended list.
- The results of PoolPolicy, PoolTrace, Broker and BrokerTrace are about the atomic callbacks of PoolRuns.
- `start()` runs once. In PoolInterleaving it may overlap with everything else.
- A channel that closes gives its unacknowledged jobs back to the queue, and channels are not reused.

## Model

| member | source | states |
|---|---|---|
| EnforcerRuns.AnswersAreTheMeaning | src/main/kotlin/org/veupathdb/lib/rabbit/jobs/config/AnyFailureEnforcer.kt:3-8 | for every nested policy and every interleaving of marks, checks and reason calls at non-decreasing times with fewer than 2^32 marks, shouldHalt answers exactly as the stateless meaning: some total rule has more than its maximum in the history, or some windowed rule has more than its maximum at times not before now - window |
| EnforcerRuns.AnswersFollowCounters | src/main/kotlin/org/veupathdb/lib/rabbit/jobs/config/AnyFailureEnforcer.kt:6-8 | the same with no bound on the run, against the meaning with each count truncated to 32 bits |
| FailurePolicy.TotalIsExactBelowWrap | src/main/kotlin/org/veupathdb/lib/rabbit/jobs/config/MaxFailureEnforcer.kt:4-7 | truncated counts up to n tell the truth for every history if and only if n < 2^32, whatever the maximum |
| FailurePolicy.WindowedIsExactBelowWrap | src/main/kotlin/org/veupathdb/lib/rabbit/jobs/utils/ScrollingCounter.kt:16-23 | the same for a windowed rule and failures none of which is in the future: its truncated count tells the truth for every history up to n if and only if n < 2^32 or the window is negative |
| FailurePolicy.TripsIsHalts | src/main/kotlin/org/veupathdb/lib/rabbit/jobs/config/WindowedFailureEnforcer.kt:12-13 | below 2^32 failures the truncated meaning of a whole tree is the documented one |
| FailurePolicy.NegativeMaximumIsHuge | src/main/kotlin/org/veupathdb/lib/rabbit/jobs/config/ExecutorFailurePolicy.kt:39-51 | a negative Int maximum wraps through toUInt, so its rule halts only after more than 2^31 failures |
| EnforcerRuns.ClockMustNotGoBack | src/main/kotlin/org/veupathdb/lib/rabbit/jobs/utils/ScrollingCounter.kt:16-21 | a concrete run in which the clock goes back and the answer differs from the meaning: the clock assumption is needed |
| EnforcerRuns.CounterHoldsTheWindow | src/main/kotlin/org/veupathdb/lib/rabbit/jobs/utils/ScrollingCounter.kt:11-23 | after a check, the queue is exactly the recorded times inside the window, out of the whole history |
| EnforcerRuns.QueriesAreUnobservable | src/main/kotlin/org/veupathdb/lib/rabbit/jobs/config/AnyFailureEnforcer.kt:7-8 | two runs that marked the same failures give the same answers and the same reasons ever after, however many checks each made and whatever those pruned or skipped |
| EnforcerRuns.QueryMayBeDeleted | src/main/kotlin/org/veupathdb/lib/rabbit/jobs/utils/ScrollingCounter.kt:16-23 | deleting a query from the middle of a run changes no later answer and no later reason |
| EnforcerRuns.FlatteningPreservesAnswers | src/main/kotlin/org/veupathdb/lib/rabbit/jobs/config/AnyFailureEnforcer.kt:3-8 | a nested ofAny tree and the flat list of its leaves give the same answers and the same reasons on every run of marks, checks and reason calls, for any clock and any number of failures |
| EnforcerRuns.WrappingPreservesAnswers | src/main/kotlin/org/veupathdb/lib/rabbit/jobs/config/AnyFailureEnforcer.kt:3-8 | wrapping a single rule in ofAny changes no answer, nor any reason while it halts, if the clock does not go back or reason is never called |
| EnforcerRuns.WrappingNeedsItsCondition | src/main/kotlin/org/veupathdb/lib/rabbit/jobs/config/WindowedFailureEnforcer.kt:12-14 | otherwise it can: a concrete run whose answers differ, since reason prunes through a composite only |
| EnforcerRuns.ReasonNamesLeftmost | src/main/kotlin/org/veupathdb/lib/rabbit/jobs/config/AnyFailureEnforcer.kt:8 | reason names the leftmost rule, depth first, that trips when it is called, however deep the nesting; a rule that is not a composite names itself |
| EnforcerRuns.ReasonIsDefinedWhileHalting | src/main/kotlin/org/veupathdb/lib/rabbit/jobs/config/AnyFailureEnforcer.kt:8 | reason on a composite throws exactly when no rule trips any more |
| EnforcerRuns.ReasonIsSafeAfterHalt | src/main/kotlin/org/veupathdb/lib/rabbit/jobs/config/ExecutorFailureEnforcer.kt:26-33 | after a true check reason does not throw if the clock has not moved or a total rule tripped |
| EnforcerRuns.ReasonMayThrow | src/main/kotlin/org/veupathdb/lib/rabbit/jobs/config/ExecutorFailureEnforcer.kt:26-33 | otherwise it can: a window may expire between the check and the reason |
| WindowBounds.EveryWindowIsBounded | src/main/kotlin/org/veupathdb/lib/rabbit/jobs/config/WindowedFailureEnforcer.kt:12-13 | if each failure is checked within a lag, then while no check was true no closed interval of length window - lag holds more failures than a windowed rule of the tree allows; callbacks may interleave |
| WindowBounds.TrueCheckIsJustified | src/main/kotlin/org/veupathdb/lib/rabbit/jobs/config/WindowedFailureEnforcer.kt:12-13 | a true check means a total rule is exceeded, or a windowed one really is in [now - window, now] |
| BufferBounds.BuffersAreBounded | src/main/kotlin/org/veupathdb/lib/rabbit/jobs/utils/ScrollingCounter.kt:11-23 | for any clock, with a check after every mark and none of them true: each windowed leaf holds at most its maximum after a check and at most one more at any time, on every run of fewer than 2^32 failures, and on every run at all if each rule with the largest maximum has a guard in the tree: a rule with a smaller maximum that is total or has a window at least as long |
| BufferBounds.GuardedIsExact | src/main/kotlin/org/veupathdb/lib/rabbit/jobs/utils/ScrollingCounter.kt:11-23 | for every policy tree and any clock: the bound holds on all runs that were never told to halt if and only if every windowed rule has such a guard or a maximum below the largest; the failing run's clock goes back |
| BufferBounds.LoneWindowIsBounded | src/main/kotlin/org/veupathdb/lib/rabbit/jobs/config/ExecutorFailurePolicy.kt:39-51 | for a rule on its own, whatever its window, and any clock: the bound holds on all runs if and only if the maximum is not -1; the failing run's clock goes back |
| BufferBounds.UnguardedPilesUp | src/main/kotlin/org/veupathdb/lib/rabbit/jobs/utils/ScrollingCounter.kt:11-23 | a rule with no guard, and a clock that may go back: for every n there is a run of n failures, never halted, after which it holds n entries; its clock goes back on every round |
| ForwardBuffers.SpacedOutIsExact | src/main/kotlin/org/veupathdb/lib/rabbit/jobs/utils/ScrollingCounter.kt:11-23 | for every policy tree and a clock that does not go back: the bound holds on all runs that were never told to halt if and only if there is a total rule with a maximum below the largest, or the window of every rule with the largest maximum is shorter than the sum of (window + 1) over some rules with smaller maxima, each taken as often as one likes, whose (maximum + 1) sum to at most 2^32 |
| ForwardBuffers.SpacedBuffersAreBounded | src/main/kotlin/org/veupathdb/lib/rabbit/jobs/utils/ScrollingCounter.kt:11-23 | under that condition each windowed leaf holds at most its maximum after a check and at most one more at any time |
| ForwardBuffers.UnspacedPilesUp | src/main/kotlin/org/veupathdb/lib/rabbit/jobs/utils/ScrollingCounter.kt:11-23 | without it: the densest run whose clock does not go back is never halted and leaves all its n failures in the buffer, for every n whose sums do not exceed the window |
| ForwardBuffers.OutgrownIsEarliest | src/main/kotlin/org/veupathdb/lib/rabbit/jobs/utils/ScrollingCounter.kt:11-23 | the condition is decided by a recursion over n: the earliest time at which the n-th failure can be checked without a halt |
| ForwardBuffers.LoneWindowIsBoundedForward | src/main/kotlin/org/veupathdb/lib/rabbit/jobs/config/ExecutorFailurePolicy.kt:39-51 | for a rule on its own and a clock that does not go back: the bound holds on all runs if and only if the maximum is not -1 or the window is negative |
| ForwardBuffers.PairIsBoundedForward | src/main/kotlin/org/veupathdb/lib/rabbit/jobs/config/ExecutorFailurePolicy.kt:39-62 | for maxFailuresWithin(-1, w) beside maxFailuresWithin(m, v), m other than -1, windows not negative: if and only if (m + 1) * (w / (v + 1) + 1) <= 2^32, with m read as a UInt |
| ForwardBuffers.ForwardClockHelps | src/main/kotlin/org/veupathdb/lib/rabbit/jobs/config/ExecutorFailurePolicy.kt:39-62 | such a pair with v < w has the bound if the clock does not go back, and not if it may |
| Enforcers.ScrollingCounter.Inc | src/main/kotlin/org/veupathdb/lib/rabbit/jobs/utils/ScrollingCounter.kt:11 | appends the time to the queue and the history |
| Enforcers.ScrollingCounter.Count | src/main/kotlin/org/veupathdb/lib/rabbit/jobs/utils/ScrollingCounter.kt:16-23 | for any clock: pops an expired prefix, keeps the rest a suffix of the history, accounts pops against increments, returns the size as a UInt |
| Enforcers.ScrollingCounter.CompareTo | src/main/kotlin/org/veupathdb/lib/rabbit/jobs/utils/ScrollingCounter.kt:13-14 | the sign of the comparison of the pruned count with a value |
| Enforcers.MaxFailureEnforcer.MarkFailure | src/main/kotlin/org/veupathdb/lib/rabbit/jobs/config/MaxFailureEnforcer.kt:6 | the counter advances by one and wraps at 2^32 |
| Enforcers.WindowedFailureEnforcer.ShouldHalt | src/main/kotlin/org/veupathdb/lib/rabbit/jobs/config/WindowedFailureEnforcer.kt:13 | prunes the window and compares what is left with the maximum |
| Enforcers.AnyFailureEnforcer.MarkFailure | src/main/kotlin/org/veupathdb/lib/rabbit/jobs/config/AnyFailureEnforcer.kt:6 | every sub-enforcer of the tree is marked, on the heap |
| Enforcers.AnyFailureEnforcer.ShouldHalt | src/main/kotlin/org/veupathdb/lib/rabbit/jobs/config/AnyFailureEnforcer.kt:7 | asks in order, stops at the first true answer and leaves the later ones untouched |
| Enforcers.AnyFailureEnforcer.Reason | src/main/kotlin/org/veupathdb/lib/rabbit/jobs/config/AnyFailureEnforcer.kt:8 | the reason of the first sub-enforcer that answers true, with all the pruning on the way; None for the exception |
| Enforcers.NewEnforcer | src/main/kotlin/org/veupathdb/lib/rabbit/jobs/config/ExecutorFailurePolicy.kt:15-62 | a fresh enforcer tree for any policy tree, in its initial state |
| Enforcers.RunPair | src/main/kotlin/org/veupathdb/lib/rabbit/jobs/config/ExecutorFailurePolicy.kt:19 | two enforcers from one policy under any interleaving of calls answer each check and name each reason as if each were alone |
| ExecutorLinks.IntendedListIsIdeal | src/main/kotlin/org/veupathdb/lib/rabbit/jobs/pools/exec/JobQueueExecutorPool.kt:202-223 | with ex.prev = tail in add: for any adds and removals, each node at most once, no add fails, the chain is what was added and not removed in insertion order, and tail is its last node |
| ExecutorLinks.IntendedRemove | src/main/kotlin/org/veupathdb/lib/rabbit/jobs/pools/exec/JobQueueExecutorPool.kt:212-223 | the intended removal takes the node out from wherever it stands and keeps tail on the last node |
| ExecutorLinks.PrintedRemove | src/main/kotlin/org/veupathdb/lib/rabbit/jobs/pools/exec/JobQueueExecutorPool.kt:212-223 | as printed, removal drops the head or nothing, and never makes a cycle |
| PrintedList.PrintedListIsSound | src/main/kotlin/org/veupathdb/lib/rabbit/jobs/pools/exec/JobQueueExecutorPool.kt:202-223 | as printed, as long as no add failed the chain has no repetition and a non-null tail is its last node |
| PrintedList.PrintedListIsFifo | src/main/kotlin/org/veupathdb/lib/rabbit/jobs/pools/exec/JobQueueExecutorPool.kt:202-223 | the printed list is right after every operation of a run if and only if every removal of a listed node removed the head |
| ExecutorLinks.PrintedTailRemovalBreaksAdd | src/main/kotlin/org/veupathdb/lib/rabbit/jobs/pools/exec/JobQueueExecutorPool.kt:216-218 | as printed, removing the last of two or more nodes leaves it listed and makes the next add fail at tail!! |
| PrintedList.PrintedAddFails | src/main/kotlin/org/veupathdb/lib/rabbit/jobs/pools/exec/JobQueueExecutorPool.kt:202-223 | for every run of operations: an add of the printed list fails if and only if some node is added after the newest node was removed when some removal, that one included, had taken a node from behind the head |
| PrintedList.FailingRunsGoWrong | src/main/kotlin/org/veupathdb/lib/rabbit/jobs/pools/exec/JobQueueExecutorPool.kt:202-223 | a run on which an add fails has removed a node from behind the head |
| PrintedList.MiddleRemovalsGoOn | src/main/kotlin/org/veupathdb/lib/rabbit/jobs/pools/exec/JobQueueExecutorPool.kt:219-222 | removing a node between the ends makes the list wrong, and yet the next add succeeds |
| ExecutorPool.JobQueueExecutorPool.AddLinks | src/main/kotlin/org/veupathdb/lib/rabbit/jobs/pools/exec/JobQueueExecutorPool.kt:202-210 | on the heap: the links after add, in either version, and all other nodes untouched |
| ExecutorPool.JobQueueExecutorPool.RemoveLinks | src/main/kotlin/org/veupathdb/lib/rabbit/jobs/pools/exec/JobQueueExecutorPool.kt:212-223 | on the heap: the head, tail and middle branches, in either version, and all other nodes untouched; on a closed pool the neighbours of the node are linked to each other, which takes it out of the way of the drain or changes nothing the drain follows |
| ExecutorPool.JobQueueExecutorPool.FollowVisitsChain | src/main/kotlin/org/veupathdb/lib/rabbit/jobs/pools/exec/Executor.kt:21-23 | following next from a listed node visits the rest of the chain in order and ends, in either version |
| ExecutorPool.JobQueueExecutorPool.PrevInvertsNext | src/main/kotlin/org/veupathdb/lib/rabbit/jobs/pools/exec/Executor.kt:21-23 | with the intended add, prev is exactly the inverse of next |
| ExecutorPool.JobQueueExecutorPool.CreateNew | src/main/kotlin/org/veupathdb/lib/rabbit/jobs/pools/exec/JobQueueExecutorPool.kt:162-176 | the k-th executor made, counted from 1, is fresh and named k modulo 2^32 |
| ExecutorPool.IdsAreDistinct | src/main/kotlin/org/veupathdb/lib/rabbit/jobs/pools/exec/JobQueueExecutorPool.kt:163-164 | the first n names are distinct if and only if n <= 2^32 |
| ExecutorPool.JobQueueExecutorPool.NamesAreDistinct | src/main/kotlin/org/veupathdb/lib/rabbit/jobs/pools/exec/JobQueueExecutorPool.kt:162-176 | the executors of a pool all have different names if and only if at most 2^32 have been made |
| ExecutorPool.JobQueueExecutorPool.Start | src/main/kotlin/org/veupathdb/lib/rabbit/jobs/pools/exec/JobQueueExecutorPool.kt:62-65 | poolSize executors created, subscribed and listed in order, named 1, 2 and so on |
| ExecutorPool.JobQueueExecutorPool.OnConsumerShutdown | src/main/kotlin/org/veupathdb/lib/rabbit/jobs/pools/exec/JobQueueExecutorPool.kt:178-200 | for any executor of the pool, whether listed, drained or waiting to be: the callback is an enabled step of PoolRuns and takes exactly that step, including the case that reason() throws; if it drains the list, the callbacks that come in meanwhile follow as enabled steps of their own and the whole state is the one they lead to |
| ExecutorPool.JobQueueExecutorPool.StopExecutors | src/main/kotlin/org/veupathdb/lib/rabbit/jobs/pools/exec/JobQueueExecutorPool.kt:139-160 | the drain ends and empties the list, although callbacks of any executors, reached by it or not, come in between its turns and take themselves out of the list it follows; the state is that of the drain followed by those callbacks as steps of PoolRuns; every executor that was on the list is stopped by the drain or was dead before. As printed, or if the only callback to come in is that of the executor just stopped, each is stopped exactly once, in order, and loses its links. A second call does nothing |
| PoolRuns.ConsumersAreConserved | src/main/kotlin/org/veupathdb/lib/rabbit/jobs/pools/exec/JobQueueExecutorPool.kt:62-65 | in either version, while the pool is open live consumers, dead ones waiting for their callback and ones whose callback was cut short number poolSize, and executors ever made number poolSize plus callbacks completed |
| PoolRuns.ListHoldsTheRemaining | src/main/kotlin/org/veupathdb/lib/rabbit/jobs/pools/exec/JobQueueExecutorPool.kt:178-200 | with the intended list it holds exactly those executors in order of creation, and a closed pool has no live consumer |
| PoolRuns.NothingIsMadeAfterClose | src/main/kotlin/org/veupathdb/lib/rabbit/jobs/pools/exec/JobQueueExecutorPool.kt:197-198 | closing is for good and no executor is made afterwards |
| PrintedPool.PrintedPoolAgreesOnHeads | src/main/kotlin/org/veupathdb/lib/rabbit/jobs/pools/exec/JobQueueExecutorPool.kt:202-223 | the printed pool behaves as the intended one throughout a run if and only if every removal finds its executor at the head |
| PrintedPool.PrintedPoolOfOne | src/main/kotlin/org/veupathdb/lib/rabbit/jobs/pools/exec/JobQueueExecutorPool.kt:202-223 | with poolSize 1 the printed pool is always right and lists exactly one executor between callbacks |
| PrintedPool.PrintedPoolLeaksTheLost | src/main/kotlin/org/veupathdb/lib/rabbit/jobs/pools/exec/JobQueueExecutorPool.kt:178-210 | over every run of the printed pool: once closed, the consumers still subscribed are exactly the replacements subscribed by callbacks whose removal left head set and tail null, less those that died; so none is left if and only if all of them died |
| PrintedPool.PrintedPoolForgetsTheLost | src/main/kotlin/org/veupathdb/lib/rabbit/jobs/pools/exec/JobQueueExecutorPool.kt:178-210 | while it is open, the live consumers it does not list are the same ones |
| PrintedPool.PrintedPoolLeaksAConsumer | src/main/kotlin/org/veupathdb/lib/rabbit/jobs/pools/exec/JobQueueExecutorPool.kt:202-223 | a run that leaks, for any policy and any pool of two or more: its newest executor is shut down and the pool is stopped |
| PoolPolicy.PoolFollowsPolicy | src/main/kotlin/org/veupathdb/lib/rabbit/jobs/pools/exec/JobQueueExecutorPool.kt:184-192 | after an unexpected death the pool carries on if and only if the policy's meaning does not demand a halt, and halts if the meaning still demands it when the reason is asked for |
| PoolPolicy.TotalPolicyBoundsRespawns | src/main/kotlin/org/veupathdb/lib/rabbit/jobs/pools/exec/JobQueueExecutorPool.kt:178-200 | under maxTotalFailures(m), m >= 0, the pool halts itself exactly at the (m+1)-th unexpected death it sees, and makes exactly poolSize + min(deaths, m) + application shutdowns executors |
| PoolPolicy.RespawnRateIsBounded | src/main/kotlin/org/veupathdb/lib/rabbit/jobs/pools/exec/JobQueueExecutorPool.kt:184-198 | in an open pool none of whose callbacks was cut short, the executors made are the first poolSize, one for each unexpected death, all of them marked, and one for each application shutdown, and no closed interval of length window - lag holds more of those deaths than any windowed rule of the policy allows |
| PoolPolicy.CheckerStaysSmall | src/main/kotlin/org/veupathdb/lib/rabbit/jobs/pools/exec/JobQueueExecutorPool.kt:184-198 | the failure checker of such a pool holds in each window at most the maximum of its rule, if fewer than 2^32 consumers died unexpectedly or the policy meets the condition of BufferBounds, or that of ForwardBuffers with a clock that does not go back |
| PoolTrace.PoolFromEvents | src/main/kotlin/org/veupathdb/lib/rabbit/jobs/pools/exec/JobQueueExecutorPool.kt:178-200 | for every policy and run, in either version, with a clock that does not go back and fewer than 2^32 deaths: the pool is closed if and only if it was stopped or some callback found the policy's meaning demanding a halt both at its check and when asked for the reason; its executors are the first ones and the replacements of the callbacks, before that, that found none demanded, in order; the executors whose callbacks ran and those removed; and while it is open the live consumers are those of all executors made that have not died |
| PoolTrace.IntendedPoolFromEvents | src/main/kotlin/org/veupathdb/lib/rabbit/jobs/pools/exec/JobQueueExecutorPool.kt:178-223 | with the intended list: it holds the executors made and not removed, oldest first, and a closed pool has no live consumer |
| PoolTrace.CutShortChangesNothing | src/main/kotlin/org/veupathdb/lib/rabbit/jobs/pools/exec/JobQueueExecutorPool.kt:184-192 | a callback during which reason() throws leaves the pool open or closed as it was, and the list, the live consumers and the executors made as they were |
| PoolTrace.LastVerdict | src/main/kotlin/org/veupathdb/lib/rabbit/jobs/pools/exec/JobQueueExecutorPool.kt:184-192 | what a callback does is decided by the times of the deaths so far and the meaning of the policy alone |
| PoolInterleaving.OpenPoolTracksConsumers | src/main/kotlin/org/veupathdb/lib/rabbit/jobs/pools/exec/JobQueueExecutorPool.kt:178-200 | in small steps that interleave freely: before close every live consumer is listed, or held between init and add by a callback or start |
| PoolInterleaving.EscapesAreBounded | src/main/kotlin/org/veupathdb/lib/rabbit/jobs/pools/exec/JobQueueExecutorPool.kt:139-200 | after the drain every live consumer was made by start or by a callback that had read closing as false before the list was taken, each by a different one; so at most one per such callback plus what start had left |
| PoolInterleaving.LeakExactly | src/main/kotlin/org/veupathdb/lib/rabbit/jobs/pools/exec/JobQueueExecutorPool.kt:139-200 | once the list is taken, some continuation leaves a consumer behind if and only if somebody is still to create one or a live one is already out of the drain's hands |
| InterleavingTrace.ReplacementsAreMade | src/main/kotlin/org/veupathdb/lib/rabbit/jobs/pools/exec/JobQueueExecutorPool.kt:178-200 | in free interleavings, before close: every callback that was judged to carry on and has come to its end has made exactly one executor and listed it; the executors made are those of start(), one for each such callback, and the ones still held |
| InterleavingTrace.DeathIsReplaced | src/main/kotlin/org/veupathdb/lib/rabbit/jobs/pools/exec/JobQueueExecutorPool.kt:178-200 | from any open state the callback of any dead executor can run to its end, after which its replacement is subscribed and listed and the dead one is not listed |
| InterleavingTrace.StagesFollowSteps | src/main/kotlin/org/veupathdb/lib/rabbit/jobs/pools/exec/JobQueueExecutorPool.kt:178-200 | each callback is where its own steps have brought it, and it makes a replacement exactly when it has read closing before that was set |
| InterleavingTrace.MadeFollowsSteps | src/main/kotlin/org/veupathdb/lib/rabbit/jobs/pools/exec/JobQueueExecutorPool.kt:162-200 | every executor is made by start() or a callback, no callback makes two, and start() makes what is left of poolSize |
| InterleavingTrace.LiveFollowsSteps | src/main/kotlin/org/veupathdb/lib/rabbit/jobs/pools/exec/JobQueueExecutorPool.kt:139-200 | the live consumers are those of the executors made, less those that died and those the drain has stopped |
| InterleavingTrace.ListFollowsSteps | src/main/kotlin/org/veupathdb/lib/rabbit/jobs/pools/exec/JobQueueExecutorPool.kt:202-223 | listed is who was added and not removed since then, unless the drain has taken the list since |
| InterleavingTrace.ListIsInOrder | src/main/kotlin/org/veupathdb/lib/rabbit/jobs/pools/exec/JobQueueExecutorPool.kt:202-210 | the list is in the order in which its executors were added |
| InterleavingTrace.RestFollowsSteps | src/main/kotlin/org/veupathdb/lib/rabbit/jobs/pools/exec/JobQueueExecutorPool.kt:139-160 | what the drain has still to visit was listed when it took the list and has not been unlinked by its own callback; and whoever was, has not, and was not stopped by it, it will visit |
| InterleavingTrace.RestIsInOrder | src/main/kotlin/org/veupathdb/lib/rabbit/jobs/pools/exec/JobQueueExecutorPool.kt:139-160 | it visits them in the order in which they were added |
| InterleavingTrace.DrainCanFinish | src/main/kotlin/org/veupathdb/lib/rabbit/jobs/pools/exec/JobQueueExecutorPool.kt:139-160 | from any open state the drain can begin and go through undisturbed, and then it has stopped exactly the live consumers that were on the list |
| InterleavingTrace.InFlightFollowsSteps | src/main/kotlin/org/veupathdb/lib/rabbit/jobs/pools/exec/JobQueueExecutorPool.kt:139-200 | the callbacks counted by EscapesAreBounded are those that, when the list was taken, had read closing before it was set and not yet listed their replacement, and what is counted for start() is what it had still to list |
| JobDelivery.Executor.OnDelivery | src/main/kotlin/org/veupathdb/lib/rabbit/jobs/pools/exec/Executor.kt:68-109 | the exact calls of one delivery on every outcome, and who is given the job: nobody if the channel is closed, the body unreadable or the job refused; otherwise the handlers in order, in time up to the first that throws; an ack exactly when all were given the job in time and none threw, or the deadline passed; after the deadline cancel, ack and the timeout callback whichever of them throw, each swallowed exception logged; and exactly when an exception escapes |
| JobDelivery.WhenAcknowledged | src/main/kotlin/org/veupathdb/lib/rabbit/jobs/pools/exec/Executor.kt:68-90 | a delivery sends one ack or none, one exactly under that condition, and one timeout callback exactly when it timed out; the body is read before the job is submitted, and the wait begins once it is accepted |
| JobDelivery.DeadlineCalls | src/main/kotlin/org/veupathdb/lib/rabbit/jobs/pools/exec/Executor.kt:85-90 | after the deadline each of the three calls is made once, and the exceptions logged are as many as the calls that threw |
| JobDelivery.DeadlineOrder | src/main/kotlin/org/veupathdb/lib/rabbit/jobs/pools/exec/Executor.kt:87-89 | cancel comes first, then the acknowledgement, then the timeout callback, each followed by a log entry exactly when it throws |
| JobDelivery.JobHandlers.Execute | src/main/kotlin/org/veupathdb/lib/rabbit/jobs/pools/JobHandlers.kt:17-19 | hands the job to the handlers in order up to the first that throws |
| JobDelivery.JobHandlers.Deregister | src/main/kotlin/org/veupathdb/lib/rabbit/jobs/pools/JobHandlers.kt:13-15 | removes the first registration of the handler only, and no other handler |
| JobDelivery.DeregisterUndoesRegister | src/main/kotlin/org/veupathdb/lib/rabbit/jobs/pools/JobHandlers.kt:9-15 | deregistering undoes registering, unless the handler was registered before, in which case the older registration goes |
| JobDelivery.ReachedIsPrefix | src/main/kotlin/org/veupathdb/lib/rabbit/jobs/pools/JobHandlers.kt:17-19 | the handlers a job reaches are a prefix in registration order that stops only at one that throws |
| Broker.NoJobIsLost | src/main/kotlin/org/veupathdb/lib/rabbit/jobs/pools/exec/Executor.kt:64-95 | over whole runs with channel deaths, respawns, and handlers registered and removed at any time, each published job is in exactly one of queued, unacknowledged on one live executor's channel, or acknowledged; and it is acknowledged only by an attempt that reached every handler then registered, none of which threw, or by one that ran out of time |
| HandlerRuns.StandingCounts | src/main/kotlin/org/veupathdb/lib/rabbit/jobs/pools/JobHandlers.kt:9-15 | after any registrations and deregistrations a handler is on the list as often as it was registered and, while some registration of it was left, not deregistered |
| HandlerRuns.StandingIsInOrder | src/main/kotlin/org/veupathdb/lib/rabbit/jobs/pools/JobHandlers.kt:9-15 | the list is the registrations that have not been removed, in the order they were made, where the oldest of a handler go first |
| BrokerTrace.HandlersFollowSteps | src/main/kotlin/org/veupathdb/lib/rabbit/jobs/pools/JobHandlers.kt:9-15 | in a joint run the handlers are those that list says for the run's own registrations and deregistrations |
| BrokerTrace.AckedPastHandler | src/main/kotlin/org/veupathdb/lib/rabbit/jobs/pools/exec/Executor.kt:76-84 | if an attempt is acknowledged in time, every handler registered before its loop ended, and not deregistered in between, was given the job and did not throw |
| BrokerTrace.AttemptFollowsSteps | src/main/kotlin/org/veupathdb/lib/rabbit/jobs/pools/exec/Executor.kt:68-77 | each delivery makes an attempt, numbered by the deliveries on its channel, at the job delivered |
| BrokerTrace.LoopFollowsSteps | src/main/kotlin/org/veupathdb/lib/rabbit/jobs/pools/exec/Executor.kt:77-82 | the loop of an attempt runs over the handlers registered and not removed when it runs |
| BrokerTrace.AckFollowsSteps | src/main/kotlin/org/veupathdb/lib/rabbit/jobs/pools/exec/Executor.kt:81-90 | an attempt has acknowledged its job if and only if its acknowledgement was sent |
| BrokerTrace.PoolFollowsSteps | src/main/kotlin/org/veupathdb/lib/rabbit/jobs/pools/exec/JobQueueExecutorPool.kt:178-200 | the pool of a joint run is that of its own events, each possible |
| BrokerTrace.CountsFollowSteps | src/main/kotlin/org/veupathdb/lib/rabbit/jobs/pools/exec/Executor.kt:64-71 | jobs are numbered as published and deliveries on a channel as made |
| Broker.AcknowledgedOnce | src/main/kotlin/org/veupathdb/lib/rabbit/jobs/pools/exec/Executor.kt:81-90 | a job is acknowledged exactly when an ack was sent for a delivery of it, and only one delivery of it ever is |
| Broker.ClosedPoolHoldsNoJob | src/main/kotlin/org/veupathdb/lib/rabbit/jobs/pools/exec/JobQueueExecutorPool.kt:139-160 | once the intended pool is closed every published job is acknowledged or back in the queue |
| Broker.UndisturbedAttempt | src/main/kotlin/org/veupathdb/lib/rabbit/jobs/pools/exec/Executor.kt:68-90 | the calls of the delivery callback, translated one by one to steps of the broker, settle the job of an undisturbed attempt exactly when they include an ack and it gets out |
| Broker.DeliveredAttempt | src/main/kotlin/org/veupathdb/lib/rabbit/jobs/pools/exec/Executor.kt:64-90 | a queued job can be delivered on any open channel, and undisturbed it is settled exactly when the callback acknowledges and the ack gets out |
| Broker.PublishedAttempt | src/main/kotlin/org/veupathdb/lib/rabbit/jobs/pools/exec/Executor.kt:64-90 | the same for a job published after a handler was registered, with this handler behind the others |
| Broker.NoHandlersAcknowledges | src/main/kotlin/org/veupathdb/lib/rabbit/jobs/pools/JobHandlers.kt:17-19 | a job that arrives before any handler is registered is acknowledged although none has seen it |

## Left out

- RabbitMQ connections, channel and queue declaration, publishing, credentials, the consumer timeout margin: network plumbing; an abstract broker stands for them.
- JobQueueExecutor and JobQueueDispatcher: wiring and callback registration; also the default policy and the range checks on the worker count, which are one-liners.
- JSON models and their parsing: a delivery is either readable or not.
- The thread pool, futures and interruption: nondeterministic outcomes. Nothing is claimed about whether a cancelled job stops; what stop and stopNow do to the threads, their return codes and the shutdown callback are not modelled.
- User-written implementations of the policy and enforcer interfaces: only the three built-in ones are modelled.
- Handlers registered or removed while a job is being handed round: one execution of the handler loop sees the list it started with.
- Enforcers.ScrollingCounter.Count: a queue holding 2^32 or more entries at once is modelled with the truncated size only; that its emptiness test would also see the truncated size is not.
- ExecutorPool.JobQueueExecutorPool.StopExecutors: that a consumer dies of itself during the drain, and that a callback comes in halfway through one of its turns, is not modelled on the heap; PoolInterleaving covers both on values.
- PoolInterleaving.EscapesAreBounded: what the failure checker decides is left open and an exception from the printed `add` does not arise, because the list is the intended one.
- JobDelivery.Executor.OnDelivery: what a timed-out or interrupted job goes on doing after the wait is not modelled.
- equals and hashCode of ScrollingCounter, logging, thread names, and the wording of reasons beyond the rule they name.
