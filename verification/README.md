# Lakta: a verified model

Lakta is a framework for Go services made of modules. This project models the parts of it
whose correctness rests on ordering, concurrency and reconciliation, and proves what they
promise. `dafny verify dfyconfig.toml` checks the whole project.

| file | component |
|---|---|
| `ModuleSort.dfy`, `Graphs.dfy` | dependency ordering: the provider/dependent graph, Kahn's queue, cycles |
| `Lifecycle.dfy` | sequential boot, teardown and shutdown with the state record |
| `RunMachine.dfy` | the run after boot as a transition system: start goroutines, cancellation, one stop pass |
| `WholeRun.dfy` | sorting, boot and run joined in one log of calls |
| `Transactions.dfy` | declarative transactions nested through contexts, over a driver with savepoints |
| `WorkerPool.dfy`, `Futures.dfy` | the bounded worker pool as a transition system, and task results on top of it |
| `EventBus.dfy` | the event bus as a transition system |
| `Scheduler.dfy` | the job scheduler and its reconciliation with reloaded configuration |
| `CacheRegistry.dfy`, `MemoryCache.dfy` | typed named caches and their reconciliation |
| `ConfigReload.dfy`, `Watcher.dfy` | configuration reload with validators, callbacks and bindings; the debounce loop |
| `LevelFilter.dfy` | per-package log levels with a shared cache |
| `TypeSchema.dfy`, `ConfigNames.dfy` | printed Go types and environment names, parsed back |
| `Common.dfy`, `Text.dfy` | shared definitions |

Foreign code enters through stated contracts. The database driver merges the innermost
layer on commit or drops it when the commit fails, and drops it on rollback. A cron call
succeeds or fails, and a failed one changes nothing. A cache build succeeds or fails.
Otter is a map that may forget entries at any time. Calls into modules, tasks, handlers
and callbacks end in a value, an error or a panic, all of which are inputs of the model. A Go
select that cannot proceed parks, and closing a channel it waits for wakes it at once.

Sequential code is modelled by classes and methods proved against specifications;
goroutines that interleave are modelled as transition systems whose actions are the
channel operations and lock sections of the source, with theorems about every reachable
state. Loops over Go maps take their keys in an arbitrary order.

Some promises do not hold of the code as they are worded; the model keeps the code, shows
an input or a family of inputs, and proves when the promise holds:

- "The first sync module to return" (`pkg/lakta/runtime.go:151-153`): another one that
  returns before the first has recorded its exit can be reported, exactly when there are
  two or more sync modules (`RunMachine.LaterReturnCanBeReported`,
  `RunMachine.ReportsFirstIff`).
- "Close drains queued tasks" (`pkg/workers/pool/pool.go:105-106`): a submission that
  passed the closed check can still be accepted after the workers have left
  (`WorkerPool.StrandedTask`, `WorkerPool.NeverStrandsIff`). Events of the bus are lost the
  same way (`EventBus.StrandedEvent`, `EventBus.NeverStrandsIff`).
- A resolved log level can be stored after the cache was cleared for newer rules
  (`LevelFilter.DisagreementExists`, `LevelFilter.FreshUpdateAgreesIff`,
  `LevelFilter.UpdateAgreesIff`).
- Doubled pointers, map keys with brackets and named types that print like others are not
  read back (`TypeSchema.DoublePointersMisread`, `TypeSchema.GenericKey`,
  `TypeSchema.CollidingDuration`, `TypeSchema.CollidingBool`, `TypeSchema.ReadsBackIff`).
- A documented environment variable does not set every field
  (`ConfigNames.TrailingUnderscoreMoves`, `ConfigNames.RoundTripIff`).
- An interval schedule that does not parse keeps a changed job as it was, a crontab that is
  rejected drops it (`Scheduler.BadIntervalKeepsJob`, `Scheduler.BadCrontabDropsJob`,
  `Scheduler.TargetsConverge`).
- A level configured for a package whose last path element has a dot never applies
  (`LevelFilter.DottedPrefixNeverFits`).
- A failed cache rebuild is not repeated by later reloads of the same declaration
  (`MemoryCache.FailedRebuildStays`, `MemoryCache.InSyncAfterIff`).
- A module bound after a reload starts from the configuration the program started with
  (`ConfigReload.PortBoundLate`, `ConfigReload.NewBindingAgreesIff`).

## Model

| member | source | states |
|---|---|---|
| `ModuleSort.SortModules` | pkg/lakta/runtime.go:428-524 | an unmet-dependency error exactly when some required type has no provider, naming the first such module and the first such type in its list; a cycle error exactly when nothing is missing and the owner-to-dependent graph has a cycle; otherwise modules and declarations listed in parallel in an order that is a permutation, puts every owner before its dependents, never decreases in longest-path depth, keeps the modules that wait for nobody first and in their original order, and the others in the order in which the last of their owners comes, ties in their original order: the only such order |
| `ModuleSort.BuildOwners` | pkg/lakta/runtime.go:429-444 | the owner table maps exactly the provided types, each to the last module that provides it |
| `ModuleSort.BuildEdges` | pkg/lakta/runtime.go:446-491 | the adjacency lists hold exactly the non-self owner-to-dependent edges and every counter equals the number of edge occurrences into its node; or the first module with an unmet requirement is returned with the first such type in its list |
| `ModuleSort.BuildGraph` | pkg/lakta/runtime.go:428-491 | the two declaration passes together represent the dependency graph of the declarations |
| `ModuleSort.PendingFinish` | pkg/lakta/runtime.go:505-512 | what processing one node takes off the count of pending edge occurrences into another |
| `ModuleSort.PendingZero` | pkg/lakta/runtime.go:513-515 | a counter is zero exactly when every node with an edge to it has been processed |
| `ModuleSort.RelaxCounters` | pkg/lakta/runtime.go:511-516 | the counter invariant across one decrement; a node is enqueued exactly once, when its last owner was ordered |
| `ModuleSort.EnqueueLayers` | pkg/lakta/runtime.go:511-516 | a newly queued node lies one level below the node just ordered, so levels stay sorted along the queue |
| `ModuleSort.SeedQueue` | pkg/lakta/runtime.go:493-500 | the initial queue lists the nodes without incoming edges in original order |
| `ModuleSort.RelaxAll` | pkg/lakta/runtime.go:511-516 | the loop over one adjacency list keeps counters, levels and queue |
| `ModuleSort.KahnStep` | pkg/lakta/runtime.go:505-517 | one turn of the queue loop keeps everything the loop relies on |
| `ModuleSort.Kahn` | pkg/lakta/runtime.go:502-517 | the ordered nodes are distinct, follow all their owners, ascend in level, and every node left out waits for another node left out |
| `ModuleSort.CompleteRespects` | pkg/lakta/runtime.go:519-523 | a complete run puts every owner before its dependents |
| `ModuleSort.CompleteByDepth` | pkg/lakta/runtime.go:505-517 | a complete run is sorted by longest-path depth |
| `ModuleSort.RootsArePrefix` | pkg/lakta/runtime.go:424-426 | modules nobody precedes form the prefix of the result in original order |
| `ModuleSort.CompleteRun` | pkg/lakta/runtime.go:519-523 | a run that orders every module is an initialization order and proves the graph acyclic |
| `ModuleSort.CompleteByLastOwner` | pkg/lakta/runtime.go:505-517 | in a complete run modules come in the order of their last owners, and behind the same last owner in their original order |
| `ModuleSort.EnqueueQueued` | pkg/lakta/runtime.go:511-516 | a newly queued node keeps the queue in the order of who put its nodes there, ties in original order |
| `ModuleSort.OrderUnique` | pkg/lakta/runtime.go:424-517 | the declarations determine the order: two orders with all these properties are the same |
| `ModuleSort.StuckRun` | pkg/lakta/runtime.go:519-521 | a run that stops early leaves a real cycle among the nodes left unsorted |
| `Graphs.LevelIsDepth` | pkg/lakta/runtime.go:493-517 | levels that grow along edges and are attained are longest-path depths |
| `Graphs.StuckNodesHoldCycle` | pkg/lakta/runtime.go:519-521 | a non-empty set of nodes that each have a predecessor in it contains a cycle |
| `Lifecycle.Runtime.InitModules` | pkg/lakta/runtime.go:240-279 | boots a prefix in sorted order; on the first failure tears exactly that prefix down and reports the failing module; otherwise every module is initialized; the state record says so |
| `Lifecycle.Runtime.BootOne` | pkg/lakta/runtime.go:246-270 | without a configuration Init is called, with an accepted one the load and then Init, with a rejected one the load only; either failure is reported as such |
| `Lifecycle.Runtime.Shutdown` | pkg/lakta/runtime.go:343-373 | Shutdown calls are the reverse of a suffix of the initialized prefix, cut where the deadline passes; the result is nil exactly when all stopped cleanly, else the error of the first failure in stop order; exactly the cleanly stopped modules become Stopped |
| `Lifecycle.Runtime.Teardown` | pkg/lakta/runtime.go:322-341 | the same calls and states as a shutdown pass, with errors dropped |
| `Lifecycle.RuntimeInfo.SetState` | pkg/lakta/introspect.go:102-116 | writes one state in range and nothing otherwise |
| `Lifecycle.RuntimeInfo.Snapshot` | pkg/lakta/introspect.go:87-100 | new slices, down to the lists of every record, with the contents of the record |
| `Lifecycle.RuntimeInfo.Detached` | pkg/lakta/introspect.go:78-100 | through any later transitions a snapshot holds what the record was; then one state and one list entry of it are written, which changes nothing else of it and nothing of the record |
| `Lifecycle.PassStep` | pkg/lakta/runtime.go:350-370 | the invariant of a stop pass across one turn: calls made so far, first error so far, deadline |
| `Lifecycle.PassEnds` | pkg/lakta/runtime.go:350-372 | a finished pass made the calls down to the cut and holds the verdict |
| `Lifecycle.DependentsStopFirst` | pkg/lakta/runtime.go:343-373 | over any init order, a dependent gets its Shutdown call before any module it depends on, and none gets it twice |
| `Lifecycle.InTimeStopsAll` | pkg/lakta/runtime.go:350-370 | while the deadline holds every initialized module gets its Shutdown call |
| `Lifecycle.OwnersBootFirst` | pkg/lakta/runtime.go:236-279 | the Init of every module a module depends on is called before its own |
| `RunMachine.InvHolds` | pkg/lakta/runtime.go:101-234 | every action of every interleaving keeps the invariant of the run |
| `RunMachine.SyncStartsAfterAsync` | pkg/lakta/runtime.go:101-194 | in every reachable state no sync Start has begun unless every StartAsync returned nil |
| `RunMachine.FinishedRun` | pkg/lakta/runtime.go:130-234 | a finished run made exactly one shutdown pass over all initialized modules and returns its verdict, else the recorded cause |
| `RunMachine.FinishedAnswers` | pkg/lakta/runtime.go:130-234 | told from the history of a finished run up to the step at which it decided to stop: unless its stop pass fails, it returns the async failure if some StartAsync failed, else nil if it was cancelled before, else exactly the result of the sync module that recorded the first exit, nil for a clean one |
| `RunMachine.RunRemembers` | pkg/lakta/runtime.go:101-234 | over every run the state holds what each StartAsync and Start returned, in which order the sync modules returned, who recorded the first exit, and whether the run was cancelled |
| `RunMachine.NoEarlyStop` | pkg/lakta/runtime.go:130-234 | no module is shut down before the run decides to stop |
| `RunMachine.ReportedCause` | pkg/lakta/runtime.go:151-221 | the reported sync cause is the result of the module that recorded the exit, after all sync modules returned |
| `RunMachine.ReportsFirstIff` | pkg/lakta/runtime.go:151-221 | for any modules: every run that reports a sync cause reports the first module to return exactly when at most one module is a sync module |
| `RunMachine.TwoSyncCanMisreport` | pkg/lakta/runtime.go:168-221 | with two sync modules, whatever else there is, some run reports the second to return |
| `RunMachine.LaterReturnCanBeReported` | pkg/lakta/runtime.go:175-182 | a run in which the first sync module to return is not the one reported |
| `RunMachine.EveryActionDecreases` | pkg/lakta/runtime.go:101-234 | every action uses up a bounded amount of work, so every run is finite |
| `RunMachine.Progress` | pkg/lakta/runtime.go:196-234 | an unfinished run can be cancelled, and once it is always has a step that needs no sync module to return |
| `RunMachine.CancelFinishes` | pkg/lakta/runtime.go:203-234 | any run can finish once it is cancelled, without any sync module returning |
| `RunMachine.ReturnsFinish` | pkg/lakta/runtime.go:151-234 | a run with a sync module, cancelled or not, can finish without being cancelled, its modules returning |
| `RunMachine.IdleWaits` | pkg/lakta/runtime.go:222-234 | without sync modules a started run shuts nothing down until it is cancelled |
| `WholeRun.RunApp` | pkg/lakta/runtime.go:47-234 | from sorting to the last Shutdown, over the whole log of calls and any schedule: nothing is called when sorting fails; otherwise a module a module depends on is initialized before it, before it is started, and shut down after it, also when the boot fails; no sync module is started before every async one was |
| `WholeRun.RunRespects` | pkg/lakta/runtime.go:101-234 | the same of a run after a boot that succeeded |
| `WholeRun.FailedBootRespects` | pkg/lakta/runtime.go:240-279 | the same of a boot that failed and its teardown |
| `WholeRun.StepIsLogged` | pkg/lakta/runtime.go:101-234 | what every action of the run adds to the log keeps it in order |
| `WholeRun.OrderedRespects` | pkg/lakta/runtime.go:236-373 | a log whose calls come in sorted order respects the dependency graph |
| `Transactions.TxRuntime.RunProgram` | pkg/db/drivers/pgx/tx.go:123-220 | any program of nested units, failing, panicking or swallowing outcomes: the durable writes are exactly those whose enclosing units up to their top-level transaction all committed; every transaction begun is ended exactly once and marked done; its context yields the pool from then on; every write goes through the innermost open unit. Told from the program alone, its i-th statement is durable exactly when all units around it end in a successful commit, from the innermost out to the nearest that is a WithNewTx or has no unit around it |
| `Transactions.TxRuntime.Run` | pkg/db/drivers/pgx/tx.go:123-220 | the effect of a body that uses only the context it was given, and how it ends |
| `Transactions.TxRuntime.WithTx` | pkg/db/drivers/pgx/tx.go:128-134 | what is begun is a savepoint under the live transaction of the context, or a top-level transaction if there is none; its statements are kept if it commits and, for a savepoint, what surrounds it does |
| `Transactions.TxRuntime.WithNewTx` | pkg/db/drivers/pgx/tx.go:138-140 | what is begun is a top-level transaction, whatever the context holds; its statements are kept if it commits |
| `Transactions.TxRuntime.BeginTopLevel` | pkg/db/drivers/pgx/tx.go:142-159 | a failed begin runs nothing and changes nothing; otherwise the unit has its effect on the database |
| `Transactions.TxRuntime.NestedTx` | pkg/db/drivers/pgx/tx.go:164-186 | a failed savepoint runs nothing; otherwise the unit has its effect on the unit around it |
| `Transactions.TxRuntime.RunUnit` | pkg/db/drivers/pgx/tx.go:192-220 | one commit or rollback on every way out; a failed commit drops the writes and turns success into an error; the flag is set; a panic goes on |
| `Transactions.TxRuntime.Q` | pkg/db/drivers/pgx/tx.go:83-95 | the transaction the context names exactly while it has not ended |
| `Transactions.TxRuntime.MarkDone` | pkg/db/drivers/pgx/tx.go:50-59 | setting the flag restores that a flag is set exactly for ended transactions |
| `Transactions.EffectOfUnit` | pkg/db/drivers/pgx/tx.go:192-220 | what a unit did inside becomes the effect its end deserves on the surrounding stretch |
| `Transactions.EffectCompose` | pkg/db/drivers/pgx/tx.go:123-220 | the effects of consecutive stretches add up |
| `Transactions.UnitFate` | pkg/db/drivers/pgx/tx.go:192-220 | the fate of a write inside a unit, told from outside it |
| `Transactions.KeepsOfUnit` | pkg/db/drivers/pgx/tx.go:161-220 | a unit keeps what its body kept for itself exactly if it commits and, unless it is a transaction of its own, its surroundings keep it |
| `Transactions.KeepsCompose` | pkg/db/drivers/pgx/tx.go:123-220 | what is kept of two stretches in a row |
| `Transactions.FateThrough` | pkg/db/drivers/pgx/tx.go:161-186 | the fate of a write under further enclosing units |
| `Transactions.LostMeansUncommitted` | pkg/db/drivers/pgx/tx.go:161-186 | a write is lost exactly when some unit around it, up to its top-level transaction, did not commit |
| `Transactions.SurvivorsOfRun` | pkg/db/drivers/pgx/tx.go:123-220 | the durable writes after a run are the survivors of the whole log |
| `Transactions.OldWritesKeepFate` | pkg/db/drivers/pgx/tx.go:123-220 | later units never change the fate of earlier writes |
| `WorkerPool.InvHolds` | pkg/workers/pool/pool.go:49-145 | every action of every interleaving keeps the invariant of the pool |
| `WorkerPool.AcceptedTaskPlace` | pkg/workers/pool/pool.go:87-159 | an accepted task is in exactly one of queued, running, executed; tasks start in the order they were accepted; the queue keeps within its capacity |
| `WorkerPool.DrainedBeforeDone` | pkg/workers/pool/pool.go:105-145 | once done is closed every task accepted before stop was closed has finished |
| `WorkerPool.CloseMeansDrained` | pkg/workers/pool/pool.go:105-126 | a Close that returned nil saw all of them finish |
| `WorkerPool.HowCloseEnds` | pkg/workers/pool/pool.go:119-126 | along any run a Close reports a timeout exactly when its context ended it, and returns nil exactly when it saw the pool done |
| `WorkerPool.CloseCanReturn` | pkg/workers/pool/pool.go:105-145 | from every state a Close that has not returned comes to return nil by its own steps and those of the workers |
| `WorkerPool.CancelledCloseReturns` | pkg/workers/pool/pool.go:105-126 | with its context done a Close ends by its own steps, having closed intake and signalled stop |
| `WorkerPool.HowSubmissionEnds` | pkg/workers/pool/pool.go:87-103 | along any run a submission fails with the error of its context exactly when that ended it, with ErrPoolClosed only on a closed pool and from its select only on a stopped one, and one that comes to a closed pool is never accepted |
| `WorkerPool.CancelledSubmissionReturns` | pkg/workers/pool/pool.go:87-103 | with its context done a submission comes back rejected by its own steps |
| `WorkerPool.SubmissionProgress` | pkg/workers/pool/pool.go:95-103 | a submission is accepted in one step if the queue has room or a worker is there to take it |
| `WorkerPool.TaskProgress` | pkg/workers/pool/pool.go:129-159 | while an accepted task is unfinished and not all workers have left, some worker can start or end a task |
| `WorkerPool.AllAcceptedFinishedIff` | pkg/workers/pool/pool.go:87-145 | a done pool executed all it accepted exactly when nothing was accepted after the last worker left |
| `WorkerPool.StrandedTask` | pkg/workers/pool/pool.go:87-145 | a reachable pool with an accepted task that never runs |
| `WorkerPool.NeverStrandsIff` | pkg/workers/pool/pool.go:87-145 | when intake has just been closed, no task can be stranded exactly when the queue is unbuffered or no submission is between its closed check and its select |
| `WorkerPool.InFlightCanStrand` | pkg/workers/pool/pool.go:87-145 | a submission between its closed check and its select can be stranded |
| `WorkerPool.StopRejectsParked` | pkg/workers/pool/pool.go:95-117 | a submission parked in its select when the stop signal comes is rejected, for good |
| `WorkerPool.QuietClose` | pkg/workers/pool/pool.go:105-117 | with no submission before its select the stop signal covers all that is ever accepted, and with none parked nothing more is accepted |
| `WorkerPool.HandoffNeverQueues` | pkg/workers/pool/pool.go:87-103 | an unbuffered pool has started whatever it accepted |
| `WorkerPool.StopEndsHandoff` | pkg/workers/pool/pool.go:95-117 | once stopped, an unbuffered pool accepts nothing more |
| `WorkerPool.DoneIsFinal` | pkg/workers/pool/pool.go:69-72 | after every worker left nothing starts or finishes |
| `WorkerPool.EveryActionDecreases` | pkg/workers/pool/pool.go:87-145 | every action decreases the measure |
| `WorkerPool.RunsAreBounded` | pkg/workers/pool/pool.go:87-145 | the measure bounds the length of every run |
| `WorkerPool.DrainProgress` | pkg/workers/pool/pool.go:129-145 | a stopped pool that is not done always has a step of a worker |
| `WorkerPool.DrainCompletes` | pkg/workers/pool/pool.go:129-145 | after stop the workers alone reach done within the measure |
| `Futures.Drive` | pkg/workers/pool/future.go:21-47 | over any schedule of the pool no task runs twice: every future is written at most once, by the execution of its task, is done exactly when that finished, and its function was called once, or not at all if its context was cancelled |
| `Futures.Future.RunTask` | pkg/workers/pool/future.go:24-42 | the future holds the cancellation and no value; or the value and the error of the function, if any; or the panic as an error and no value |
| `Futures.Future.Get` | pkg/workers/pool/future.go:49-59 | an answer other than giving up is the two written fields |
| `Futures.FinishesFreshTask` | pkg/workers/pool/future.go:24-42 | a task that ends has not ended before |
| `Futures.UnfinishedStaysUndone` | pkg/workers/pool/future.go:49-59 | on a done pool a future whose task has not finished stays undone for ever |
| `EventBus.InvHolds` | pkg/events/bus/bus.go:57-204 | every action of every interleaving keeps the invariant of the bus |
| `EventBus.DeliveredInOrder` | pkg/events/bus/bus.go:168-195 | the delivered events are a prefix of the enqueued ones, each once, within the buffer size |
| `EventBus.DrainedBeforeDone` | pkg/events/bus/bus.go:168-204 | everything enqueued before the stop signal is delivered before done |
| `EventBus.SubscriptionDrains` | pkg/events/bus/bus.go:168-204 | a stopped subscription comes to done by its own steps, within a bound, having delivered all that was enqueued |
| `EventBus.RunnerProgress` | pkg/events/bus/bus.go:168-186 | a stopped subscription that is not done always has such a step, and it decreases the work left |
| `EventBus.PublishReachesSubscribed` | pkg/events/bus/bus.go:125-166 | a Publish that takes the lock on an open bus and returns, along any run: its event went to exactly the subscriptions of the topic made and not removed before the lock, in that order and once each; its outcome at each says whether the event was handled or enqueued there |
| `EventBus.ClosedReachesNobody` | pkg/events/bus/bus.go:125-130 | a Publish that finds the bus closed is rejected and its event never reaches anybody |
| `EventBus.PublishReachesSnapshot` | pkg/events/bus/bus.go:134-152 | a Publish meets exactly the subscribers of its snapshot |
| `EventBus.SnapshotStays` | pkg/events/bus/bus.go:131-152 | a snapshot is walked to the end unchanged, and a rejection is final |
| `EventBus.RegistryExactHolds` | pkg/events/bus/bus.go:154-166 | as long as the bus is open, the registry of every topic lists the subscriptions made and not removed, in the order they were made |
| `EventBus.SubscribedRemove` | pkg/events/bus/bus.go:159-165 | removing a subscription takes it out of the list of its topic and of no other |
| `EventBus.CloseMeansDrained` | pkg/events/bus/bus.go:59-90 | the closing Close that returned nil: every subscription it captured is done and delivered what was enqueued before its stop signal |
| `EventBus.CloseCapturesSubscribed` | pkg/events/bus/bus.go:59-71 | what the closing Close waits for is every subscription made and not removed before it, each once |
| `EventBus.HowCloseEnds` | pkg/events/bus/bus.go:59-90 | along any run a Close reports a timeout exactly when its context ended it |
| `EventBus.CloseCanReturn` | pkg/events/bus/bus.go:73-90 | a Close at work comes to return nil by its own steps and those of the runners |
| `EventBus.CloseCanBegin` | pkg/events/bus/bus.go:59-71 | a Close can begin whatever the registry holds |
| `EventBus.CloseEmptiesRegistry` | pkg/events/bus/bus.go:59-71 | the closing Close takes every subscription made before it out of the registry, for good |
| `EventBus.PublishReports` | pkg/events/bus/bus.go:134-152 | over any run a Publish reports a failed enqueue exactly if its context ended a wait, and passes by only subscriptions that were stopped |
| `EventBus.PublishMeetsLive` | pkg/events/bus/bus.go:105-131 | a Publish that takes the lock on an open bus meets no stopped subscription: unsubscribing removes before it stops |
| `EventBus.StoppedNeverBlocks` | pkg/events/bus/bus.go:143-150 | a stopped subscription never makes a publisher wait that was not waiting there already |
| `EventBus.DeliveryProgress` | pkg/events/bus/bus.go:168-186 | while an enqueued event is not delivered its runner has a step that takes or delivers one |
| `EventBus.NeverStrandsIff` | pkg/events/bus/bus.go:105-204 | once no new Publish can meet an async subscription, and before its stop signal: no event enqueued for it can be lost exactly when no Publish that has it in its snapshot is before it or before its select there |
| `EventBus.HeadedCanStrand` | pkg/events/bus/bus.go:105-204 | an event of such a Publish can be enqueued after the runner has left |
| `EventBus.StrandedEvent` | pkg/events/bus/bus.go:105-204 | a run in which an event is enqueued for an unsubscribed handler and never delivered |
| `EventBus.CurrentIsFresh` | pkg/events/bus/bus.go:134-150 | a publisher never reaches a subscriber twice |
| `Scheduler.MergedJobs` | pkg/workers/scheduler/config.go:87-115 | whatever the order in which the overrides are visited: exactly the declared names, and of each the schedule, timezone, jitter, overlap and switch of the configuration where it sets them, else of the code, and the handler of the code |
| `Scheduler.MergeMeans` | pkg/workers/scheduler/config.go:84-115 | the merged declaration of a name says whether its job is to run and how: it has a handler in code, and neither the configuration nor, where that says nothing, the code switches it off |
| `Scheduler.TargetsConverge` | pkg/workers/scheduler/module.go:159-179 | when every cron call succeeds that can, the live jobs are exactly those that are to run, each with the schedule, timezone, jitter and overlap in force and the handler of its code declaration, exactly when no new or changed job that is to run has an interval that does not parse or a schedule that the cron library rejects |
| `Scheduler.ConvergedIsDone` | pkg/workers/scheduler/module.go:159-179 | where the jobs are as declared no live job is undeclared, and nothing that is to run is new or changed |
| `Scheduler.BadIntervalKeepsJob` | pkg/workers/scheduler/scheduler.go:58-61 | a live job whose interval is changed to one that does not parse stays as it was |
| `Scheduler.BadCrontabDropsJob` | pkg/workers/scheduler/scheduler.go:63-73 | a live job whose schedule is changed to a crontab that is rejected is dropped |
| `Scheduler.Scheduler.Register` | pkg/workers/scheduler/scheduler.go:46-79 | the job is replaced, dropped or kept, under any failure of the cron calls; name table, specs and cron jobs stay in bijection; no other name is touched |
| `Scheduler.Scheduler.Remove` | pkg/workers/scheduler/scheduler.go:81-96 | the job is dropped from all three tables or, if cron fails, from none |
| `Scheduler.Module.Init` | pkg/workers/scheduler/module.go:74-83 | on success the registered jobs are exactly those that are to run, with every field as declared; on failure the tables are still in bijection |
| `Scheduler.Module.OnReload` | pkg/workers/scheduler/module.go:132-169 | without cron failures the live jobs are exactly those that are to run, field by field as configuration and code declare them, exactly when none is stuck; with failures the bijection holds; a repeated reload makes no cron call; a configuration that does not load changes nothing |
| `Scheduler.Module.RemoveStale` | pkg/workers/scheduler/module.go:151-157 | what is no longer declared is dropped, what is declared is untouched |
| `Scheduler.Module.RegisterChanged` | pkg/workers/scheduler/module.go:159-168 | what is new or changed reaches its target, the rest is untouched |
| `Scheduler.Module.ReloadMany` | pkg/workers/scheduler/module.go:132-169 | after any sequence of reloads with any failures, one clean last pass over schedules that parse leaves exactly the jobs that are to run, field by field as declared |
| `LevelFilter.LevelOfIsResolved` | pkg/logging/slog/level_filter.go:159-166 | the level of the longest configured prefix is what trying ever shorter prefixes finds |
| `LevelFilter.ResolvesUnique` | pkg/logging/slog/level_filter.go:32-52 | a configuration gives a package one level, whatever the map and sort order |
| `LevelFilter.BuildRules` | pkg/logging/slog/level_filter.go:32-52 | the rules are those of the configuration, longest first; the minimum is attained and never undercut |
| `LevelFilter.SortByLength` | pkg/logging/slog/level_filter.go:43-45 | some permutation ordered by prefix length |
| `LevelFilter.MatchLevel` | pkg/logging/slog/level_filter.go:159-166 | the level of the longest configured prefix of the path, else the default |
| `LevelFilter.Filter.Update` | pkg/logging/slog/level_filter.go:64-68 | the new configuration is in force and the cache empty |
| `LevelFilter.Filter.ResolveLevel` | pkg/logging/slog/level_filter.go:115-131 | the level of the package under the present configuration, cached or not; the cache stays in agreement |
| `LevelFilter.Filter.Handle` | pkg/logging/slog/level_filter.go:83-97 | forwards by the override, else by the level of the package, and only what Enabled would let pass |
| `LevelFilter.ResolvedNotBelowMin` | pkg/logging/slog/level_filter.go:70-81 | no package has a level below the minimum that Enabled uses |
| `LevelFilter.EnabledIff` | pkg/logging/slog/level_filter.go:70-81 | Enabled answers as the upstream does exactly for a level that the override, the default or some configured level admits, and rejects any other |
| `LevelFilter.PassableIff` | pkg/logging/slog/level_filter.go:70-81 | some package passes a level exactly if a configured level admits it or, unless the empty prefix is configured, the default does |
| `LevelFilter.Serve` | pkg/logging/slog/level_filter.go:64-131 | over any sequence of updates and records every verdict is the one of the configuration in force |
| `LevelFilter.ExtractedUpToDot` | pkg/logging/slog/level_filter.go:133-157 | of any text, all of it up to the first dot behind its last slash is extracted |
| `LevelFilter.PackageOfFunction` | pkg/logging/slog/level_filter.go:133-157 | a function resolves to the path of its package as function names spell it, which is the import path exactly when its last element has no dot |
| `LevelFilter.DottedPrefixNeverFits` | pkg/logging/slog/level_filter.go:133-166 | a level configured for a package with such a dot, up to the dot or further, is never the level of its functions |
| `LevelFilter.AgreementKept` | pkg/logging/slog/level_filter.go:115-131 | interleaved steps without a swap of the rules keep the cache in agreement when no loaded answer is stale |
| `LevelFilter.FreshUpdateAgreesIff` | pkg/logging/slog/level_filter.go:64-131 | updating a fresh filter, with records resolved in any interleaving, always ends in agreement exactly when the update changes no level |
| `LevelFilter.UpdateAgreesIff` | pkg/logging/slog/level_filter.go:64-131 | in any state, an update always ends in agreement exactly when no resolver in flight has loaded rules that answer differently |
| `LevelFilter.CachedUntilCleared` | pkg/logging/slog/level_filter.go:64-68 | until the cache is cleared a cached level keeps answering, also after the rules were swapped |
| `LevelFilter.AgreesAfterClearIff` | pkg/logging/slog/level_filter.go:64-68 | a cache just cleared stays in agreement exactly then |
| `LevelFilter.RunToDisagreement` | pkg/logging/slog/level_filter.go:64-131 | for every update that changes the level of a function, a run that ends with the old level cached |
| `LevelFilter.DisagreementExists` | pkg/logging/slog/level_filter.go:64-131 | one such run, from level 0 to level 1 |
| `LevelFilter.LongestModule` | pkg/logging/slog/stack_rewriter.go:155-172 | the longest module path that is a prefix of the package, with its version, else none |
| `LevelFilter.ModuleUnique` | pkg/logging/slog/stack_rewriter.go:155-166 | that module does not depend on the order of the map |
| `TypeSchema.ReadsBackIff` | pkg/reflectcfg/schema.go:142-256 | for every type: parsing the printed form gives its schema exactly when no leaf prints like another type, a string is behind every doubled pointer, and the values of every map whose key prints a closing bracket happen to be what follows that bracket in the key |
| `TypeSchema.PrintedThenParsed` | pkg/reflectcfg/schema.go:142-256 | what the parser makes of the printed form of any type |
| `TypeSchema.LeafIff` | pkg/reflectcfg/reflectcfg.go:480-495 | a leaf is described as it should be exactly when it is not a named type called like a predeclared one, nor a Duration of another package with the alias time |
| `TypeSchema.PredeclaredIff` | pkg/reflectcfg/schema.go:258-272 | the classifiers know exactly the integer and floating point types of the language, told by kind and size, and those are described as such |
| `TypeSchema.QualifiedIff` | pkg/reflectcfg/reflectcfg.go:490-521 | a named type is printed without its package exactly if it is not generic and called like a predeclared type |
| `TypeSchema.CollidingDuration` | pkg/reflectcfg/reflectcfg.go:480-512 | a type called Duration of a package with the alias time is read as a duration |
| `TypeSchema.CollidingBool` | pkg/reflectcfg/reflectcfg.go:480-495 | a named type called bool is read as a boolean |
| `TypeSchema.FirstBracket` | pkg/reflectcfg/schema.go:242-248 | the text of a type around its first closing bracket, also inside the type arguments of a generic name, and how the rest is read |
| `TypeSchema.TornText` | pkg/reflectcfg/schema.go:142-256 | a type whose text runs on into another: its collections are read as they are and lead to a string |
| `TypeSchema.DoublePointersMisread` | pkg/reflectcfg/schema.go:164-184 | every type behind two pointers that is not described as a string is misread |
| `TypeSchema.ReadsBack` | pkg/reflectcfg/schema.go:142-256 | scalars, durations, single pointers, slices and maps with keys that print no bracket are read back |
| `TypeSchema.GenericKey` | pkg/reflectcfg/schema.go:242-256 | the values of a map keyed by a generic type whose arguments are no collections are read as strings |
| `TypeSchema.LeafStartsNone` | pkg/reflectcfg/reflectcfg.go:468-497 | no leaf looks like a pointer or a collection |
| `TypeSchema.AliasOf` | pkg/reflectcfg/reflectcfg.go:499-512 | the alias is the stem of the last element of the import path, or of the one before a v and a digit |
| `TypeSchema.StemOf` | pkg/reflectcfg/reflectcfg.go:508-511 | the stem ends at the first hyphen, unless that is where the name starts |
| `TypeSchema.DoublePointerSchema` | pkg/reflectcfg/schema.go:164-184 | behind two asterisks everything is a string |
| `TypeSchema.DocumentedField` | pkg/reflectcfg/schema.go:142-162 | documented sub-fields are described as an object, a list or a map of them according to the type |
| `TypeSchema.EnumeratedField` | pkg/reflectcfg/schema.go:166-168 | a field with an enumeration and no sub-fields, and no other, is described by the parts of the enumeration between its commas |
| `TypeSchema.PlainFieldIff` | pkg/reflectcfg/schema.go:142-189 | a field of which only the type is documented gets the schema of the type exactly for the types that are read back |
| `TypeSchema.BuildObject` | pkg/reflectcfg/schema.go:225-239 | the loop builds the object in which the last field of a key describes it and the required non-pointer keys are required |
| `TypeSchema.RequiredKeys` | pkg/reflectcfg/schema.go:230-232 | a key is required exactly when a required non-pointer field has it |
| `ConfigNames.RoundTripIff` | pkg/config/module.go:81-83 | a documented variable sets the field it documents exactly when path and key have no upper-case letter, the path has no double underscore and no segment but the last ends in one, and the key has no double underscore |
| `ConfigNames.PrintedName` | pkg/reflectcfg/reflectcfg.go:393-403 | a documented variable starts with the prefix and has no lower-case letter and no dot of the path; without letter case it spells the path with a double underscore for every dot |
| `ConfigNames.LowerRoundTrip` | pkg/reflectcfg/reflectcfg.go:401-403 | the same for lower-case text, by the structure of the path |
| `ConfigNames.TrailingUnderscoreMoves` | pkg/config/module.go:81-83 | a path segment that ends in an underscore is read back with the underscore moved to the next segment |
| `ConfigNames.DistinctNames` | pkg/reflectcfg/reflectcfg.go:401-403 | two such fields never share a variable |
| `ConfigNames.ReachableIff` | pkg/config/module.go:81-83 | some variable sets a path exactly when it has no upper-case letter and no double underscore |
| `ConfigNames.NeverDouble` | pkg/config/module.go:81-83 | no variable yields a path with a double underscore |
| `ConfigNames.FlagIff` | pkg/config/module.go:146-155 | a flag is taken apart at its first equals sign, and only text of that form is a flag |
| `Watcher.WatchLoop` | pkg/config/watcher.go:56-94 | the reloads that fire are those of the timed inputs, and never is more than one timer pending |
| `Watcher.ReloadIff` | pkg/config/watcher.go:74-85 | a reload happens at a time exactly when it is one delay after a write or creation that is the last or whose successor comes later than that |
| `Watcher.ReloadsSpaced` | pkg/config/watcher.go:74-85 | reloads are at least one delay apart |
| `Watcher.IgnoredInputsChangeNothing` | pkg/config/watcher.go:69-92 | other events and watcher errors change no reload |
| `Watcher.PendingAtTheEnd` | pkg/config/watcher.go:62-72 | a cancelled watcher drops its pending reload, one whose channel closed does not |
| `Watcher.Turn` | pkg/config/watcher.go:61-93 | one turn of the loop keeps what has fired together with what is still to come |
| `Watcher.Restart` | pkg/config/watcher.go:74-85 | the pending timer is replaced; it fires only if it was due at that very moment |
| `ConfigReload.ConfigModule.Reload` | pkg/config/module.go:186-226 | a candidate that does not load or that a validator rejects changes nothing and calls nothing; a committed one was accepted by every validator, reaches every callback once and in order whatever panics, and every binding that can read it |
| `ConfigReload.ConfigModule.LoadAll` | pkg/config/module.go:190-211 | all sources merged in order, unless one fails |
| `ConfigReload.LoadsIff` | pkg/config/module.go:190-211 | loading succeeds exactly when every source does |
| `ConfigReload.LastSourceWins` | pkg/config/module.go:190-211 | a key has a value exactly when the last source that has the key says so |
| `ConfigReload.ConfigModule.SafeCallback` | pkg/config/module.go:228-237 | a callback is called once; its panic, of the callback itself or of one behind a binding, is recorded and goes no further |
| `ConfigReload.ConfigModule.Invoke` | pkg/config/bind.go:101-116 | a callback takes the value it can read, and panics exactly when it or a callback of its binding does |
| `ConfigReload.ConfigModule.InitBinding` | pkg/config/bind.go:82-119 | a value of the configuration provided at the start that validates is bound and followed; otherwise nothing is bound |
| `ConfigReload.NewBindingAgreesIff` | pkg/config/bind.go:82-119 | a new binding agrees with the configuration in force exactly when it reads the first one alike, until something is committed, and when it can read the configuration in force, from then on |
| `ConfigReload.LateBindingDisagrees` | pkg/config/bind.go:82-119 | bound after a reload that changed what it reads, a module does not agree with the configuration in force |
| `ConfigReload.PortBoundLate` | pkg/config/bind.go:82-119 | a module that is bound to port 80 after the port was reloaded as 81 |
| `ConfigReload.Binding.Update` | pkg/config/bind.go:40-51 | the value is stored and the callbacks hear of it in order up to the first that panics |
| `ConfigReload.NoticesUpToPanic` | pkg/config/bind.go:48-50 | those callbacks are the ones up to the first that panics |
| `ConfigReload.BindModule.Read` | pkg/config/bind.go:67-80 | a value is read exactly when it decodes and validates |
| `ConfigReload.LoadConfig` | pkg/config/bind.go:129-138 | a value that does not validate is reported and not stored |
| `ConfigReload.Operate` | pkg/config/module.go:168-237 | validators, callbacks, bindings and reloads in any order: configuration, count of validators at the last commit, bound values and the log of callback calls are those of a replay |
| `ConfigReload.CommitMeans` | pkg/config/module.go:186-226 | in a replay the configuration in force is the first one or that of the last committed reload, accepted by every validator registered before it, which is the recorded count |
| `ConfigReload.LastCommitIsLast` | pkg/config/module.go:213-225 | the reload named as the last one committed, and none after it did |
| `ConfigReload.HeldStaysValid` | pkg/config/bind.go:101-116 | a bound value stays one that validates, whatever is registered and reloaded |
| `ConfigReload.ConfigModule.FirstRejection` | pkg/config/module.go:213-217 | the first validator that rejects the candidate, if any |
| `ConfigReload.ConfigModule.CallAll` | pkg/config/module.go:221-223 | every callback is called once and in order although some panic, exactly those panics are recorded, and every binding takes the value it can read |
| `ConfigReload.ReloadMany` | pkg/config/module.go:186-226 | configuration and bindings after any sequence of reloads |
| `ConfigReload.LiveIsAccepted` | pkg/config/module.go:186-226 | the configuration after any reloads is the first one or one every validator accepted |
| `ConfigReload.FollowingIsValid` | pkg/config/bind.go:101-116 | a binding holds a value that validates after any reloads |
| `CacheRegistry.Client.Run` | pkg/cache/registry.go:53-158 | over any sequence of registering, dropping, naming, storing, loading and forgetting, the caller sees what the operations on plain values give; no type assertion fails, and all handles to one box are the same handle |
| `CacheRegistry.Registry.Named` | pkg/cache/registry.go:114-158 | the first use binds the types and the built box; a later one gets the same handle or, for other types, an error; unknown names and failed builds leave the registry alone |
| `CacheRegistry.Registry.Register` | pkg/cache/registry.go:53-59 | the name is declared anew and unbound |
| `CacheRegistry.Handle.Get` | pkg/cache/registry.go:88-95 | a hit gives the stored data; the assertion holds |
| `CacheRegistry.Handle.GetOrLoad` | pkg/cache/registry.go:101-110 | the loader is asked only for a missing key; its value is stored and returned, its error stores nothing |
| `CacheRegistry.Box.Rebuild` | pkg/cache/memory/module.go:279-298 | a fresh otter cache replaces the old one, which is stopped; a failed build changes nothing |
| `CacheRegistry.Box.SetMaximum` | pkg/cache/memory/module.go:270-277 | a resize keeps the entries |
| `CacheRegistry.LimitsOf` | pkg/cache/memory/module.go:314-331 | a positive size is the bound, expiry after access wins over expiry after write, neither means no expiry, and statistics are recorded as declared |
| `MemoryCache.Module.OnReload` | pkg/cache/memory/module.go:133-202 | a configured cache is declared as configured, one only in code as it is there, and no other; the registry names are the declared ones; every built cache still declared keeps its handle and is left, resized or rebuilt as its declaration demands; the others are stopped; a configuration that does not load changes nothing; exactly the live boxes run, one otter cache each |
| `MemoryCache.MergedCaches` | pkg/cache/memory/config.go:52-59 | name by name: the configured declaration, else the one in code, and no other name |
| `MemoryCache.Module.Named` | pkg/cache/memory/module.go:56-99 | the first use of a declared cache builds it from its present declaration and records it |
| `MemoryCache.Module.DropUndeclared` | pkg/cache/memory/module.go:160-171 | what is no longer declared is stopped and dropped, the rest untouched |
| `MemoryCache.Module.RegisterNew` | pkg/cache/memory/module.go:173-177 | what is newly declared is registered unbound, the rest untouched |
| `MemoryCache.Module.Refresh` | pkg/cache/memory/module.go:179-201 | every built cache becomes what its old and new declaration demand |
| `MemoryCache.KeepsEntriesIff` | pkg/cache/memory/module.go:179-210 | over any sequence of declarations a built cache keeps its entries exactly when at each of them nothing changed, only the size changed to a positive one, or the rebuild failed; otherwise it starts over empty |
| `MemoryCache.StaysInSyncIff` | pkg/cache/memory/module.go:179-210 | a cache in step with its declaration stays so exactly when nothing has to be rebuilt or the rebuild succeeds |
| `MemoryCache.ConvergesAlways` | pkg/cache/memory/module.go:179-201 | with builds that succeed a cache is in step after any sequence of declarations |
| `MemoryCache.FailedRebuildStays` | pkg/cache/memory/module.go:190-198 | a rebuild that failed is not made up for by later declarations that are the same or differ in size only, to a positive one: entries, expiry and statistics stay |
| `MemoryCache.InSyncAfterIff` | pkg/cache/memory/module.go:179-201 | after any declarations, with any failed rebuilds, a cache is in step exactly when the last declaration is the one put into effect and its otter cache was built for the same expiry and statistics |
| `MemoryCache.ReloadMany` | pkg/cache/memory/module.go:133-202 | over any sequence of configurations with any failing builds: the live caches are the same boxes, those every loaded configuration declares, and each is what its own sequence of declarations makes of it |
| `MemoryCache.FollowerIff` | pkg/cache/memory/module.go:133-202 | so a cache of the module keeps its entries exactly when every change leaves them, and is in step exactly when its declaration took effect |
| `MemoryCache.FollowsStep` | pkg/cache/memory/module.go:179-201 | one more configuration |

## Left out

- Transports (gRPC, Connect, fiber), Temporal, OTel exporters, TLS loading, goose migrations, JWT and OIDC: wrappers over foreign libraries.
- Reflection, Go AST parsing and file discovery: `TypeSchema` starts from types as a datatype, so self-referential structs do not occur.
- Logging, spans, metrics, stack traces and the wiring report: no effect on the properties.
- `typedDefault`, descriptions and `BuildSchema` of `pkg/reflectcfg/schema.go`: straight-line conversions.
- The frame walk of `stackRewriter.Handle` and the file-path cases of `determineModule`: run-time call stacks; the longest-match loop is modelled.
- koanf's merging of nested values: sources are merged key by key, and a scalar that replaces a subtree is not modelled; pflag's rules for unchanged flags are part of what the flag source yields.
- Type arguments that are struct, function, channel or interface literals with brackets in them: such a literal is any text without brackets.
- A configuration reloaded between the start of the watcher and the end of the config module's Init: the configuration provided to other modules is the first one.
- Non-ASCII letters in configuration paths: letter case is modelled for ASCII.
- Otter's eviction, expiry timing and single flight: entries may be forgotten at any time, and resizing is taken to set the bound even of a cache built without one.
- An otter cache that is built but whose size gauge cannot be registered: building is one call that succeeds or fails as a whole.
- Reloads and first uses of caches that overlap in time: the cache module is modelled one call at a time.
- Panicking validators and a panic of LoadConfig (`pkg/lakta/runtime.go:249`): they end the process, since nothing recovers them.
- Caches with an interface type as value type: a nil stored there fails the type assertion, and the model has no nil values.
- Characters other than dots that the Go runtime escapes in function names: import paths have none.
- Concurrent use of one transaction context, driver errors that break the connection, and failed pool lookups: a unit uses only the context it was given, one statement at a time.
- `WithCancelOnError` of the start pools: a cancelled start is one of the ways a start may return.
- `NewScheduler`, time zones, jitter and overlap policies of cron jobs: fields that are compared and passed on.
- A second Close of the event bus, which returns nil at once without waiting: it is in the model, and no theorem promises anything about it.
- Errors of event handlers, which Publish joins or the runner logs: they have no effect on delivery.
- Shutdown of the scheduler, pool and cache modules by the runtime: a race of a drain with a deadline, as in the pool's Close.
- EventBus.PublishReachesSnapshot: says where an event was enqueued, not that it was delivered there.
- Watcher.WatchLoop: the time a reload takes and the latency of the run time are not modelled; a tie between a timer and an input is an input of the model.
