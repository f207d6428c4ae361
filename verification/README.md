# Verified models of astraflux

Dafny models of the parts of astraflux that carry protocols, and proofs of what those
parts promise. `dafny verify dfyconfig.toml` checks everything.

## What is modelled

**The scheduling cycle** (`TaskModel`, `FailurePropagation`, `Dispatch`, `Cycle`,
`TaskScheduling`, `CycleOnDocuments`). `Cycle.CycleOf` is a cycle as a function of the
fetched documents, the idle slots per queue and the sends that succeed; an exception may
cut it short. The class `TaskScheduling.TaskScheduler` and the methods beside it are the
imperative code: mutable tasks, a work queue, edge maps filled by loops, a countdown of
slots; each is proved to compute its part of that function. The theorems about the function
hold for any list of documents; `CycleOnDocuments` says what becomes of every task and what
is sent without any of the function's own terms. The fetch is a filter of its own, because
it changes what the later steps can do (see below).

**The status of a task as a shared register** (`StatusProtocol`, `StatusWrites`,
`CycleRefinement`). A state machine in which a cycle fetches, sends and persists document by
document, while workers, stops, retries and submissions write in between, and a cycle may be
cut short by an exception. `StatusWrites` has the workers' and users' code, whose writes are shown to be
steps of that machine; `CycleRefinement` shows that an undisturbed `execute` is a run of it.

**Cron search** (`Calendar`, `CronScheduling`, `CronHorizon`, `CronFields`) over the
Gregorian calendar from year 1 to 9999, Monday being 0, with the code's own rule that
day of month or weekday may match; a component of an expression means what its text says
(`CronFields.ComponentMeaning`). **The distributed lock** (`JobLocks`), an expiring
document per key and type.

**The retrying thread pool** (`ThreadPool`), a state machine whose atomic steps are the
code's locked sections and queue operations. A submission holds the lock across a queue
operation, so it is several steps.

**The fixture container** (`FixtureModel`, `FixtureManagement`): a memoised, recursive
resolver over mutable cache cells, judged by plain recursion (`Eval`) and by the history of
calls and resumed generators. The outcome of a fixture function may depend on its
arguments and on the serial number of the call, that is, on anything.

**The id generator** (`Snowflake`) and **the RPC client with its circuit breaker**
(`RpcCalling`), with the replies of the listener. The client runs against an arbitrary function from moments to clock
readings, delivered replies and connection faults: replies may be late, lost, repeated or
reordered, and may answer requests of earlier calls.

Statuses and other values are datatypes; a missing or falsy identifier is the empty
string; integers are unbounded as in Python. Randomness, clocks and the outcomes of calls
into other systems are parameters.

## Where the code does less than its documentation says

The models follow the code. Where it disagrees with its documentation, a lemma shows it.

- `README.rst` lines 195 to 199 and the docstrings of the scheduler promise that failures
  reach dependents, that dependents run once their dependencies have succeeded (or are
  final, says line 196), and that parents follow their children. The steps do so for lists
  that contain final tasks (`Cycle.WholeCycleOutcome`), but the fetch never returns one.
  So `execute` never sends a task that records a dependency, propagates no failure and
  completes no parent: `Cycle.FetchedCycleOnlyDispatches`, `Cycle.FetchedTaskIsSentIff` (an
  exact condition) and `Cycle.FinishedDependencyDoesNotRelease` (an example).
- Line 195 lets failures pass from parents to children; the code passes them from children
  to parents. `task_stop` says that dependents of a stopped task fail; only FAILED
  propagates. `Cycle.NeitherStopsNorParentsFail` shows both.
- The compare-and-set in `_persist_updates` gives at-most-once dispatch only while no
  RETRYING document without dependencies is in the collection; no step of the system
  writes RETRYING there. The condition is exact: `StatusProtocol.RetryingIsSentTwice`. A
  cycle that fails between send and persist leads to a second publication as well
  (`StatusProtocol.CutShortIsSentTwice`). It can do so exactly if it leaves the task
  exposed, that is published, still PENDING and without dependencies, before its write:
  `StatusProtocol.AtMostOnceBetweenResets` and its converse, `StatusProtocol.LostIsSentAgain`.
- `README.rst` line 170 gives THREAD fixtures one cache entry per thread. There is one
  entry per fixture, which threads take from one another; and a fixture whose value is
  None is called at every lookup: `FixtureManagement.GetTwice` says exactly when.
- A thread pool whose queue is full raises, but keeps the task as PENDING among its
  results until the next submission takes its id: `ThreadPool.FullQueueLeavesPhantom` is
  an example, `ThreadPool.SubmissionCountedIff` and `ThreadPool.PhantomIff` say exactly
  when.
- The epoch reset of the id generator is meant to avoid duplicate ids after a large clock
  rollback. It does so once, and for a while: every reset issues the same id, so that a
  second one repeats it (`Snowflake.TwoResetsRepeat`), and with time even one reset can
  (`Snowflake.LateIdsRepeat`). While resets are recent, ids are distinct if and only if
  there is at most one (`Snowflake.DistinctIffOneReset`, and
  `Snowflake.DistinctIffTimesDiffer` for runs of any length). And the numbers taken from
  address octets exceed their five bits. Two addresses can share ids (exactly when
  `Snowflake.GeneratorsCollideIff` says), and one generator whose datacenter octet is 32
  or more repeats its own (`Snowflake.IdsIncreaseIff`). Repeated ids matter to the RPC
  client, whose theorem needs ids that are never reused.
- The client lists AttributeError among the exceptions of a service that it raises as
  themselves, but its own handler turns it into RuntimeError (`RpcCalling.RaisedKind`).
- A cron field may be empty (a lone comma), and then there may be no match at all;
  `CronHorizon.SearchSucceedsIff` says exactly when there is one.

## Model

| member | source | states |
|---|---|---|
| FailurePropagation.PropagationIsLeastFixpoint | astraflux/controllers/task_scheduler.py:163-203 | for every status map and graph, cyclic ones included, the tasks FAILED after propagation are the least set that holds the failed ones and is closed under dependent and child-to-parent edges into tasks that are not final; every other status is unchanged |
| FailurePropagation.DoomedIsLeast | astraflux/controllers/task_scheduler.py:181-201 | every set that holds the failed tasks and is closed under failure edges contains the end of every failure chain, by induction on the chain |
| FailurePropagation.PropagatedIsSettled | astraflux/controllers/task_scheduler.py:181-201 | after propagation no failure edge leads from a failed task to an open one |
| FailurePropagation.SearchStep | astraflux/controllers/task_scheduler.py:186-201 | failing one open task and enqueueing it keeps the search invariant and shrinks the set of open tasks: the measure by which the search ends on cyclic graphs |
| FailurePropagation.SearchDone | astraflux/controllers/task_scheduler.py:181-203 | when the queue is empty the statuses are the propagation, whatever order the edges were followed in |
| TaskScheduling.PropagateFailures | astraflux/controllers/task_scheduler.py:163-203 | the queue-driven search on mutable tasks computes the propagation and enqueues every task id at most once, exactly those that end FAILED |
| TaskScheduling.FailDependents | astraflux/controllers/task_scheduler.py:185-192 | the visit of the dependents of a failed task leaves none of them open and keeps the search invariant |
| TaskScheduling.FailParents | astraflux/controllers/task_scheduler.py:194-201 | the visit of the parents of a failed task leaves none of them open and keeps the search invariant |
| Cycle.GraphRecordsDependencies | astraflux/controllers/task_scheduler.py:152-158 | in-edges are exactly the recorded dependencies, out-edges exactly their inverse |
| Cycle.GraphRecordsChildren | astraflux/controllers/task_scheduler.py:147-150 | the children of a task are exactly the documents that name it as their source, and the parents exactly the tasks so named |
| TaskScheduling.BuildDependencyGraph | astraflux/controllers/task_scheduler.py:122-161 | one pass over the documents builds the task map, both edge maps, the parents and their children, and snapshots every status; what these hold is said of the documents by GraphRecordsDependencies, GraphRecordsChildren, LastDocumentCounts and MapInDocumentOrder |
| TaskScheduling.RecordDependencies | astraflux/controllers/task_scheduler.py:152-158 | reading one more document adds its dependencies, and no other edge, to both edge maps; blank ones are ignored |
| TaskScheduling.RecordParent | astraflux/controllers/task_scheduler.py:147-150 | reading one more document adds it behind the children recorded before for its parent |
| Dispatch.Runnable | astraflux/controllers/task_scheduler.py:205-240 | the runnable list holds exactly the ready tasks of the map, without repetition |
| TaskScheduling.FindRunnableTasks | astraflux/controllers/task_scheduler.py:220-240 | the loop computes the runnable list |
| TaskScheduling.DependenciesSatisfied | astraflux/controllers/task_scheduler.py:228-234 | the early-exit loop answers whether every dependency is in the map with SUCCESS |
| TaskScheduling.GetPrioritySubtasks | astraflux/controllers/task_scheduler.py:242-262 | the priority list holds exactly the children of the tasks of the map that are RUNNING |
| Dispatch.Lane | astraflux/controllers/task_scheduler.py:293-299 | a lane holds exactly the runnable tasks of its queue and kind, without repetition |
| Dispatch.SortPermutes | astraflux/controllers/task_scheduler.py:302-306 | sorting by weight permutes |
| Dispatch.SortIsStable | astraflux/controllers/task_scheduler.py:302-306 | sorting orders by descending weight and keeps the order of equal weights |
| Dispatch.RankedIsRanking | astraflux/controllers/task_scheduler.py:301-328 | a queue's ranking lists each of its runnable tasks once; of any two, the earlier is a priority task where the other is not, or of the same kind and heavier, or as heavy and earlier in the runnable list |
| Dispatch.AttemptsAreGranted | astraflux/controllers/task_scheduler.py:308-328 | the send attempts of all queues together are, without repetition, exactly what each queue is granted |
| Dispatch.TopOfRanking | astraflux/controllers/task_scheduler.py:316-328 | the first k entries of a ranking are k tasks, each better than every one left over |
| Dispatch.BestWithinCapacity | astraflux/controllers/task_scheduler.py:277-330 | dispatch attempts exactly the best tasks within capacity: min(slots, wanted) of them in each queue, none without an idle slot, each better than every one passed over, no task twice |
| TaskScheduling.DivideByQueue | astraflux/controllers/task_scheduler.py:290-299 | the loop divides the runnable tasks into the lanes of their queues, queues in order of first use |
| TaskScheduling.SortLanes | astraflux/controllers/task_scheduler.py:301-306 | the loop sorts both lanes of every queue |
| TaskScheduling.SendLane | astraflux/controllers/task_scheduler.py:316-328 | the loop with its countdown attempts the first entries of a lane that the slots allow, and marks WAITING those whose send succeeded |
| TaskScheduling.DispatchQueue | astraflux/controllers/task_scheduler.py:308-330 | priority and normal lane share the slots of a queue: together they get the first entries of their concatenation |
| TaskScheduling.SendTask | astraflux/controllers/task_scheduler.py:332-349 | one message is attempted; the status becomes WAITING exactly if the send did not raise |
| TaskScheduling.Schedule | astraflux/controllers/task_scheduler.py:277-330 | the whole step sends the attempts that the ranking prescribes, in order, and changes no other status; if a lookup of idle slots raises, exactly those for the queues before it |
| TaskScheduling.FirstAttempts | astraflux/controllers/task_scheduler.py:309-330 | the attempts for the first queues are the first of all attempts |
| Cycle.RollUpOutcome | astraflux/controllers/task_scheduler.py:351-383 | over propagated failures the roll-up fails no task; a task it completes has children, all of them SUCCESS in the end, for nested hierarchies in any order |
| Cycle.RollUpCompletes | astraflux/controllers/task_scheduler.py:364-380 | an open parent whose children had all succeeded is completed, wherever it stands in the order |
| TaskScheduling.ChildStatuses | astraflux/controllers/task_scheduler.py:369-376 | the loop over the children finds whether there is one, whether all succeeded, whether one failed |
| TaskScheduling.UpdateParentStatus | astraflux/controllers/task_scheduler.py:351-383 | the loop over the parents computes the roll-up, each parent seeing what the earlier ones became |
| Cycle.ConcludedOutcome | astraflux/controllers/task_scheduler.py:163-383 | propagation, dispatch and roll-up over any task map and graph: final statuses stay, the failed are the closure, new successes are earned, the rest changes to WAITING only by a send |
| Cycle.WholeCycleOutcome | astraflux/controllers/task_scheduler.py:73-89 | the outcome of steps 2 to 7 for any task list: final statuses never change, the FAILED are exactly the propagation closure, a new SUCCESS has children that are all SUCCESS, and the only other change is PENDING or RETRYING to WAITING of a task that was sent |
| CycleOnDocuments.OutcomeOnDocuments | astraflux/controllers/task_scheduler.py:73-89 | the status of every task after a cycle, said of the documents: FAILED exactly if a chain of recorded dependencies and child-to-parent links through unfinished tasks leads to it from a FAILED one; else SUCCESS or STOPPED as before; else SUCCESS exactly if it has children and each was SUCCESS or has become so as a parent named earlier; else WAITING exactly if it was sent; else as before |
| CycleOnDocuments.SentOnDocuments | astraflux/controllers/task_scheduler.py:73-86 | what a cycle sends to each queue, said of the documents: of the tasks that are PENDING or RETRYING, not reached by a failure and whose dependencies are all in the list with SUCCESS, min(slots, all) of them, each outranking every one left, by a RUNNING parent, then weight, then place in the list; none twice |
| CycleOnDocuments.SendOrder | astraflux/controllers/task_scheduler.py:277-330 | of two messages to one queue the earlier is of the task that outranks the other; of two queues the one whose first sendable task is named earlier is served first |
| CycleOnDocuments.FailuresFollowDocuments | astraflux/controllers/task_scheduler.py:185-201 | a failure edge leads from a to b exactly if b depends on a or some document of a names b as its source |
| CycleOnDocuments.UrgentAreChildren | astraflux/controllers/task_scheduler.py:242-262 | the priority subtasks are exactly the tasks some document of which names a RUNNING task of the map as its source |
| CycleOnDocuments.LastDocumentCounts | astraflux/controllers/task_scheduler.py:141-145 | of several documents of a task the map holds the last one |
| CycleOnDocuments.MapInDocumentOrder | astraflux/controllers/task_scheduler.py:141-145 | the map lists the tasks in the order of their first documents |
| CycleOnDocuments.ParentsInDocumentOrder | astraflux/controllers/task_scheduler.py:147-150 | the parents are listed in the order in which documents first name them |
| Cycle.RollUpCompletesIff | astraflux/controllers/task_scheduler.py:351-383 | exactly which open parents a roll-up completes: those with children, each of which had succeeded before or completed as a parent visited earlier |
| Cycle.FailedChildFailsParent | astraflux/controllers/task_scheduler.py:364-383 | an open parent of a FAILED child ends FAILED, whatever its other children are |
| Cycle.WritesOnlyChanges | astraflux/controllers/task_scheduler.py:401-424 | a task whose status the cycle did not change is not written; a WAITING is stored only over the status that was fetched |
| Cycle.FinishedParentCompletes | astraflux/controllers/task_scheduler.py:364-380 | an open task outside the closure whose children had all succeeded before the cycle is SUCCESS after it |
| Cycle.DispatchSafety | astraflux/controllers/task_scheduler.py:205-240 | every task a cycle sends is outside the failure closure and has all its recorded dependencies in the list with SUCCESS; no two tasks of a cycle depend on one another |
| Cycle.PersistenceIsComplete | astraflux/controllers/task_scheduler.py:385-424 | with no other writer in between, the two kinds of update store exactly the statuses of the cycle |
| TaskScheduling.PersistUpdates | astraflux/controllers/task_scheduler.py:401-424 | the loop issues, in map order, a compare-and-set to WAITING for sent tasks and an unconditional write of a changed final status, up to a write that raises |
| TaskScheduling.PersistedAt | astraflux/controllers/task_scheduler.py:401-424 | with one document per task, each document gets exactly the update of its own task |
| TaskScheduling.FetchTasks | astraflux/controllers/task_scheduler.py:98-120 | one fresh task for each fetched document, in the order of the fetch |
| Cycle.FetchIsFirstActive | astraflux/controllers/task_scheduler.py:98-120 | the fetch returns, in cursor order, the first 1000 documents that are not SUCCESS, FAILED or STOPPED, or all of them if there are no more |
| TaskScheduling.RunCycle | astraflux/controllers/task_scheduler.py:73-89 | steps 2 to 7 on mutable tasks realise the cycle as a function of the documents, the slots and the sends |
| TaskScheduling.TaskScheduler.Execute | astraflux/controllers/task_scheduler.py:40-96 | a call while a cycle of any scheduler runs does nothing; otherwise messages and stored documents are exactly those of the cycle over the fetched documents, unless the cycle comes to an exception: in the fetch it has done nothing, in a lookup of idle slots it has sent its messages for the queues before, in a write it has sent all its messages and written the tasks before; every message, in every case, goes to the queue that the document of its task names; the shared lock is free again in every case |
| TaskScheduling.ExecuteStoresOutcome | astraflux/controllers/task_scheduler.py:64-92 | with one document per task, execute stores each fetched task's outcome and leaves the other documents alone |
| CycleRefinement.ExecuteIsRun | astraflux/controllers/task_scheduler.py:64-92 | an undisturbed execute is a run of the status protocol, of scheduler steps alone from begin to finish, with the same publications and the same collection at the end |
| CycleRefinement.UpdateIsWritten | astraflux/providers/_mongodb.py:69-80 | a conditional update of the stored list is the update of the document map that the protocol makes |
| Cycle.FetchedCycleOnlyDispatches | astraflux/controllers/task_scheduler.py:98-120 | over a fetched list nothing is propagated and no parent is rolled up; a task is ready exactly when it is PENDING or RETRYING and records no dependency |
| Cycle.FetchedTaskIsSentIff | astraflux/controllers/task_scheduler.py:64-86 | given slots, a fetched task is sent if and only if it is PENDING or RETRYING and records no dependency, whatever became of the tasks it depends on |
| Cycle.FinalDependencyBlocks | astraflux/controllers/task_scheduler.py:109-119 | in a collection of a task in a final state and an active one that depends on it, the dependent is not sent |
| Cycle.FinishedDependencyDoesNotRelease | astraflux/controllers/task_scheduler.py:109-119 | a concrete collection in which the only dependency has succeeded and the dependent is not sent |
| Cycle.UnlistedDependencyBlocks | astraflux/controllers/task_scheduler.py:230-234 | a task with a dependency outside the list is not sent |
| Cycle.NoFailureNoDoom | astraflux/controllers/task_scheduler.py:175-179 | propagation starts from FAILED tasks alone: a list without one is unchanged |
| Cycle.NeitherStopsNorParentsFail | astraflux/controllers/task_scheduler.py:185-201 | in a cycle over any list, a task whose listed dependencies and children are all STOPPED or SUCCESS does not become FAILED, whatever became of its parent |
| FailurePropagation.NotReached | astraflux/controllers/task_scheduler.py:185-201 | a failure enters a task only along an edge from a task that is FAILED or open |
| StatusProtocol.AtMostOncePerEpoch | astraflux/controllers/task_scheduler.py:332-424 | in every run of scheduler, worker and user steps, two publications of a task are separated by a reset to PENDING or by a cycle that was cut short while the task was exposed |
| StatusProtocol.AtMostOnceBetweenResets | astraflux/controllers/task_scheduler.py:332-424 | in every run in which no cycle is cut short while a task is exposed (its message out, still PENDING, without dependencies and yet to be written), two publications of it are always separated by a reset |
| StatusProtocol.LostIsSentAgain | astraflux/controllers/task_scheduler.py:64-96 | conversely, from any state in which a task is exposed the cycle can be cut short and the next one publish the task again without a reset |
| StatusProtocol.CutShortIsSentTwice | astraflux/controllers/task_scheduler.py:64-96 | from any collection with a PENDING document that records no dependency there is a run in which one cut-short cycle makes it be published twice |
| StatusProtocol.RetryingIsSentTwice | astraflux/controllers/task_scheduler.py:405-414 | the condition is exact: from any collection with a RETRYING document that records no dependency there is a run of complete cycles that publishes the task twice after one reset |
| StatusProtocol.SchedulerOnlyTakesPending | astraflux/controllers/task_scheduler.py:405-424 | the only thing a scheduler step does to the collection is to move a task it published in the running cycle from PENDING to WAITING; what workers and users wrote in between stands |
| StatusProtocol.SentTaskWasPending | astraflux/controllers/task_scheduler.py:220-237 | a fetched task that is sent was PENDING and records no dependency, unless a RETRYING one without dependency was fetched |
| StatusProtocol.StepKeeps | astraflux/controllers/task_scheduler.py:40-96 | every step of the scheduler, the workers and the users keeps the invariant of the protocol |
| StatusProtocol.SendKeeps | astraflux/controllers/task_scheduler.py:341-347 | publishing keeps the invariant: the task's last publication is over |
| StatusProtocol.PersistKeeps | astraflux/controllers/task_scheduler.py:401-415 | the compare-and-set keeps the invariant: a task that is still PENDING though published is one that is yet to be written |
| StatusProtocol.AbortKeeps | astraflux/controllers/task_scheduler.py:64-96 | a cycle cut short by an exception keeps the invariant, the tasks it leaves exposed counted as lost |
| StatusWrites.FindOneAndUpdate | astraflux/providers/_mongodb.py:69-80 | the first document of the task that passes the filter is updated, no other; none is when none passes |
| StatusWrites.UpdateTaskStatus | astraflux/boot/worker_launcher.py:87-120 | afterwards the task has the given status, whatever it had before; the rest of its document, the other documents and the set of tasks are unchanged |
| StatusWrites.ExecuteTask | astraflux/boot/worker_launcher.py:55-85 | in an undisturbed run the task is RUNNING when the worker's function is called, and afterwards SUCCESS, or FAILED if the function raised; nothing else in the collection changes |
| StatusWrites.TaskSubmit | astraflux/exports/data_access.py:112-162 | a submission to a running service answers the given id, or a generated one if that is nothing but white space, and sets that task's document to a PENDING record without parent, of the given queue, weight and dependencies, all else unchanged; otherwise nothing is written |
| StatusWrites.SubtasksCreate | astraflux/exports/data_access.py:165-221 | the loop answers the ids in order, generated where the given one is nothing but white space; afterwards the document of each is a PENDING record of the given queue, weight and parent without dependencies, and every other task is unchanged |
| StatusWrites.GivenIdIsKept | astraflux/exports/data_access.py:31-36 | an id with any character other than white space is kept as it is, any other is replaced |
| StatusWrites.UpsertedAt | astraflux/providers/_mongodb.py:69-80 | an upsert replaces the document of the task in its place, or adds one at the end |
| StatusWrites.UpsertsSetAll | astraflux/exports/data_access.py:205-219 | a batch of upserts overlays the documents of its tasks on the collection |
| StatusWrites.TaskStop | astraflux/exports/data_access.py:245-259 | afterwards the task is in a final status: the one it had, or STOPPED if it was open; all else is unchanged |
| StatusWrites.TaskRetry | astraflux/exports/data_access.py:288-301 | afterwards the task is neither FAILED nor STOPPED: it is PENDING if it was one of these and otherwise has the status it had; all else is unchanged |
| StatusWrites.RewriteChangesOne | astraflux/providers/_mongodb.py:69-80 | a filtered update changes the status of at most that one task, exactly if its stored status passes the filter |
| StatusWrites.UpsertSetsOne | astraflux/providers/_mongodb.py:69-80 | an upsert sets that one task's document and keeps one document per task |
| StatusWrites.WritesAreSteps | astraflux/exports/data_access.py:112-303 | every write of workers and users, on the stored list of documents, is a step that the protocol allows them, or changes nothing |
| Calendar.BeforeIsEarlier | astraflux/providers/_scheduler.py:125-152 | comparing calendar fields is comparing elapsed seconds, over all years from 1 to 9999 |
| Calendar.KnownDays | astraflux/providers/_scheduler.py:134-134 | 1 January of year 1 and 1 January 2024 are Mondays, weekday 0, and the day numbers are those of the Gregorian calendar at known dates around leap centuries |
| Calendar.WeekdayOfNextDay | astraflux/providers/_scheduler.py:134-134 | the weekday of the next day is one more modulo seven, across months and years; with one known Monday this fixes every weekday |
| Calendar.MonthLengths | astraflux/providers/_scheduler.py:176-176 | the months have their lengths; every fourth year has a 29 February except three of four centuries |
| Calendar.PlusDayIsPlus | astraflux/providers/_scheduler.py:176-176 | a day later is 86400 seconds later, or beyond the last representable moment |
| Calendar.PlusHourIsPlus | astraflux/providers/_scheduler.py:186-186 | an hour later is 3600 seconds later, or beyond the last moment |
| Calendar.PlusMinuteIsPlus | astraflux/providers/_scheduler.py:195-195 | a minute later is 60 seconds later, or beyond the last moment |
| Calendar.PlusSecondIsPlus | astraflux/providers/_scheduler.py:202-202 | a second later is one second later, or beyond the last moment |
| CronScheduling.MonthSkip | astraflux/providers/_scheduler.py:156-169 | the month skip moves forward and passes only instants of the same month |
| CronScheduling.DaySkip | astraflux/providers/_scheduler.py:171-179 | the day skip moves forward and passes only instants of the same day |
| CronScheduling.HourSkip | astraflux/providers/_scheduler.py:181-188 | the hour skip moves forward and passes only instants of the same hour |
| CronScheduling.MinuteSkip | astraflux/providers/_scheduler.py:190-197 | the minute skip moves forward and passes only instants of the same minute |
| CronScheduling.SecondSkip | astraflux/providers/_scheduler.py:199-202 | the second skip passes only the instant itself |
| CronScheduling.SkipsNoMatch | astraflux/providers/_scheduler.py:128-150 | from an instant that does not match, the skip taken passes no instant that matches |
| CronScheduling.AdvancedCronScheduler.GetNextExecutionTime | astraflux/providers/_scheduler.py:106-154 | in UTC the search ends, with the earliest matching second strictly after the start, or past year 9999 when there is none |
| CronScheduling.NextIsEarliest | astraflux/providers/_scheduler.py:125-126 | measured in microseconds, the answer matches, lies strictly after a start with a fraction of a second, and no whole second in between matches |
| CronScheduling.NextIsUnique | astraflux/providers/_scheduler.py:106-154 | the answer is determined by fields and start |
| CronScheduling.AdvancedCronScheduler.GetNextNExecutions | astraflux/providers/_scheduler.py:204-226 | the list is a chain of n answers, each searched from the one before; a list cut short ends where no further match exists |
| CronScheduling.ChainListsMatches | astraflux/providers/_scheduler.py:221-226 | the list is strictly increasing, holds only matches, and misses no match up to its last entry: it is the first n matches |
| CronScheduling.CutShortListIsComplete | astraflux/providers/_scheduler.py:221-226 | when the search runs out, the answers found are all the matches there are |
| CronHorizon.MatchWithinHorizon | astraflux/providers/_scheduler.py:128-152 | with weekdays, months and times of day non-empty there is a match less than 373 days after any start before the last year |
| CronHorizon.SearchHorizon | astraflux/providers/_scheduler.py:128-152 | with six non-empty fields the search finds a match less than 373 days ahead: an impossible day of month cannot block it |
| CronHorizon.SearchSucceedsIff | astraflux/providers/_scheduler.py:128-152 | for any parsed fields, also empty ones, the search succeeds if and only if time fields are non-empty and some allowed month has an allowed day or weekday, at any start up to 9991 |
| CronFields.SplitJoins | astraflux/providers/_scheduler.py:67-67 | splitting at a character and joining again is the identity |
| CronFields.PartsHoldNoSeparator | astraflux/providers/_scheduler.py:67-67 | no part of a split holds the character |
| CronFields.ComponentValues | astraflux/providers/_scheduler.py:74-102 | the values of a component lie within the field's bounds and there is at least one |
| CronFields.ComponentMeaning | astraflux/providers/_scheduler.py:74-102 | a component admits v exactly if its text is a range, or a range, a slash and a positive step, where the range is a star before a slash, one number, or two with a hyphen, lies in the bounds of the field and holds v a multiple of the step from its start; it is rejected exactly if there is no such v |
| CronFields.StepIsRead | astraflux/providers/_scheduler.py:74-80 | a component has a range and a step exactly if its text is the range, a slash and the step, or the range alone for step 1 |
| CronFields.BoundsAreSpanned | astraflux/providers/_scheduler.py:82-98 | a range has a start and an end exactly if its text is a star before a slash, two numbers with one hyphen between them, or one number |
| CronFields.EveryTenSeconds | astraflux/providers/_scheduler.py:74-89 | a star with step ten in the place of the seconds admits 0, 10, 20, 30, 40 and 50 |
| Collections.StripTrims | astraflux/providers/_scheduler.py:70-72 | stripping takes white space off both ends, all of it, and nothing else |
| CronFields.ParseField | astraflux/providers/_scheduler.py:46-104 | a star admits every value; otherwise the field is rejected exactly if some component that is not blank means nothing, and admits exactly what its components mean; it is empty exactly if all are blank |
| CronFields.ParseExpression | astraflux/providers/_scheduler.py:33-44 | an expression is rejected exactly if it has not six parts or one of them is rejected; otherwise second, minute, hour, day, month and weekday hold exactly what the first to sixth part admits between 0-59, 0-59, 0-23, 1-31, 1-12 and 0-6; each is empty exactly if its part is blank |
| CronFields.PopulatedExpressionFires | astraflux/providers/_scheduler.py:33-44 | an accepted expression without blank parts always has a next execution less than 373 days ahead |
| JobLocks.AcquisitionsAreSeparated | astraflux/providers/_scheduler.py:526-591 | in any history of acquisitions, refreshes, deletions and clean-ups, between two acquisitions of a lock its document was deleted, or the second acquirer's clock is past the last expiry written |
| JobLocks.UndisturbedLockIsExclusive | astraflux/providers/_scheduler.py:526-591 | a lock that nobody touches cannot be taken again within the 15 seconds after its acquisition |
| JobLocks.LastWrite | astraflux/providers/_scheduler.py:740-755 | without a deletion the stored expiry is the one written last |
| JobLocks.LockCollection.Acquire | astraflux/providers/_scheduler.py:544-591 | the upsert under the unique index succeeds exactly if there is no document or an expired one, and then writes the new expiry |
| JobLocks.LockCollection.Refresh | astraflux/providers/_scheduler.py:746-755 | a refresh moves the expiry of an existing document and creates none |
| JobLocks.LockCollection.Delete | astraflux/providers/_scheduler.py:769-774 | a deletion removes that document only |
| JobLocks.LockCollection.CleanupStaleLocks | astraflux/providers/_scheduler.py:456-471 | the clean-up deletes exactly the expired documents |
| ThreadPool.StepKeeps | astraflux/providers/_executor.py:90-174 | every step of a submitter or worker keeps: each open task is queued once or in the hands of one worker, the queue counts queued and held items, and the counters match the statuses |
| ThreadPool.JoinIsExact | astraflux/providers/_executor.py:195-202 | when the queue's unfinished count is zero and no submission is under way, every submitted task is SUCCESS or FAILED and completed equals total, retried tasks included |
| ThreadPool.JoinWaits | astraflux/providers/_executor.py:195-202 | while a submitted task is neither SUCCESS nor FAILED the unfinished count is positive |
| ThreadPool.RetryAccounting | astraflux/providers/_executor.py:150-171 | over any interleaving a task is attempted at most max_retries + 1 times (once if max_retries is negative); FAILED means exactly that many attempts, all failed; SUCCESS means one more attempt than failures; a task with more than max_retries failures is FAILED or just being judged; FAILED tasks are in failed_tasks, once, and done tasks are not queued |
| ThreadPool.VerdictIsForced | astraflux/providers/_executor.py:150-171 | a worker that has counted a failure goes on to a retry exactly if there were at most max_retries failures, and otherwise gives up, which it does at failure number max_retries + 1, or at the first if that is negative |
| ThreadPool.SubmittedWith | astraflux/providers/_executor.py:90-114 | a task keeps the max_retries it was submitted with, until a later submission takes its id |
| ThreadPool.StatusTells | astraflux/providers/_executor.py:131-171 | a task is RUNNING exactly while a worker is working on it; PENDING means never attempted; RETRYING means failed, at most max_retries times |
| ThreadPool.QueueIsFifo | astraflux/providers/_executor.py:106-129 | tasks are taken from the queue in the order in which they entered it, retried ones behind all that were queued before |
| ThreadPool.SubmissionOrder | astraflux/providers/_executor.py:93-114 | tasks that wait for their first attempt are queued in the order of submission |
| ThreadPool.QueueIsBounded | astraflux/providers/_executor.py:104-112 | a queue with a bound never holds more tasks than that |
| ThreadPool.DoneIsForever | astraflux/providers/_executor.py:143-171 | a task that is SUCCESS or FAILED never changes again |
| ThreadPool.SnapshotIsConsistent | astraflux/providers/_executor.py:228-250 | under the lock success and failed add up to completed, which is at most total, and the five counts add up to total, or to one more exactly while the last submission is one that was refused |
| ThreadPool.PhantomIff | astraflux/providers/_executor.py:92-112 | in every run, when the lock is free, the results hold a task that is not counted if and only if the last submission to end was refused by a full queue; the next submission takes its id |
| ThreadPool.SubmissionCountedIff | astraflux/providers/_executor.py:102-112 | a submission is counted if and only if there was room at its queue operation; if not, its task stays in the results, PENDING, not counted, not queued and in no worker's hands |
| ThreadPool.RequeueKeeps | astraflux/providers/_executor.py:163-174 | the requeue, which comes before task_done, keeps the invariant: at no moment is a task that will be retried outside the count |
| Snowflake.OrIsSum | astraflux/providers/_id_generator.py:145-147 | or-ing into bits that a shift left free is adding, also for negative elapsed times |
| Snowflake.PackIsSum | astraflux/providers/_id_generator.py:145-147 | for fields in range the shifted-or equals the arithmetic sum |
| Snowflake.PackIsInvertible | astraflux/providers/_id_generator.py:54-64 | all four fields can be read off the id |
| Snowflake.MaskIsRemainder | astraflux/providers/_id_generator.py:137-137 | masking the sequence is the remainder by 4096 |
| Snowflake.GeneratorsNeverCollide | astraflux/providers/_id_generator.py:145-149 | generators with different numbers in range never issue the same id, whatever their epochs |
| Snowflake.PackOfNode | astraflux/providers/_id_generator.py:145-147 | the id for any numbers at all: ten bits of the node number, and the rest of it or-ed into the elapsed time |
| Snowflake.GeneratorsCollideIff | astraflux/providers/_id_generator.py:66-74 | two generators, whatever their numbers, can issue a common id if and only if the low ten bits of their node numbers agree |
| Snowflake.IdsIncreaseIff | astraflux/providers/_id_generator.py:66-74 | over all runs with a steady clock the ids of a generator strictly increase, and are distinct, if and only if its datacenter is below 32 and its machine below 1024: with octets, if and only if the datacenter octet is below 32 |
| Snowflake.IdsRepeat | astraflux/providers/_id_generator.py:145-147 | otherwise there is a run of two calls with a steady clock that issues one id twice |
| Snowflake.IdIncreasesIff | astraflux/providers/_id_generator.py:116-149 | for every machine octet and datacenter below 32, a call issues a larger id than the call before exactly when the clock is not behind, or caught up during the sleep, or the epoch is reset over the very first id |
| Snowflake.IdsIncrease | astraflux/providers/_id_generator.py:104-149 | for every machine octet and datacenter below 32, over any run whose clock falls at most 100 ms behind and catches up, ids strictly increase, across the sequence wrap too |
| Snowflake.IdTellsTime | astraflux/providers/_id_generator.py:116-149 | over any run with a steady clock an id shifted right by 22 bits is the clock reading, in milliseconds since 1288834974657, with which its call ended |
| Snowflake.MillisecondHolds | astraflux/providers/_id_generator.py:135-141 | while the clock stands still, the ids after the first of a millisecond are consecutive, 4095 of them, and the next call waits for a later millisecond |
| Snowflake.DistinctIffOneReset | astraflux/providers/_id_generator.py:119-143 | in every run whose clock is steady but for large rollbacks, while the time since a reset stays below the elapsed time of the first id, the ids are distinct if and only if at most one call resets the epoch |
| Snowflake.DistinctIffTimesDiffer | astraflux/providers/_id_generator.py:119-149 | without that bound: the ids are distinct if and only if at most one call resets the epoch and no id after it has the elapsed time and sequence of one before it |
| Snowflake.TwoResetsRepeat | astraflux/providers/_id_generator.py:125-129 | a run of three calls, two of which reset the epoch, issues one id twice |
| Snowflake.LateIdsRepeat | astraflux/providers/_id_generator.py:125-129 | the time since the reset matters: a run with a single reset repeats the first id once as much time has passed again |
| Snowflake.IdsAcrossReset | astraflux/providers/_id_generator.py:125-149 | ids issued since a recent reset are smaller than all ids issued before it |
| Snowflake.SnowflakeGenerator.TillNextMillis | astraflux/providers/_id_generator.py:89-102 | the spin takes the first reading past the last timestamp |
| Snowflake.SnowflakeGenerator.GenerateId | astraflux/providers/_id_generator.py:104-149 | a call advances the state by the readings it took and answers the packed id |
| FixtureManagement.FixtureManager.GetFixture | astraflux/core/fixture.py:162-192 | a lookup ends on every acyclic registry; it answers the cached value without a call, or what the call made last returned or yielded, which is cached now; an error leaves the cache of the fixture alone and is that of a name that is not registered, or of the fixture called last, whose function raised or ended without a yield; with functions that depend on their arguments only it agrees with plain recursion, errors included; it changes no slot but those of the fixtures below |
| FixtureManagement.FixtureManager.ExecuteFixture | astraflux/core/fixture.py:304-347 | a miss resolves the parameters, calls the fixture and caches what it gives, and keeps the invariant |
| FixtureManagement.FixtureManager.ResolveParameters | astraflux/core/fixture.py:321-326 | the loop hands the fixture the values that plain recursion computes, in order, up to the first failure |
| FixtureManagement.FixtureManager.Invoke | astraflux/core/fixture.py:328-347 | the call, its finalizer and its cache entry change one slot and the history, nothing else |
| FixtureModel.CalledKeeps | astraflux/core/fixture.py:304-347 | a call keeps the invariant: pending finalizers exact, one value per GLOBAL fixture and session, cached values coherent, and equal to plain recursion |
| FixtureModel.CalledOnce | astraflux/core/fixture.py:183-192 | in a session a GLOBAL fixture is given a value other than None at most once and is not called afterwards |
| FixtureModel.SingletonGivenOnce | astraflux/core/fixture.py:183-192 | until shutdown, across all global sessions, a SINGLETON fixture is given a value other than None at most once, and that stays cached |
| FixtureModel.CalledCoherent | astraflux/core/fixture.py:304-347 | with GLOBAL fixtures and no None, a call keeps this: every current value is what the fixture's function gave for the values now cached for its parameters; diamonds share one instance |
| FixtureModel.CurrentIsFunctionOfCurrent | astraflux/core/fixture.py:304-347 | under the invariant, with GLOBAL fixtures and no None, every current value is what the fixture's function returns or yields for the current values of its parameters |
| FixtureModel.CalledEval | astraflux/core/fixture.py:304-347 | what a call gives is what plain recursion gives |
| FixtureModel.ArgsStay | astraflux/core/fixture.py:324-326 | resolving one parameter disturbs none of those resolved before |
| FixtureModel.ResolutionFails | astraflux/core/fixture.py:324-326 | a parameter that fails makes the fixture fail with the same error |
| FixtureModel.PendingMembers | astraflux/core/fixture.py:44-50 | the pending finalizers of a fixture are exactly its generators that yielded and were not resumed |
| FixtureModel.PendingInOrder | astraflux/core/fixture.py:44-50 | they are listed in set-up order |
| FixtureManagement.FixtureDef.Finalize | astraflux/core/fixture.py:336-343 | a finalizer raises exactly if its generator raises or yields once more |
| FixtureManagement.FixtureDef.ClearCache | astraflux/core/fixture.py:52-62 | clearing resumes every pending generator, in reverse set-up order; the finalizers that raise are caught and reported in that order, stop no other, and the slot is emptied |
| FixtureModel.RaisingReports | astraflux/core/fixture.py:52-62 | the errors reported name exactly the resumed generators that raised or yielded again, in that order |
| FixtureModel.TeardownOrder | astraflux/core/fixture.py:52-62 | fixtures are torn down one after another in the order in which they are cleared, and of one fixture the generator set up last first |
| FixtureModel.OfScopeInOrder | astraflux/core/fixture.py:227-243 | the fixtures of a scope are cleared in registration order |
| FixtureModel.ClearedTeardown | astraflux/core/fixture.py:52-62 | clearing resumes no generator a second time and leaves the other fixtures' finalizers exact |
| FixtureModel.ClearedEachKeeps | astraflux/core/fixture.py:213-243 | clearing THREAD fixtures, or GLOBAL ones of an earlier session, keeps the invariant |
| FixtureModel.NewSessionKeeps | astraflux/core/fixture.py:223-226 | after a new global key nothing is current any more and the invariant holds |
| FixtureManagement.FixtureManager.StartGlobalSession | astraflux/core/fixture.py:213-230 | a new key, then the GLOBAL fixtures cleared in registration order; refused after shutdown |
| FixtureManagement.FixtureManager.ClearThreadFixtures | astraflux/core/fixture.py:232-243 | the THREAD fixtures are cleared in registration order, also after shutdown |
| FixtureManagement.FixtureManager.StartSession | astraflux/core/fixture.py:104-106 | a new key for the calling thread, no other key changed |
| FixtureManagement.FixtureManager.Shutdown | astraflux/core/fixture.py:245-259 | every fixture is cleared once, and afterwards every generator that ever yielded was resumed, whichever finalizers raise |
| FixtureModel.NothingPending | astraflux/core/fixture.py:245-259 | when no slot holds a finalizer, no generator is left to resume |
| FixtureManagement.GetTwice | astraflux/core/fixture.py:64-72 | a second lookup makes no new call exactly if the value is not None and, for THREAD fixtures, the same thread asks: all threads share one entry per fixture |
| RpcCalling.RpcCaller.Call | astraflux/providers/_rpc.py:204-257 | a call is refused exactly when the breaker refuses; it publishes at most max_retries requests, all under its own id; the reply it returns or raises from was delivered since it began and carries its id, so that it answers one of its own requests if ids are never reused; if the listener produced that reply, the call returns exactly what the service method returned, or raises its exception with its message, by its own type if that is TypeError, ValueError, KeyError, RuntimeError or PermissionError and as RuntimeError otherwise; a reply without a status is returned unchanged; it gives up only after all its attempts; the breaker is told of a success, a give-up, or nothing when the service raised |
| RpcCalling.RpcCaller.ExecuteCall | astraflux/providers/_rpc.py:166-202 | one attempt publishes at most one request and takes no response left over from before |
| RpcCalling.RpcCaller.AwaitResponse | astraflux/providers/_rpc.py:188-192 | the wait ends with a response that was delivered during the attempt, or times out without one when the clock is past the deadline |
| RpcCalling.RpcCaller.Attempts | astraflux/providers/_rpc.py:218-257 | the retry loop makes max_retries attempts unless one of them ends it |
| RpcCalling.RpcCaller.OnResponse | astraflux/providers/_rpc.py:162-164 | a reply is taken exactly if it carries the current id; the last one taken wins, a None body erases it |
| RpcCalling.RpcCaller.Conclude | astraflux/providers/_rpc.py:218-257 | the breaker is told of a success when something is returned, of a failure when the attempts are used up, and of nothing when the service or the connection raised |
| RpcCalling.RpcCaller.OwnRequest | astraflux/providers/_rpc.py:162-166 | with fresh ids, the current id is on no request of an earlier call |
| RpcCalling.RaisedKind | astraflux/providers/_rpc.py:144-160 | an allowed type is raised as itself, except AttributeError, which the handler around the raise turns into RuntimeError like every unknown type |
| RpcCalling.Interpret | astraflux/providers/_rpc.py:144-202 | a reply that reports an error is raised, every other one returned; what is raised is one of five types, never one on which the call tries again |
| RpcCalling.ReplyConveys | astraflux/providers/_rpc.py:300-321 | the round trip through the listener's reply: the caller's outcome is the value that the service method returned, None included, or its exception with its message |
| RpcCalling.CircuitBreaker.IsOpen | astraflux/providers/_rpc.py:33-40 | the breaker refuses exactly when the failures since the last success reach the threshold and neither this nor an earlier question since the last failure came after the recovery time |
| RpcCalling.BreakerTrips | astraflux/providers/_rpc.py:33-55 | after a success and then failures, calls are refused exactly if the failures are at least the threshold and the last was within the recovery time, and no longer once a question after that time let a trial call through |
| RpcCalling.FailuresAreSinceSuccess | astraflux/providers/_rpc.py:42-55 | the failures in a row are the failures that no success has followed |
| RpcCalling.CircuitBreaker.RecordSuccess | astraflux/providers/_rpc.py:42-44 | a success ends the row of failures |
| RpcCalling.CircuitBreaker.RecordFailure | astraflux/providers/_rpc.py:46-55 | a failure adds to the row and opens the breaker from the threshold on, or at once after a trial call |
| RpcCalling.FreshAfterAsking | astraflux/providers/_rpc.py:33-40 | a question leaves the last failure fresh exactly if it came within the recovery time |

## Left out

- MongoDB, Redis, RabbitMQ, logging, pickling and process handling: the database is a list of documents with atomic find-and-update, a queue the sequence of attempted messages, idle slots an arbitrary integer per queue. Logging is assumed not to raise, and a send that raises is taken as not published.
- StatusProtocol.StepKeeps: the interleaving is modelled on values, as a state machine over document maps with one document per task, not on threads sharing a heap; at most one cycle runs at a time, as within one process.
- ThreadPool.StepKeeps: the pool is modelled on values, as a state machine, because worker loops interleave; update in place of the task objects is a change of the map of tasks.
- ThreadPool.JoinIsExact: a statement about the queue's counter without shutdown; liveness, shutdown draining, worker start-up, timeouts and BaseException exits are not modelled.
- TaskScheduling.TaskScheduler.Execute: exceptions from malformed documents (a missing id, say) are not modelled; what a task document must hold, it holds.
- StatusWrites.ExecuteTask: shows a run without other writers, the worker's function being one that ends or raises; with them, each of its writes is a step of the protocol. The run list in Redis, process ids and times are not modelled, nor is the message handler with its caches and its check for stopped tasks.
- StatusWrites.TaskStop: the answers of `task_stop` and `task_retry` are not modelled; the database layer answers nothing, so they are constant.
- JobLocks.AcquisitionsAreSeparated: a property of lock documents. Mutual exclusion of jobs is not claimed: jobs outlive the step that started them, refresh and deletion do not look at the owner, and clocks differ.
- CronScheduling.AdvancedCronScheduler.GetNextExecutionTime: in UTC only; in other zones the skips round in UTC and may pass local matches, and daylight saving is not modelled. The default start (now) and naive datetimes are the caller's `from`. A start or search beyond year 9999 is None where the code raises.
- CronFields.ParseExpression: takes the parts of the expression; that they are split at white space is not modelled.
- CronFields.ParseField: `int` is an arbitrary parser.
- Snowflake.IdsIncrease: concurrent calls to one generator are not modelled.
- FixtureManagement.FixtureManager.GetFixture: registries are acyclic (a cyclic one ends in a recursion error) and complete, registration being over; functions and finalizers do not re-enter the manager; the manager's lock makes lookups atomic. `bind_fixture_func` and TypeErrors are not modelled.
- RpcCalling.RpcCaller.Call: reconnection, back-off delays and reply queues are not modelled; a reply to any published request may arrive at any time, which includes what they do. Time passes: the clock exceeds every deadline eventually.
- RpcListener: a server may answer a request any number of times or never; that it copies the correlation id is how a reply refers to its request.
- The process pool, the worker registry, job execution modes, launchers, configuration, web interface and system monitor: plumbing, or claims that do not hold under concurrency.
