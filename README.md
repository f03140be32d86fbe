# Dependency bookkeeping of the sleeping thread-pool task system

This project models the scheduler core of `TaskSystemParallelThreadPoolSleeping`
(asst2/part_b). Clients launch bulk tasks with `runAsyncWithDeps(runnable, n, deps)`.
Each launch is a batch of `n` calls `runnable->runTask(i, n)`. A batch may start only
after every batch listed in `deps` has finished. Worker threads pop tasks from a FIFO
queue and count finished tasks per batch. When a batch's count reaches its size, the
worker calls `checkPending`, which marks the batch done and releases the batches that
were waiting on it. `sync()` waits until every batch issued so far is done. The model
also covers `TaskSystemSerial`, which runs every launch in place, one index after
another. It serves as the reference for what a launch must do.

The threads are removed. Each region that the C++ code runs under `dataLock_` is one
atomic step. The model has three layers:

- `Scheduler` (scheduler.dfy) holds the six locked fields as a value `State`:
  `nextBatchId_`, `ready_`, `progress_`, `pending_`, `batchDone_` and `dependency_`.
  `Submit` is the locked region of `runAsyncWithDeps`, and `CheckPending` is the locked
  region of `checkPending`. `WorkerStep` is one whole pass of the worker loop over a
  non-empty queue. It runs back to back the pop (tasksys.cpp:38-51), the `runTask`
  call, the increment (tasksys.cpp:54-56), the unlocked re-read of the counter
  (tasksys.cpp:58) and, when the count is reached, `checkPending`. `AllDone` is the
  test that `sync()` repeats. `Inv` is the scheduler invariant. It is stated relative
  to a ghost history: the launches made so far (`batches`) and the tasks whose
  `runTask` call has happened, in order (`trace`). `DepsNotDone` says that no
  dependency set holds a done id.
- `SchedulerProperties` (scheduler_properties.dfy) proves what the code promises about
  these steps.
- `ThreadPool.TaskSystem` (thread_pool.dfy) is the C++ class. Its fields are the six
  locked fields plus `killed_`. Its methods update them in place with the loops of the
  C++ code. Each method is proved against the spec function for its region.
  `Valid()` is `Inv` together with `DepsNotDone`. The public operations
  `RunAsyncWithDeps`, `WorkStep`, `Drain` and `Run` require and keep it. The helpers
  `Admit`, `NotDone`, `Enqueue`, `CheckPending`, `StripDone`, `Release` and `RunFront`
  neither require nor promise it. Each of them only states how it moves the fields.

Tasks (tasks.dfy) holds the `Task` record, the datatype `Tasks.Task`
(asst2/part_b/tasksys.h:20-30). A `Task` value stores its four constructor arguments
unchanged. Serial (serial.dfy) holds the serial system.

Two behaviours of the code may be unexpected. The model follows the code in both:

- A launch with `n <= 0` enqueues nothing, so its counter never reaches a completing
  step and the batch never enters `batchDone_`. `sync()` and `run()` therefore never
  return after such a launch, and batches that list it as a prerequisite are never
  released. One might expect such a launch to complete at once.
- A prerequisite id that was never issued is not treated as satisfied. It stays in the
  dependency set until a `checkPending` for that very id. One might expect such an id
  to count as satisfied.

The order in which `checkPending` promotes batches follows the iteration order of an
`unordered_map`, which the code does not fix. It is modelled as a sequence `toReady`
that lists the promoted set once each (`Lists`). The spec functions take that order as
a parameter.

## Model

| member | source | states |
|---|---|---|
| Serial.Run | asst2/part_b/tasksys.cpp:151-155 | the calls made are runTask(0, n), ..., runTask(n-1, n) on the given runnable, each once and in ascending order; none when n <= 0 |
| Serial.RunAsyncWithDeps | asst2/part_b/tasksys.cpp:157-164 | makes the same calls as Run, ignores the prerequisites, and returns id 0 |
| Serial.BatchCallsMatchSerial | asst2/part_b/tasksys.cpp:109-112 | the tasks one launch puts on the pool's queue correspond exactly to the serial system's calls for that launch, index for index |
| Tasks.SpanAt | asst2/part_b/tasksys.cpp:110-111 | the i-th task that the enqueue loop appends carries index lo + i |
| Tasks.OfBatchAppend | asst2/part_b/tasksys.h:39 | appending to the FIFO queue keeps the relative order of each batch's tasks already queued and puts the new ones after them |
| Scheduler.Initial | asst2/part_b/tasksys.h:36-43 | definition of the field initialisers: no id issued, the queue and progress_ empty, and the sync test passes |
| Scheduler.Emplace | asst2/part_b/tasksys.cpp:114-117 | definition of unordered_map::emplace: the key is present afterwards, gets the new value only when it was absent, and no existing entry is overwritten |
| Scheduler.Submit | asst2/part_b/tasksys.cpp:96-122 | definition of the locked region of runAsyncWithDeps: the counter moves past the id handed out, that id gets a counter, the queue only grows at its back, no batch leaves pending_, batchDone_ is unchanged |
| Scheduler.CheckPending | asst2/part_b/tasksys.cpp:64-88 | definition of checkPending(d) in a given promotion order: d is done and in no dependency set afterwards, batches only leave pending_ and dependency_, the queue only grows at its back, counters and the id counter unchanged |
| Scheduler.Bump | asst2/part_b/tasksys.cpp:55 | definition of `++progress_[id]`: the counter exists afterwards and is one more than before (a missing one counts as 0); every other counter is unchanged |
| Scheduler.Popped | asst2/part_b/tasksys.cpp:49-56 | definition of the pop and the increment: the queue loses exactly its front, the front's counter is bumped, nothing else changes |
| Scheduler.Finishes | asst2/part_b/tasksys.cpp:58 | definition of the re-read test: the worker calls checkPending exactly when the counter, after its own increment, has reached totalTasks |
| Scheduler.WorkerStep | asst2/part_b/tasksys.cpp:36-62 | definition of one worker pass over a non-empty queue: the rest of the queue stays at the front of the new queue, no batch enters pending_, the id counter is unchanged, and batchDone_ gains the front's batch exactly when the pass finishes it |
| Scheduler.AllDone | asst2/part_b/tasksys.cpp:128 | definition of sync()'s size test; it passes once every batch with a counter is done (SyncMeansAllDone gives both directions under the invariant) |
| SchedulerProperties.InitialInv | asst2/part_b/tasksys.h:36-43 | a fresh scheduler satisfies the invariant with no launches, and its sync test passes at once |
| SchedulerProperties.SubmitIssuesFreshId | asst2/part_b/tasksys.cpp:96-99 | the id returned is the current counter, greater than every issued id and unknown to every map and set; the counter moves past it; progress_ gains exactly that id, at 0 |
| SchedulerProperties.OutstandingEmpty | asst2/part_b/tasksys.cpp:101-109 | tmpDep is empty exactly when every listed prerequisite is already done (both directions) |
| SchedulerProperties.SubmitEnqueuesOrParks | asst2/part_b/tasksys.cpp:101-116 | if every prerequisite is done, tasks 0..n-1 of the new id go to the back of the queue and both maps are unchanged; otherwise the queue is unchanged, pending_ gains the record with taskNo -1, and dependency_ gains a non-empty set holding exactly the listed ids not yet done, never-issued ids included; batchDone_ never changes |
| SchedulerProperties.SubmitKeepsInv | asst2/part_b/tasksys.cpp:96-122 | runAsyncWithDeps preserves the invariant (equal key sets of pending_ and dependency_, no empty dependency set, progress accounting, ids issued exactly 0..next-1), with the launch added to the history |
| SchedulerProperties.ReleasedOfBatch | asst2/part_b/tasksys.cpp:76-85 | releasing a list of distinct ids enqueues, for each listed batch that is pending, all of its tasks and nothing of any other batch |
| SchedulerProperties.CheckPendingEffect | asst2/part_b/tasksys.cpp:64-88 | checkPending(d) inserts d into batchDone_ and erases d from every set; a batch leaves dependency_ exactly when its set held nothing but d; pending_ and dependency_ keep equal key sets; no remaining set is empty or holds d; the old queue is a prefix of the new one; progress_ and the id counter are unchanged |
| SchedulerProperties.CheckPendingKeepsOthers | asst2/part_b/tasksys.cpp:69-74 | an outstanding prerequisite x survives checkPending of any other id; only checkPending(x) clears it |
| SchedulerProperties.CheckPendingEnqueuesPromoted | asst2/part_b/tasksys.cpp:76-85 | each batch's queued tasks grow by exactly tasks 0..totalTasks-1 of its pending record when its set held nothing but d; otherwise they do not change |
| SchedulerProperties.CheckPendingIdempotent | asst2/part_b/tasksys.cpp:64-88 | a second checkPending(d) made straight after the first changes nothing, in any state |
| SchedulerProperties.SubmitKeepsDepsNotDone | asst2/part_b/tasksys.cpp:101-116 | runAsyncWithDeps records as outstanding only ids that are not done, so no dependency set holds a done id |
| SchedulerProperties.CheckPendingKeepsDepsNotDone | asst2/part_b/tasksys.cpp:68-74 | checkPending(d) marks only d done and erases d from every set, so no dependency set holds a done id |
| SchedulerProperties.WorkerStepKeepsDepsNotDone | asst2/part_b/tasksys.cpp:36-62 | a worker pass keeps every dependency set free of done ids |
| SchedulerProperties.LateCheckPendingIsNoop | asst2/part_b/tasksys.cpp:58-59 | a checkPending(d) for a batch d already done changes nothing, whatever ran since d was marked done; this is the second call that two workers re-reading progress_ outside the lock can make |
| SchedulerProperties.CheckPendingKeepsInv | asst2/part_b/tasksys.cpp:64-88 | checkPending of a batch recorded as done preserves the invariant; promoted batches become released with all of their tasks queued |
| SchedulerProperties.CheckPendingShrinks | asst2/part_b/tasksys.cpp:76-85 | checkPending either removes at least one batch from pending_ or leaves pending_ and the queue as they were |
| SchedulerProperties.FrontTask | asst2/part_b/tasksys.cpp:49-59 | the queue front is the next unrun index of a released batch that is not done; the step that runs it calls checkPending exactly when it is that batch's last index |
| SchedulerProperties.WorkerStepKeepsInv | asst2/part_b/tasksys.cpp:49-59 | a worker step (pop, runTask, increment, and checkPending on reaching the size) preserves the invariant and appends the popped task to the trace |
| SchedulerProperties.ProgressAccounting | asst2/part_b/tasksys.cpp:49-59 | for a released batch, the tasks run plus the tasks queued make up the whole batch in index order, so progress + queued == totalTasks and progress never exceeds the size; a pending batch has run and queued nothing |
| SchedulerProperties.DoneBatchRanAll | asst2/part_b/tasksys.cpp:55-68 | a batch in batchDone_ has at least one task and has run every index exactly once, dequeued in ascending order; nothing of it is left queued |
| SchedulerProperties.HappensBefore | asst2/part_b/tasksys.cpp:109-116 | when a worker is about to run a task, every prerequisite listed for its batch is done and has run all of its tasks |
| SchedulerProperties.WorkerStepKeepsOthers | asst2/part_b/tasksys.cpp:58-74 | an outstanding prerequisite x of a pending batch survives a worker step unless that step completes batch x |
| SchedulerProperties.WorkerStepShrinks | asst2/part_b/tasksys.cpp:49-59 | each worker step either removes a batch from pending_ or leaves pending_ alone and shortens the queue |
| SchedulerProperties.StepWithoutPending | asst2/part_b/tasksys.cpp:49-59 | with nothing pending, a worker step only pops the queue front |
| SchedulerProperties.SyncMeansAllDone | asst2/part_b/tasksys.cpp:124-129 | the size comparison sync() tests holds exactly when every issued id is in batchDone_ |
| SchedulerProperties.EmptyBatchBlocksSync | asst2/part_b/tasksys.cpp:109-129 | a batch launched with n <= 0 is never in batchDone_, and the sync test fails for good |
| SchedulerProperties.DoneMeansQuiescent | asst2/part_b/tasksys.cpp:124-129 | when the sync test passes, nothing is queued, pending or waiting, and every batch launched had at least one task |
| SchedulerProperties.QuiescentMeansDone | asst2/part_b/tasksys.cpp:124-129 | with an empty queue, nothing pending and every batch non-empty, the sync test passes |
| ThreadPool.TaskSystem.constructor | asst2/part_b/tasksys.h:36-43 | killed_ is false, the counter is 0, every container is empty, the invariant holds, and the sync test passes |
| ThreadPool.TaskSystem.RunAsyncWithDeps | asst2/part_b/tasksys.cpp:96-122 | returns the old counter; the new fields are Submit of the old ones; the launch is recorded; the invariant is kept |
| ThreadPool.TaskSystem.Admit | asst2/part_b/tasksys.cpp:98-117 | the locked region of runAsyncWithDeps moves the six fields exactly as Submit says |
| ThreadPool.TaskSystem.NotDone | asst2/part_b/tasksys.cpp:101-107 | tmpDep holds exactly the listed ids not in batchDone_ |
| ThreadPool.TaskSystem.Enqueue | asst2/part_b/tasksys.cpp:110-112 | the queue gains tasks 0..n-1 of the batch at its back, in ascending order; nothing when n <= 0 |
| ThreadPool.TaskSystem.CheckPending | asst2/part_b/tasksys.cpp:64-88 | toReady lists each promoted batch once; the new fields are the spec CheckPending of the old ones in that order |
| ThreadPool.TaskSystem.StripDone | asst2/part_b/tasksys.cpp:68-74 | doneId is erased from every set, and toReady lists exactly the ids whose set became empty, each once |
| ThreadPool.TaskSystem.Release | asst2/part_b/tasksys.cpp:76-85 | each listed id leaves both maps; the tasks of the listed batches that are pending are queued, batch after batch in list order |
| ThreadPool.TaskSystem.RunFront | asst2/part_b/tasksys.cpp:49-59 | pops the front, records its runTask call, and moves the fields as WorkerStep says |
| ThreadPool.TaskSystem.WorkStep | asst2/part_b/tasksys.cpp:36-62 | runs a step exactly when the pool is not killed and the queue is non-empty; otherwise nothing changes; the invariant is kept |
| ThreadPool.TaskSystem.Shutdown | asst2/part_b/tasksys.cpp:27-28 | sets killed_ and changes nothing else, so later work steps do nothing |
| ThreadPool.TaskSystem.AllDoneNow | asst2/part_b/tasksys.cpp:127-128 | the sync test is true exactly when every launch so far is done; then nothing is queued or pending and every launch had tasks |
| ThreadPool.TaskSystem.Drain | asst2/part_b/tasksys.cpp:36-62 | workers stepping until the queue is empty terminate with the invariant kept and no batch newly pending; with nothing pending at the start, they run the queue front to back |
| ThreadPool.TaskSystem.Run | asst2/part_b/tasksys.cpp:90-94 | whatever ran before, the launch is queued at once and, once the queue is empty, its tasks have run with indices 0..n-1 dequeued in ascending order, each once (the calls of the serial Run); the sync test never passes after a launch of n <= 0 tasks; from a finished state only the launch's tasks run and sync passes |

## Left out

- Threads, the two condition variables and their wait/notify calls, `workers_`, `numThreads_` and thread joining are left out. Each `dataLock_` region is one atomic step, and the workers are modelled as steps run one after another (`Drain`).
- `ThreadPool.TaskSystem.Drain` does not model interleaving between workers. It runs the locked regions of one worker pass back to back: pop, runTask, increment, and the re-read of `progress_` with its `checkPending`. The unlocked re-read at tasksys.cpp:58 can make two workers call `checkPending` for one batch, with other locked regions in between; `LateCheckPendingIsNoop` shows that the second call changes nothing in any state the class can reach (`Valid()`).
- `sync()` is modelled by its test (`AllDoneNow`, `AllDone`), not by its wait loop. The loop waits on `masterCv_` once more after the test has passed, which relies on a later notification (concurrency, left out).
- `ThreadPool.TaskSystem.Shutdown` models only `killed_ = true`. It does not wake the threads or join them.
- `runTask` is user code whose body is not visible. Each call is recorded as the task appended to the ghost `trace`.
- `TaskID` and the counters are C++ `int`. The model uses unbounded integers, so wrap-around of `nextBatchId_` after 2^31 launches is not modelled.
- `name()` strings are diagnostic only and are left out, as is the empty serial `sync()`.
- `TaskSystemParallelSpawn` and `TaskSystemParallelThreadPoolSpinning` in part_b run the same loop as the serial system. asst2/part_a (thread coordination) and asst4/pagerank (floating-point PageRank) are not part of this model.
- `ThreadPool.TaskSystem.Drain` and `ThreadPool.TaskSystem.Run` require that the pool was not shut down. After `Shutdown`, workers stop and `sync()` would wait for good.
