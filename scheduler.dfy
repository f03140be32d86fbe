/** The dependency bookkeeping of TaskSystemParallelThreadPoolSleeping as
    a state machine on values. Each region the C++ code guards with
    `dataLock_` is one step here; the worker threads, condition variables
    and shutdown flag that surround these steps are not modelled. */
module Scheduler {
  import opened Tasks

  /** The six fields the lock protects. */
  datatype State = State(
    nextBatchId: TaskId,                         // next id to hand out
    ready: seq<Task>,                            // FIFO queue, front at index 0
    progress: map<TaskId, int>,                  // tasks finished per issued batch
    pending: map<TaskId, Task>,                  // batches waiting on prerequisites
    batchDone: set<TaskId>,                      // batches whose last task finished
    dependency: map<TaskId, set<TaskId>>)        // outstanding prerequisites per pending batch

  /** What a submission fixed about batch `id`: the launch's arguments.
      This history is ghost; the scheduler itself forgets the size and the
      prerequisites of a batch once it is released. */
  datatype Batch = Batch(total: int, runnable: Runnable, deps: set<TaskId>)

  /** A freshly constructed scheduler: no id issued, nothing queued or
      counted, and sync()'s test already passes. */
  function Initial(): (s: State)
    ensures s.nextBatchId == 0 && s.ready == [] && s.progress == map[]
    ensures AllDone(s)
  {
    State(0, [], map[], map[], {}, map[])
  }

  /** std::unordered_map::emplace: inserts only when the key is absent.
      The key is present afterwards and no existing entry is overwritten. */
  function Emplace<K, V>(m: map<K, V>, k: K, v: V): (r: map<K, V>)
    ensures r.Keys == m.Keys + {k}
    ensures forall j :: j in m ==> r[j] == m[j]
    ensures k !in m ==> r[k] == v
  {
    if k in m then m else m[k := v]
  }

  /** The prerequisites that are not yet in `done`: the set tmpDep. */
  function Outstanding(deps: seq<TaskId>, done: set<TaskId>): set<TaskId>
  {
    set x | x in deps && x !in done
  }

  /** runAsyncWithDeps(r, n, deps): the new id is `s.nextBatchId`. A
      launch moves the counter past the id it hands out, gives that id a
      counter, only appends to the queue, never releases a pending batch
      and never marks a batch done. */
  function Submit(s: State, r: Runnable, n: int, deps: seq<TaskId>): (t: State)
    ensures t.nextBatchId == s.nextBatchId + 1
    ensures s.nextBatchId in t.progress
    ensures s.ready <= t.ready
    ensures s.pending.Keys <= t.pending.Keys
    ensures t.batchDone == s.batchDone
  {
    var id := s.nextBatchId;
    var out := Outstanding(deps, s.batchDone);
    var placed :=
      if out == {} then s.(ready := s.ready + BatchTasks(id, n, r))
      else s.(pending := Emplace(s.pending, id, Task(id, n, r, -1)),
              dependency := Emplace(s.dependency, id, out));
    placed.(nextBatchId := id + 1, progress := Emplace(s.progress, id, 0))
  }

  /** Every dependency set with `d` erased. */
  function Stripped(dep: map<TaskId, set<TaskId>>, d: TaskId): map<TaskId, set<TaskId>>
  {
    map id | id in dep :: dep[id] - {d}
  }

  /** The batches whose dependency set is empty once `d` is erased. */
  function Promoted(dep: map<TaskId, set<TaskId>>, d: TaskId): set<TaskId>
  {
    set id | id in dep && dep[id] - {d} == {}
  }

  predicate Distinct(order: seq<TaskId>)
  {
    forall i, j :: 0 <= i < j < |order| ==> order[i] != order[j]
  }

  /** `order` lists each id of `ids` exactly once: the vector toReady, in
      whatever order the hash map was iterated. */
  ghost predicate Lists(order: seq<TaskId>, ids: set<TaskId>)
  {
    Distinct(order) && forall x :: x in order <==> x in ids
  }

  /** The tasks of the pending batches named by `order`, batch after batch. */
  function Released(pending: map<TaskId, Task>, order: seq<TaskId>): seq<Task>
  {
    if order == [] then []
    else (if order[0] in pending then TasksOf(pending[order[0]]) else [])
         + Released(pending, order[1..])
  }

  /** checkPending(d), promoting the batches in the order `order`.
      Afterwards d is done and mentioned by no dependency set; batches only
      leave pending_ and dependency_, the queue only grows at its back, and
      the counters and the id counter are untouched. */
  function CheckPending(s: State, d: TaskId, order: seq<TaskId>): (t: State)
    ensures d in t.batchDone && s.batchDone <= t.batchDone
    ensures forall id :: id in t.dependency ==> d !in t.dependency[id]
    ensures t.pending.Keys <= s.pending.Keys && t.dependency.Keys <= s.dependency.Keys
    ensures s.ready <= t.ready
    ensures t.progress == s.progress && t.nextBatchId == s.nextBatchId
  {
    var gone := Promoted(s.dependency, d);
    s.(batchDone := s.batchDone + {d},
       dependency := Stripped(s.dependency, d) - gone,
       pending := s.pending - gone,
       ready := s.ready + Released(s.pending, order))
  }

  /** `++progress_[id]`: operator[] starts a missing counter at 0, so the
      counter of `id` exists afterwards and is one more than before, and
      every other counter is unchanged. */
  function Bump(progress: map<TaskId, int>, id: TaskId): (r: map<TaskId, int>)
    ensures r.Keys == progress.Keys + {id}
    ensures r[id] == (if id in progress then progress[id] else 0) + 1
    ensures forall j :: j in progress && j != id ==> r[j] == progress[j]
  {
    progress[id := (if id in progress then progress[id] else 0) + 1]
  }

  /** The front task popped and its batch's counter bumped: the queue
      loses exactly its front, and nothing but the queue and that counter
      changes. */
  function Popped(s: State): (p: State)
    requires s.ready != []
    ensures [s.ready[0]] + p.ready == s.ready
    ensures p.progress == Bump(s.progress, s.ready[0].batchId)
    ensures p.(ready := s.ready, progress := s.progress) == s
  {
    s.(ready := s.ready[1..], progress := Bump(s.progress, s.ready[0].batchId))
  }

  /** Whether the worker that ran the front task calls checkPending: the
      test reads the counter after that task's own increment. */
  predicate Finishes(s: State)
    requires s.ready != []
    ensures Finishes(s) <==>
      Popped(s).progress[s.ready[0].batchId] >= s.ready[0].totalTasks
  {
    Bump(s.progress, s.ready[0].batchId)[s.ready[0].batchId] >= s.ready[0].totalTasks
  }

  /** The batches the worker step promotes. */
  function StepPromotes(s: State): set<TaskId>
    requires s.ready != []
  {
    if Finishes(s) then Promoted(s.dependency, s.ready[0].batchId) else {}
  }

  /** One pass of work() over a non-empty queue, its locked regions run
      back to back: pop the front, run it, bump the counter and, when the
      counter reaches the batch size, checkPending. */
  function WorkerStep(s: State, order: seq<TaskId>): (t: State)
    requires s.ready != []
    ensures s.ready[1..] <= t.ready
    ensures t.pending.Keys <= s.pending.Keys
    ensures t.nextBatchId == s.nextBatchId
    ensures t.batchDone == s.batchDone + (if Finishes(s) then {s.ready[0].batchId} else {})
  {
    if Finishes(s) then CheckPending(Popped(s), s.ready[0].batchId, order) else Popped(s)
  }

  /** The predicate sync() waits for. It compares sizes only; it holds
      once every batch with a counter is done. */
  predicate AllDone(s: State)
    ensures s.batchDone == s.progress.Keys ==> AllDone(s)
  {
    |s.batchDone| == |s.progress|
  }

  /** Ids, counters, queued and executed tasks all refer to issued batches,
      which are exactly 0..nextBatchId-1. */
  ghost predicate Issued(s: State, batches: map<TaskId, Batch>, trace: seq<Task>)
  {
    && 0 <= s.nextBatchId
    && (forall id :: id in batches <==> 0 <= id < s.nextBatchId)
    && s.progress.Keys == batches.Keys
    && s.pending.Keys <= batches.Keys
    && s.batchDone <= batches.Keys
    && (forall t :: t in s.ready ==> t.batchId in batches)
    && (forall t :: t in trace ==> t.batchId in batches)
  }

  /** pending_ and dependency_ have the same keys, and no dependency set is
      empty. */
  ghost predicate Graph(s: State)
  {
    && s.pending.Keys == s.dependency.Keys
    && forall id :: id in s.dependency ==> s.dependency[id] != {}
  }

  /** Every id a pending batch still waits on is not done yet. checkPending
      erases an id from every set at the moment it marks it done, and a
      launch never records a done id as outstanding. */
  ghost predicate DepsNotDone(s: State)
  {
    forall id, x :: id in s.dependency && x in s.dependency[id] ==> x !in s.batchDone
  }

  /** Where batch `id` stands. Pending: nothing queued or run, counter 0,
      every prerequisite either done or still outstanding. Released: the
      first p tasks ran in index order, the rest are queued in index order,
      it is done exactly when it has tasks and all of them ran, and all its
      prerequisites are done. */
  ghost predicate BatchOk(s: State, batches: map<TaskId, Batch>, trace: seq<Task>, id: TaskId)
  {
    && id in batches
    && id in s.progress
    && var b, p := batches[id], s.progress[id];
       if id in s.pending then
         && id in s.dependency
         && s.pending[id] == Task(id, b.total, b.runnable, -1)
         && p == 0
         && OfBatch(s.ready, id) == []
         && OfBatch(trace, id) == []
         && id !in s.batchDone
         && b.deps <= s.batchDone + s.dependency[id]
       else
         && 0 <= p <= Width(b.total)
         && OfBatch(trace, id) == Span(id, b.total, b.runnable, 0, p)
         && OfBatch(s.ready, id) == Span(id, b.total, b.runnable, p, Width(b.total))
         && (id in s.batchDone <==> 0 < b.total == p)
         && b.deps <= s.batchDone
  }

  /** The scheduler invariant, relative to the launches made so far
      (`batches`) and the tasks run so far, in order (`trace`). */
  ghost predicate Inv(s: State, batches: map<TaskId, Batch>, trace: seq<Task>)
  {
    && Issued(s, batches, trace)
    && Graph(s)
    && forall id :: id in batches ==> BatchOk(s, batches, trace, id)
  }
}
