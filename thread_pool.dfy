/** TaskSystemParallelThreadPoolSleeping as a class over the six fields that
    `dataLock_` protects. Each method body is one locked region of the C++
    code, run to completion without interference; the spec functions of
    module Scheduler say what each region does to the fields, and the
    lemmas of SchedulerProperties carry the invariant across it. */
module ThreadPool {
  import opened Tasks
  import opened Scheduler
  import opened SchedulerProperties
  import Serial

  /** No id in `order` occurs twice after `x` is appended. */
  lemma DistinctSnoc(order: seq<TaskId>, x: TaskId)
    requires Distinct(order) && x !in order
    ensures Distinct(order + [x])
  {
    var o := order + [x];
    forall i, j | 0 <= i < j < |o| ensures o[i] != o[j] {
      assert o[i] == order[i];
      if j == |order| {
        assert order[i] in order;
      } else {
        assert o[j] == order[j];
      }
    }
  }

  /** Moving the front of a queue to the end of a trace keeps their
      concatenation. */
  lemma PopAppend(trace: seq<Task>, q: seq<Task>)
    requires q != []
    ensures (trace + [q[0]]) + q[1..] == trace + q
  {
    assert q == [q[0]] + q[1..];
  }

  class TaskSystem {
    var killed: bool
    var nextBatchId: TaskId
    var ready: seq<Task>
    var progress: map<TaskId, int>
    var pending: map<TaskId, Task>
    var batchDone: set<TaskId>
    var dependency: map<TaskId, set<TaskId>>

    /** The launches made so far: size, runnable and listed prerequisites. */
    ghost var batches: map<TaskId, Batch>
    /** The tasks whose runTask call has been made, in the order made. */
    ghost var trace: seq<Task>

    /** The locked fields as a value. */
    function Abs(): State
      reads this
    {
      State(nextBatchId, ready, progress, pending, batchDone, dependency)
    }

    /** The scheduler invariant, and no outstanding prerequisite is done. */
    ghost predicate Valid()
      reads this
    {
      Inv(Abs(), batches, trace) && DepsNotDone(Abs())
    }

    /** The field initialisers: nothing issued, every container empty, and
        the pool not shutting down. */
    constructor ()
      ensures Valid()
      ensures !killed && Abs() == Initial()
      ensures batches == map[] && trace == []
      ensures AllDone(Abs())
    {
      killed := false;
      nextBatchId := 0;
      ready := [];
      progress := map[];
      pending := map[];
      batchDone := {};
      dependency := map[];
      batches := map[];
      trace := [];
      InitialInv();
    }

    /** runAsyncWithDeps: hands out the next id, keeps the prerequisites
        that are not done in tmpDep, then either queues every task of the
        launch or parks it, and starts its counter at 0. The launch is
        recorded in the ghost history. */
    method RunAsyncWithDeps(r: Runnable, n: int, deps: seq<TaskId>) returns (id: TaskId)
      requires Valid()
      modifies this
      ensures id == old(nextBatchId)
      ensures Abs() == Submit(old(Abs()), r, n, deps)
      ensures batches == old(batches)[id := Batch(n, r, set x | x in deps)]
      ensures trace == old(trace) && killed == old(killed)
      ensures Valid()
    {
      SubmitKeepsInv(Abs(), batches, trace, r, n, deps);
      SubmitKeepsDepsNotDone(Abs(), r, n, deps);
      id := Admit(r, n, deps);
      batches := batches[id := Batch(n, r, set x | x in deps)];
    }

    /** The locked region of runAsyncWithDeps on the six fields. */
    method Admit(r: Runnable, n: int, deps: seq<TaskId>) returns (id: TaskId)
      modifies this`nextBatchId, this`ready, this`pending, this`dependency, this`progress
      ensures id == old(nextBatchId)
      ensures Abs() == Submit(old(Abs()), r, n, deps)
    {
      ghost var s0 := Abs();
      id := nextBatchId;
      nextBatchId := nextBatchId + 1;

      var tmpDep := NotDone(deps);
      assert tmpDep == Outstanding(deps, s0.batchDone) by {
        forall x ensures x in tmpDep <==> x in Outstanding(deps, s0.batchDone) {}
      }
      if tmpDep == {} {
        Enqueue(id, n, r);
      } else {
        if id !in pending {
          pending := pending[id := Task(id, n, r, -1)];
        }
        if id !in dependency {
          dependency := dependency[id := tmpDep];
        }
      }
      if id !in progress {
        progress := progress[id := 0];
      }
    }

    /** The loop that builds tmpDep: the listed prerequisites not yet in
        batchDone_, each once. */
    method NotDone(deps: seq<TaskId>) returns (tmpDep: set<TaskId>)
      ensures forall x :: x in tmpDep <==> x in deps && x !in batchDone
    {
      tmpDep := {};
      for k := 0 to |deps|
        invariant forall x :: x in tmpDep <==> x in deps[..k] && x !in batchDone
      {
        assert deps[..k + 1] == deps[..k] + [deps[k]];
        if deps[k] !in batchDone {
          tmpDep := tmpDep + {deps[k]};
        }
      }
      assert deps[..|deps|] == deps;
    }

    /** `for (int i = 0; i < n; ++i) ready_.emplace(id, n, r, i)`: the
        tasks 0..n-1 of batch id, in ascending order, at the back of the
        queue; nothing when n <= 0. */
    method Enqueue(id: TaskId, n: int, r: Runnable)
      modifies this`ready
      ensures ready == old(ready) + BatchTasks(id, n, r)
    {
      var i := 0;
      while i < n
        invariant 0 <= i <= Width(n)
        invariant ready == old(ready) + Span(id, n, r, 0, i)
      {
        ready := ready + [Task(id, n, r, i)];
        i := i + 1;
      }
    }

    /** checkPending(doneId): marks doneId done, erases it from every
        dependency set while collecting in toReady the batches whose set
        became empty, then drops each of those from both maps and queues
        the tasks of those still pending. `toReady` comes out in the order
        the hash map was walked, which the code does not fix. */
    method CheckPending(doneId: TaskId) returns (toReady: seq<TaskId>)
      modifies this`batchDone, this`dependency, this`pending, this`ready
      ensures Lists(toReady, Promoted(old(dependency), doneId))
      ensures Abs() == Scheduler.CheckPending(old(Abs()), doneId, toReady)
    {
      ghost var gone := Promoted(dependency, doneId);
      batchDone := batchDone + {doneId};
      toReady := StripDone(doneId);
      Release(toReady);
      assert (set x | x in toReady) == gone by {
        forall x ensures x in toReady <==> x in gone {}
      }
    }

    /** The first loop of checkPending: doneId erased from every dependency
        set, and the ids whose set became empty listed once each. */
    method StripDone(doneId: TaskId) returns (toReady: seq<TaskId>)
      modifies this`dependency
      ensures Lists(toReady, Promoted(old(dependency), doneId))
      ensures dependency == Stripped(old(dependency), doneId)
    {
      ghost var dep0 := dependency;
      ghost var gone := Promoted(dep0, doneId);
      var todo := dependency.Keys;
      toReady := [];
      while exists id :: id in todo
        invariant todo <= dep0.Keys == dependency.Keys
        invariant forall id :: id in dep0 ==>
          dependency[id] == if id in todo then dep0[id] else dep0[id] - {doneId}
        invariant Distinct(toReady)
        invariant forall x :: x in toReady <==> x in gone && x !in todo
        decreases |todo|
      {
        var id :| id in todo;
        var dep := dependency[id] - {doneId};
        dependency := dependency[id := dep];
        if dep == {} {
          DistinctSnoc(toReady, id);
          toReady := toReady + [id];
        }
        todo := todo - {id};
      }
      ghost var spec := Stripped(dep0, doneId);
      forall id | id in dep0 ensures dependency[id] == spec[id] {
        assert id !in todo;
      }
      assert dependency.Keys == spec.Keys;
    }

    /** The second loop of checkPending: each listed id leaves both maps,
        and the tasks of each listed batch still pending are queued, batch
        after batch in list order. */
    method Release(toReady: seq<TaskId>)
      requires Distinct(toReady)
      modifies this`dependency, this`pending, this`ready
      ensures dependency == old(dependency) - (set x | x in toReady)
      ensures pending == old(pending) - (set x | x in toReady)
      ensures ready == old(ready) + Released(old(pending), toReady)
    {
      var j := 0;
      assert toReady[..0] == [];
      assert (set x | x in toReady[..0]) == {};
      while j < |toReady|
        invariant 0 <= j <= |toReady|
        invariant dependency == old(dependency) - (set x | x in toReady[..j])
        invariant pending == old(pending) - (set x | x in toReady[..j])
        invariant ready == old(ready) + Released(old(pending), toReady[..j])
      {
        var id := toReady[j];
        assert id !in toReady[..j] by {
          forall i | 0 <= i < j ensures toReady[i] != id {}
        }
        assert toReady[..j + 1] == toReady[..j] + [id];
        ReleasedSnoc(old(pending), toReady[..j], id);
        dependency := dependency - {id};
        if id in pending {
          var t := pending[id];
          Enqueue(t.batchId, t.totalTasks, t.runnable);
          pending := pending - {id};
        }
        j := j + 1;
      }
      assert toReady[..j] == toReady;
    }

    /** One pass of the loop in work(). While the pool is running and the
        queue is not empty, the worker pops the front task, runs it, bumps
        its batch's counter and, when the counter reaches the batch size,
        calls checkPending; with an empty queue it goes to sleep, which
        changes nothing. */
    method WorkStep() returns (ran: bool, toReady: seq<TaskId>)
      requires Valid()
      modifies this
      ensures ran == (!old(killed) && old(ready) != [])
      ensures ran ==> Lists(toReady, StepPromotes(old(Abs())))
      ensures ran ==> Abs() == WorkerStep(old(Abs()), toReady)
      ensures ran ==> trace == old(trace) + [old(ready)[0]]
      ensures !ran ==> Abs() == old(Abs()) && trace == old(trace)
      ensures batches == old(batches) && killed == old(killed)
      ensures Valid()
    {
      toReady := [];
      if killed || ready == [] {
        ran := false;
        return;
      }
      ran := true;
      ghost var s0, trace0 := Abs(), trace;
      toReady := RunFront();
      WorkerStepKeepsInv(s0, batches, trace0, toReady);
      WorkerStepKeepsDepsNotDone(s0, toReady);
    }

    /** The work of one pass over a non-empty queue. */
    method RunFront() returns (toReady: seq<TaskId>)
      requires ready != []
      modifies this`ready, this`trace, this`progress, this`batchDone, this`dependency, this`pending
      ensures Lists(toReady, StepPromotes(old(Abs())))
      ensures Abs() == WorkerStep(old(Abs()), toReady)
      ensures trace == old(trace) + [old(ready)[0]]
    {
      var t := ready[0];
      ready := ready[1..];
      trace := trace + [t];
      var b := t.batchId;
      progress := progress[b := (if b in progress then progress[b] else 0) + 1];
      if progress[b] >= t.totalTasks {
        toReady := CheckPending(b);
      } else {
        toReady := [];
      }
    }

    /** The destructor's `killed_ = true`: workers stop at their next check. */
    method Shutdown()
      modifies this
      ensures killed
      ensures Abs() == old(Abs()) && batches == old(batches) && trace == old(trace)
    {
      killed := true;
    }

    /** One evaluation of sync()'s test `batchDone_.size() ==
        progress_.size()`: true exactly when every launch so far has
        finished, and then nothing is queued or pending. */
    method AllDoneNow() returns (allDone: bool)
      requires Valid()
      ensures allDone == AllDone(Abs())
      ensures allDone <==> forall id :: id in batches ==> id in batchDone
      ensures allDone ==> ready == [] && pending == map[] && dependency == map[]
      ensures allDone ==> forall id :: id in batches ==> 0 < batches[id].total
    {
      allDone := |batchDone| == |progress|;
      SyncMeansAllDone(Abs(), batches, trace);
      if allDone {
        DoneMeansQuiescent(Abs(), batches, trace);
      }
    }

    /** The worker threads, serialised: steps run until the queue is empty.
        Each step either promotes a pending batch or shortens the queue, so
        this terminates. Starting with nothing pending, the queue is run
        front to back and nothing else happens. */
    method Drain()
      requires Valid() && !killed
      modifies this
      ensures Valid() && ready == []
      ensures batches == old(batches) && !killed
      ensures pending.Keys <= old(pending).Keys
      ensures old(pending) == map[] ==>
        pending == map[] && trace == old(trace) + old(ready)
    {
      while ready != []
        invariant Valid() && !killed
        invariant batches == old(batches)
        invariant pending.Keys <= old(pending).Keys
        invariant old(pending) == map[] ==>
          pending == map[] && trace + ready == old(trace) + old(ready)
        decreases |pending|, |ready|
      {
        ghost var s0, trace0 := Abs(), trace;
        var ran, toReady := WorkStep();
        WorkerStepShrinks(s0, toReady);
        if s0.pending == map[] {
          StepWithoutPending(s0, toReady);
          PopAppend(trace0, s0.ready);
        }
      }
    }

    /** run(r, n): a launch with no prerequisites followed by sync(). The
        result says whether sync()'s test passes once the workers have
        emptied the queue. Whatever ran before, the launch is queued at
        once, and by the time the queue is empty its tasks have been
        dequeued with indices 0..n-1 in ascending order: the runTask calls
        of TaskSystemSerial::run. A launch of n <= 0 tasks never passes the
        test, so the C++ sync() waits for good. From a finished state the
        launch's tasks are the only ones run, and sync() returns. */
    method Run(r: Runnable, n: int) returns (synced: bool)
      requires Valid() && !killed
      modifies this
      ensures Valid() && ready == []
      ensures OfBatch(trace, old(nextBatchId)) == BatchTasks(old(nextBatchId), n, r)
      ensures InOrder(Calls(OfBatch(trace, old(nextBatchId))), r, n)
      ensures n <= 0 ==> !synced
      ensures old(AllDone(Abs())) && n > 0 ==>
        && synced
        && trace == old(trace) + BatchTasks(old(nextBatchId), n, r)
        && InOrder(Calls(trace[|old(trace)|..]), r, n)
    {
      ghost var wasDone, id0 := AllDone(Abs()), nextBatchId;
      if wasDone {
        DoneMeansQuiescent(Abs(), batches, trace);
      }
      ghost var trace0 := trace;
      assert id0 !in batches;
      var id := RunAsyncWithDeps(r, n, []);
      assert Outstanding([], old(batchDone)) == {};
      assert id !in pending;
      Drain();
      ProgressAccounting(Abs(), batches, trace, id);
      assert OfBatch(ready, id) == [];
      Serial.BatchCallsMatchSerial(id, n, r);
      synced := AllDoneNow();
      if n <= 0 {
        EmptyBatchBlocksSync(Abs(), batches, trace, id);
      }
      if wasDone && n > 0 {
        assert trace[|trace0|..] == BatchTasks(id0, n, r);
        QuiescentMeansDone(Abs(), batches, trace);
      }
    }
  }
}
