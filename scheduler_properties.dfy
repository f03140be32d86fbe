/** What the dependency bookkeeping of the sleeping thread pool guarantees:
    fresh increasing ids, the pending/dependency maps kept in step, progress
    accounting, checkPending's idempotence, the happens-before edge between
    a prerequisite and its dependants, and what sync()'s predicate means. */
module SchedulerProperties {
  import opened Tasks
  import opened Scheduler

  // ----- Releasing batches -----

  lemma {:induction false} DistinctTail(order: seq<TaskId>)
    requires Distinct(order) && order != []
    ensures Distinct(order[1..]) && order[0] !in order[1..]
  {
    var tail := order[1..];
    forall i, j | 0 <= i < j < |tail| ensures tail[i] != tail[j] {
      assert tail[i] == order[i + 1] && tail[j] == order[j + 1];
    }
    forall k | 0 <= k < |tail| ensures tail[k] != order[0] {
      assert tail[k] == order[k + 1];
    }
  }

  /** Releasing a list of batches enqueues, for each batch of the list that
      is pending, all of its tasks and nothing of any other batch. */
  lemma {:induction false} ReleasedOfBatch(p: map<TaskId, Task>, order: seq<TaskId>, c: TaskId)
    requires Distinct(order)
    requires forall x :: x in p ==> p[x].batchId == x
    ensures OfBatch(Released(p, order), c) == if c in order && c in p then TasksOf(p[c]) else []
  {
    if order != [] {
      var x := order[0];
      var head := if x in p then TasksOf(p[x]) else [];
      assert Released(p, order) == head + Released(p, order[1..]);
      DistinctTail(order);
      ReleasedOfBatch(p, order[1..], c);
      OfBatchAppend(head, Released(p, order[1..]), c);
      if x in p {
        OfBatchSpan(x, p[x].totalTasks, p[x].runnable, 0, Width(p[x].totalTasks), c);
      }
      assert c in order <==> c == x || c in order[1..];
    }
  }

  /** Every released task belongs to a pending batch named in the list. */
  lemma {:induction false} ReleasedIssued(p: map<TaskId, Task>, order: seq<TaskId>)
    requires forall x :: x in p ==> p[x].batchId == x
    ensures forall t :: t in Released(p, order) ==> t.batchId in p && t.batchId in order
  {
    if order != [] {
      var x := order[0];
      var head := if x in p then TasksOf(p[x]) else [];
      ReleasedIssued(p, order[1..]);
      if x in p {
        SpanOwner(x, p[x].totalTasks, p[x].runnable, 0, Width(p[x].totalTasks));
      }
    }
  }

  /** The queue grows one promoted batch at a time, in list order. */
  lemma {:induction false} ReleasedSnoc(p: map<TaskId, Task>, order: seq<TaskId>, x: TaskId)
    ensures Released(p, order + [x]) == Released(p, order) + (if x in p then TasksOf(p[x]) else [])
  {
    if order == [] {
      assert order + [x] == [x];
      assert [x][1..] == [];
    } else {
      assert (order + [x])[0] == order[0];
      assert (order + [x])[1..] == order[1..] + [x];
      ReleasedSnoc(p, order[1..], x);
    }
  }

  // ----- Construction -----

  /** A fresh scheduler satisfies the invariant with no launch made and
      nothing run, and sync() on it returns at once. */
  lemma InitialInv()
    ensures Inv(Initial(), map[], [])
    ensures DepsNotDone(Initial())
    ensures AllDone(Initial())
  {
  }

  // ----- runAsyncWithDeps -----

  /** The id handed out has never been issued: it is larger than every id
      before it, no map or set mentions it yet, and the counter moves past
      it. Successive submissions therefore get distinct, strictly
      increasing ids, and progress_ gains exactly the new id, at 0. */
  lemma SubmitIssuesFreshId(s: State, batches: map<TaskId, Batch>, trace: seq<Task>,
                            r: Runnable, n: int, deps: seq<TaskId>)
    requires Inv(s, batches, trace)
    ensures var id, s' := s.nextBatchId, Submit(s, r, n, deps);
      && 0 <= id
      && (forall x :: x in s.progress ==> x < id)
      && id !in s.progress && id !in s.pending && id !in s.dependency && id !in s.batchDone
      && s'.nextBatchId == id + 1
      && s'.progress == s.progress[id := 0]
      && s'.progress.Keys == s.progress.Keys + {id}
  {
    var id := s.nextBatchId;
    assert id !in batches;
  }

  /** A launch whose listed prerequisites are all done is released at once:
      its n tasks, indices 0..n-1, go to the back of the queue. Otherwise
      the queue is left alone and the batch is parked under its new id with
      taskNo -1, its dependency set holding exactly the listed ids that are
      not done, never-issued ids included. Nothing else changes. */
  lemma SubmitEnqueuesOrParks(s: State, batches: map<TaskId, Batch>, trace: seq<Task>,
                              r: Runnable, n: int, deps: seq<TaskId>)
    requires Inv(s, batches, trace)
    ensures var id, s' := s.nextBatchId, Submit(s, r, n, deps);
      && s'.batchDone == s.batchDone
      && ((forall x :: x in deps ==> x in s.batchDone) ==>
            && s'.ready == s.ready + BatchTasks(id, n, r)
            && s'.pending == s.pending
            && s'.dependency == s.dependency)
      && (!(forall x :: x in deps ==> x in s.batchDone) ==>
            && s'.ready == s.ready
            && s'.pending == s.pending[id := Task(id, n, r, -1)]
            && id in s'.dependency
            && s'.dependency == s.dependency[id := s'.dependency[id]]
            && s'.dependency[id] != {}
            && (forall x :: x in s'.dependency[id] <==> x in deps && x !in s.batchDone))
  {
    var id := s.nextBatchId;
    var out := Outstanding(deps, s.batchDone);
    assert id !in batches;
    if !(forall x :: x in deps ==> x in s.batchDone) {
      var x :| x in deps && x !in s.batchDone;
      assert x in out;
    }
  }

  /** tmpDep is empty exactly when every listed prerequisite is done. */
  lemma OutstandingEmpty(deps: seq<TaskId>, done: set<TaskId>)
    ensures Outstanding(deps, done) == {} <==> forall x :: x in deps ==> x in done
  {
    var out := Outstanding(deps, done);
    forall x | x in deps ensures x in done || x in out {
    }
    forall x | x in out ensures x in deps && x !in done {
    }
    if forall x :: x in deps ==> x in done {
      assert forall y :: y !in out;
    }
  }

  lemma FirstIn(order: seq<TaskId>)
    requires order != []
    ensures order[0] in order
  {
  }

  /** An order that lists the empty set is empty. */
  lemma ListsNone(order: seq<TaskId>)
    requires Lists(order, {})
    ensures order == []
  {
    if order != [] {
      FirstIn(order);
    }
  }

  /** runAsyncWithDeps as seen by one batch c: the new batch starts out
      pending or released with nothing run, and every other batch keeps its
      standing. */
  lemma SubmitKeepsBatch(s: State, batches: map<TaskId, Batch>, trace: seq<Task>,
                         r: Runnable, n: int, deps: seq<TaskId>, c: TaskId)
    requires Issued(s, batches, trace) && Graph(s)
    requires c == s.nextBatchId || BatchOk(s, batches, trace, c)
    ensures BatchOk(Submit(s, r, n, deps),
                    batches[s.nextBatchId := Batch(n, r, set x | x in deps)], trace, c)
  {
    var id := s.nextBatchId;
    var out := Outstanding(deps, s.batchDone);
    var added := BatchTasks(id, n, r);
    OutstandingEmpty(deps, s.batchDone);
    if out == {} {
      OfBatchAppend(s.ready, added, c);
      OfBatchSpan(id, n, r, 0, Width(n), c);
    }
    if c == id {
      assert id !in batches;
      forall x | x in deps ensures x in s.batchDone || x in out {
      }
      forall t | t in trace ensures t.batchId != id {
      }
      OfBatchNone(trace, id);
      forall t | t in s.ready ensures t.batchId != id {
      }
      OfBatchNone(s.ready, id);
    }
  }

  /** runAsyncWithDeps keeps the invariant, the new batch recorded with its
      size, runnable and listed prerequisites. */
  lemma SubmitKeepsInv(s: State, batches: map<TaskId, Batch>, trace: seq<Task>,
                       r: Runnable, n: int, deps: seq<TaskId>)
    requires Inv(s, batches, trace)
    ensures Inv(Submit(s, r, n, deps),
                batches[s.nextBatchId := Batch(n, r, set x | x in deps)], trace)
  {
    var id := s.nextBatchId;
    var s' := Submit(s, r, n, deps);
    var batches' := batches[id := Batch(n, r, set x | x in deps)];
    var added := BatchTasks(id, n, r);
    assert id !in batches;
    SpanOwner(id, n, r, 0, Width(n));
    assert Issued(s', batches', trace);
    assert Graph(s');
    forall c | c in batches' ensures BatchOk(s', batches', trace, c) {
      SubmitKeepsBatch(s, batches, trace, r, n, deps, c);
    }
  }

  // ----- checkPending -----

  /** checkPending(d) marks d done, erases d from every dependency set and
      drops each batch whose set became empty from both maps. Afterwards
      the two maps still have the same keys, no set is empty or mentions d,
      and the counters and the id counter are untouched. */
  lemma CheckPendingEffect(s: State, d: TaskId, order: seq<TaskId>)
    requires s.pending.Keys == s.dependency.Keys
    requires Lists(order, Promoted(s.dependency, d))
    ensures var s' := CheckPending(s, d, order);
      && s'.batchDone == s.batchDone + {d}
      && s'.pending.Keys == s'.dependency.Keys
      && (forall c :: c in s'.dependency ==> s'.dependency[c] != {} && d !in s'.dependency[c])
      && (forall c :: c in s.dependency ==>
            (c in s'.dependency <==> !(s.dependency[c] <= {d})))
      && (forall c :: c in s'.dependency ==> s'.dependency[c] == s.dependency[c] - {d})
      && s'.ready[..|s.ready|] == s.ready
      && s'.progress == s.progress
      && s'.nextBatchId == s.nextBatchId
  {
    var s' := CheckPending(s, d, order);
    forall c | c in s.dependency
      ensures c in s'.dependency <==> !(s.dependency[c] <= {d})
    {
      assert s.dependency[c] <= {d} <==> s.dependency[c] - {d} == {};
    }
  }

  /** An outstanding prerequisite x of batch c survives checkPending of any
      other id: only the completion of x itself can clear it. */
  lemma CheckPendingKeepsOthers(s: State, d: TaskId, order: seq<TaskId>, c: TaskId, x: TaskId)
    requires c in s.dependency && x in s.dependency[c] && x != d
    ensures var s' := CheckPending(s, d, order);
      c in s'.dependency && x in s'.dependency[c]
  {
    assert x in s.dependency[c] - {d};
  }

  /** checkPending(d) enqueues, for every batch it promotes that was
      pending, the tasks 0..totalTasks-1 of that batch's record, and adds no
      task of any other batch. */
  lemma CheckPendingEnqueuesPromoted(s: State, d: TaskId, order: seq<TaskId>, c: TaskId)
    requires Lists(order, Promoted(s.dependency, d))
    requires forall x :: x in s.pending ==> s.pending[x].batchId == x
    ensures var s' := CheckPending(s, d, order);
      OfBatch(s'.ready, c) ==
        OfBatch(s.ready, c)
        + (if c in s.pending && c in s.dependency && s.dependency[c] <= {d}
           then TasksOf(s.pending[c]) else [])
  {
    ReleasedOfBatch(s.pending, order, c);
    OfBatchAppend(s.ready, Released(s.pending, order), c);
    if c in s.dependency {
      assert s.dependency[c] <= {d} <==> s.dependency[c] - {d} == {};
    }
  }

  /** Calling checkPending(d) again straight after the first call changes
      nothing, in any state at all: after the first call no dependency set
      mentions d or is empty, so nothing is promoted. LateCheckPendingIsNoop
      covers a second call made after other steps. */
  lemma CheckPendingIdempotent(s: State, d: TaskId, o1: seq<TaskId>, o2: seq<TaskId>)
    requires Lists(o1, Promoted(s.dependency, d))
    requires Lists(o2, Promoted(CheckPending(s, d, o1).dependency, d))
    ensures CheckPending(CheckPending(s, d, o1), d, o2) == CheckPending(s, d, o1)
  {
    var s1 := CheckPending(s, d, o1);
    var s2 := CheckPending(s1, d, o2);
    forall c | c in s1.dependency ensures s1.dependency[c] - {d} == s1.dependency[c] != {} {
      assert s1.dependency[c] == s.dependency[c] - {d};
    }
    assert Promoted(s1.dependency, d) == {};
    ListsNone(o2);
    assert Released(s1.pending, o2) == [];
    assert s2.ready == s1.ready;
    assert Stripped(s1.dependency, d) == s1.dependency;
    assert s2.dependency == s1.dependency;
    assert s2.pending == s1.pending;
    assert s2.batchDone == s1.batchDone;
  }

  /** checkPending as seen by one batch c: a promoted batch becomes
      released with all its tasks queued and none run; every other batch
      keeps its standing. */
  lemma CheckPendingKeepsBatch(s: State, batches: map<TaskId, Batch>, trace: seq<Task>,
                               d: TaskId, order: seq<TaskId>, c: TaskId)
    requires d in s.batchDone
    requires Lists(order, Promoted(s.dependency, d))
    requires forall x :: x in s.pending ==> s.pending[x].batchId == x
    requires BatchOk(s, batches, trace, c)
    ensures BatchOk(CheckPending(s, d, order), batches, trace, c)
  {
    var s' := CheckPending(s, d, order);
    ReleasedOfBatch(s.pending, order, c);
    OfBatchAppend(s.ready, Released(s.pending, order), c);
    assert s'.batchDone == s.batchDone;
    if c in s.pending && c in Promoted(s.dependency, d) {
      assert s.dependency[c] <= {d} by {
        assert s.dependency[c] - {d} == {};
      }
      assert c != d;
    } else if c in s.pending {
      assert c !in order;
      assert s'.dependency[c] == s.dependency[c] - {d};
    }
  }

  lemma CheckPendingIssued(s: State, batches: map<TaskId, Batch>, trace: seq<Task>,
                           d: TaskId, order: seq<TaskId>)
    requires Issued(s, batches, trace)
    requires d in batches
    requires forall x :: x in s.pending ==> s.pending[x].batchId == x
    ensures Issued(CheckPending(s, d, order), batches, trace)
  {
    var s' := CheckPending(s, d, order);
    ReleasedIssued(s.pending, order);
    forall t | t in s'.ready ensures t.batchId in batches {
      if t !in s.ready {
        assert t in Released(s.pending, order);
      }
    }
    assert s'.pending.Keys <= s.pending.Keys;
  }

  lemma CheckPendingGraph(s: State, d: TaskId, order: seq<TaskId>)
    requires Graph(s)
    ensures Graph(CheckPending(s, d, order))
  {
    var gone := Promoted(s.dependency, d);
    var s' := CheckPending(s, d, order);
    forall id | id in s'.dependency ensures id in s'.pending && s'.dependency[id] != {} {
      assert id in s.dependency && id !in gone;
      assert s'.dependency[id] == s.dependency[id] - {d};
    }
    forall id | id in s'.pending ensures id in s'.dependency {
      assert id in s.dependency && id !in gone;
    }
  }

  /** checkPending for a batch already recorded as done keeps the invariant:
      promoted batches become released with all their tasks queued. */
  lemma CheckPendingKeepsInv(s: State, batches: map<TaskId, Batch>, trace: seq<Task>,
                             d: TaskId, order: seq<TaskId>)
    requires Inv(s, batches, trace)
    requires d in s.batchDone
    requires Lists(order, Promoted(s.dependency, d))
    ensures Inv(CheckPending(s, d, order), batches, trace)
  {
    var s' := CheckPending(s, d, order);
    forall x | x in s.pending ensures s.pending[x].batchId == x {
      assert BatchOk(s, batches, trace, x);
    }
    CheckPendingIssued(s, batches, trace, d, order);
    CheckPendingGraph(s, d, order);
    forall c | c in batches ensures BatchOk(s', batches, trace, c) {
      CheckPendingKeepsBatch(s, batches, trace, d, order, c);
    }
  }

  // ----- A late second checkPending -----

  /** A launch records as outstanding only prerequisites that are not done,
      and marks nothing done. */
  lemma SubmitKeepsDepsNotDone(s: State, r: Runnable, n: int, deps: seq<TaskId>)
    requires DepsNotDone(s)
    ensures DepsNotDone(Submit(s, r, n, deps))
  {
    var id := s.nextBatchId;
    var s' := Submit(s, r, n, deps);
    forall c, x | c in s'.dependency && x in s'.dependency[c] ensures x !in s'.batchDone {
      if c !in s.dependency {
        assert s'.dependency[c] == Outstanding(deps, s.batchDone);
      }
    }
  }

  /** checkPending(d) marks only d done, and erases d from every set. */
  lemma CheckPendingKeepsDepsNotDone(s: State, d: TaskId, order: seq<TaskId>)
    requires DepsNotDone(s)
    ensures DepsNotDone(CheckPending(s, d, order))
  {
    var s' := CheckPending(s, d, order);
    forall c, x | c in s'.dependency && x in s'.dependency[c] ensures x !in s'.batchDone {
      assert s'.dependency[c] == s.dependency[c] - {d};
    }
  }

  /** A worker step, whether or not it finishes a batch, keeps every
      outstanding prerequisite not done. */
  lemma WorkerStepKeepsDepsNotDone(s: State, order: seq<TaskId>)
    requires s.ready != [] && DepsNotDone(s)
    ensures DepsNotDone(WorkerStep(s, order))
  {
    if Finishes(s) {
      CheckPendingKeepsDepsNotDone(Popped(s), s.ready[0].batchId, order);
    }
  }

  /** checkPending(d) for a batch d that is already done changes nothing,
      whatever ran since d was marked done. This is the second call that
      a worker re-reading the counter outside the lock can make: no
      dependency set mentions d or is empty, so nothing is promoted. */
  lemma LateCheckPendingIsNoop(s: State, d: TaskId, order: seq<TaskId>)
    requires Graph(s) && DepsNotDone(s)
    requires d in s.batchDone
    requires Lists(order, Promoted(s.dependency, d))
    ensures CheckPending(s, d, order) == s
  {
    var s' := CheckPending(s, d, order);
    forall c | c in s.dependency ensures s.dependency[c] - {d} == s.dependency[c] != {} {
    }
    assert Promoted(s.dependency, d) == {};
    ListsNone(order);
    assert s.ready + Released(s.pending, order) == s.ready;
    assert Stripped(s.dependency, d) == s.dependency;
    assert s.pending - {} == s.pending;
    assert s.batchDone + {d} == s.batchDone;
  }

  // ----- The worker step -----

  /** The front of the queue is the next unrun index of a released batch
      that is not yet done, and the step that runs it detects the batch's
      completion exactly when it is the batch's last index. So each batch
      enters batchDone_ once, and only after all of its tasks ran. */
  lemma FrontTask(s: State, batches: map<TaskId, Batch>, trace: seq<Task>)
    requires s.ready != []
    requires BatchOk(s, batches, trace, s.ready[0].batchId)
    ensures var t := s.ready[0]; var c := t.batchId;
      && c in batches && c in s.progress && c !in s.pending && c !in s.batchDone
      && t == Task(c, batches[c].total, batches[c].runnable, s.progress[c])
      && 0 <= s.progress[c] < batches[c].total
      && OfBatch(s.ready[1..], c)
           == Span(c, batches[c].total, batches[c].runnable, s.progress[c] + 1, batches[c].total)
      && (Finishes(s) <==> s.progress[c] + 1 == batches[c].total)
  {
    var t := s.ready[0];
    var c := t.batchId;
    var b, p := batches[c], s.progress[c];
    assert OfBatch(s.ready, c) == [t] + OfBatch(s.ready[1..], c);
    var rest := Span(c, b.total, b.runnable, p + 1, Width(b.total));
    SpanHead(c, b.total, b.runnable, p, Width(b.total));
    assert ([t] + OfBatch(s.ready[1..], c))[0] == t;
    assert ([Task(c, b.total, b.runnable, p)] + rest)[1..] == rest;
  }

  /** A worker step up to checkPending, as seen by one batch c: the popped
      task is the next index of its batch and joins the run prefix; every
      other batch keeps its standing. */
  lemma PopKeepsBatch(s: State, batches: map<TaskId, Batch>, trace: seq<Task>, c: TaskId)
    requires s.ready != []
    requires BatchOk(s, batches, trace, s.ready[0].batchId)
    requires BatchOk(s, batches, trace, c)
    ensures var t := s.ready[0]; var s1 := Popped(s);
      BatchOk(if Finishes(s) then s1.(batchDone := s1.batchDone + {t.batchId}) else s1,
              batches, trace + [t], c)
  {
    var t := s.ready[0];
    var c0 := t.batchId;
    FrontTask(s, batches, trace);
    var b0, p0 := batches[c0], s.progress[c0];
    OfBatchAppend(trace, [t], c);
    assert OfBatch([t], c) == (if c0 == c then [t] else []) + OfBatch([], c);
    if c == c0 {
      assert Span(c0, b0.total, b0.runnable, 0, p0 + 1)
          == Span(c0, b0.total, b0.runnable, 0, p0) + [t];
    } else {
      assert OfBatch(s.ready, c) == OfBatch(s.ready[1..], c);
    }
  }

  /** Popping the front, recording it as run and bumping its counter keeps
      the invariant once the batch is marked done when the step finishes it. */
  lemma PopKeepsInv(s: State, batches: map<TaskId, Batch>, trace: seq<Task>)
    requires Inv(s, batches, trace)
    requires s.ready != []
    ensures var t := s.ready[0]; var s1 := Popped(s);
      Inv(if Finishes(s) then s1.(batchDone := s1.batchDone + {t.batchId}) else s1,
          batches, trace + [t])
  {
    var t := s.ready[0];
    var c0 := t.batchId;
    var s1 := Popped(s);
    var s2 := if Finishes(s) then s1.(batchDone := s1.batchDone + {c0}) else s1;
    var trace' := trace + [t];
    assert t in s.ready;
    assert BatchOk(s, batches, trace, c0);
    assert Issued(s2, batches, trace') by {
      forall u | u in s2.ready ensures u.batchId in batches {
        assert u in s.ready;
      }
    }
    assert Graph(s2);
    forall c | c in batches ensures BatchOk(s2, batches, trace', c) {
      PopKeepsBatch(s, batches, trace, c);
    }
  }

  /** One worker step keeps the invariant; the task it ran is appended to
      the trace. */
  lemma WorkerStepKeepsInv(s: State, batches: map<TaskId, Batch>, trace: seq<Task>, order: seq<TaskId>)
    requires Inv(s, batches, trace)
    requires s.ready != []
    requires Lists(order, StepPromotes(s))
    ensures Inv(WorkerStep(s, order), batches, trace + [s.ready[0]])
  {
    var c0 := s.ready[0].batchId;
    PopKeepsInv(s, batches, trace);
    if Finishes(s) {
      var s2 := Popped(s).(batchDone := Popped(s).batchDone + {c0});
      CheckPendingKeepsInv(s2, batches, trace + [s.ready[0]], c0, order);
      assert CheckPending(s2, c0, order) == CheckPending(Popped(s), c0, order);
    }
  }

  /** For a released batch, the tasks run plus the tasks still queued make
      up the whole batch, so its counter never exceeds its size; a pending
      batch has run and queued nothing. */
  lemma ProgressAccounting(s: State, batches: map<TaskId, Batch>, trace: seq<Task>, id: TaskId)
    requires Inv(s, batches, trace)
    requires id in batches
    ensures id in s.progress
    ensures id in s.pending ==>
      s.progress[id] == 0 && OfBatch(s.ready, id) == [] && OfBatch(trace, id) == []
    ensures id !in s.pending ==>
      && 0 <= s.progress[id] <= Width(batches[id].total)
      && s.progress[id] + |OfBatch(s.ready, id)| == Width(batches[id].total)
      && OfBatch(trace, id) + OfBatch(s.ready, id)
           == BatchTasks(id, batches[id].total, batches[id].runnable)
  {
    assert BatchOk(s, batches, trace, id);
    if id !in s.pending {
      var b := batches[id];
      SpanSplit(id, b.total, b.runnable, 0, s.progress[id], Width(b.total));
    }
  }

  /** A batch in batchDone_ has had every one of its tasks run, each index
      exactly once and in ascending order, and has nothing left queued. */
  lemma DoneBatchRanAll(s: State, batches: map<TaskId, Batch>, trace: seq<Task>, id: TaskId)
    requires Inv(s, batches, trace)
    requires id in s.batchDone
    ensures id in batches && 0 < batches[id].total
    ensures s.progress[id] == batches[id].total
    ensures OfBatch(trace, id) == BatchTasks(id, batches[id].total, batches[id].runnable)
    ensures OfBatch(s.ready, id) == []
  {
    assert BatchOk(s, batches, trace, id);
  }

  /** Before a worker runs a task of batch c, every prerequisite listed for
      c is done and all of its tasks have already run. */
  lemma HappensBefore(s: State, batches: map<TaskId, Batch>, trace: seq<Task>, x: TaskId)
    requires Inv(s, batches, trace)
    requires s.ready != []
    requires s.ready[0].batchId in batches && x in batches[s.ready[0].batchId].deps
    ensures x in s.batchDone && x in batches
    ensures OfBatch(trace, x) == BatchTasks(x, batches[x].total, batches[x].runnable)
  {
    FrontTask(s, batches, trace);
    assert BatchOk(s, batches, trace, s.ready[0].batchId);
    DoneBatchRanAll(s, batches, trace, x);
  }

  /** An outstanding prerequisite x of a pending batch c survives a worker
      step unless that step completes batch x itself. */
  lemma WorkerStepKeepsOthers(s: State, order: seq<TaskId>, c: TaskId, x: TaskId)
    requires s.ready != []
    requires c in s.dependency && x in s.dependency[c]
    requires !(Finishes(s) && s.ready[0].batchId == x)
    ensures c in WorkerStep(s, order).dependency && x in WorkerStep(s, order).dependency[c]
  {
    if Finishes(s) {
      CheckPendingKeepsOthers(Popped(s), s.ready[0].batchId, order, c, x);
    }
  }

  /** Each worker step either promotes at least one pending batch or leaves
      the pending map alone and shortens the queue. */
  lemma WorkerStepShrinks(s: State, order: seq<TaskId>)
    requires s.pending.Keys == s.dependency.Keys
    requires s.ready != []
    requires Lists(order, StepPromotes(s))
    ensures var s' := WorkerStep(s, order);
      |s'.pending| < |s.pending| || (s'.pending == s.pending && |s'.ready| < |s.ready|)
  {
    if Finishes(s) {
      CheckPendingShrinks(Popped(s), s.ready[0].batchId, order);
    }
  }

  /** checkPending either drops at least one batch from pending_ or leaves
      pending_ and the queue as they were. */
  lemma CheckPendingShrinks(s: State, d: TaskId, order: seq<TaskId>)
    requires s.pending.Keys == s.dependency.Keys
    requires Lists(order, Promoted(s.dependency, d))
    ensures var s' := CheckPending(s, d, order);
      |s'.pending| < |s.pending| || (s'.pending == s.pending && s'.ready == s.ready)
  {
    var gone := Promoted(s.dependency, d);
    if order == [] {
      assert forall x :: x !in gone;
      assert gone == {};
      NothingPromoted(s, d);
    } else {
      FirstIn(order);
      RemovalShrinks(s.pending, gone, order[0]);
    }
  }

  /** checkPending that promotes nothing leaves pending_ and the queue alone. */
  lemma NothingPromoted(s: State, d: TaskId)
    requires Promoted(s.dependency, d) == {}
    ensures CheckPending(s, d, []).pending == s.pending
    ensures CheckPending(s, d, []).ready == s.ready
  {
    assert s.pending - {} == s.pending;
    assert s.ready + [] == s.ready;
  }

  /** Removing a set of keys that holds a key of the map shrinks the map. */
  lemma RemovalShrinks(m: map<TaskId, Task>, gone: set<TaskId>, x: TaskId)
    requires x in m && x in gone
    ensures |m - gone| < |m|
  {
    var left := m.Keys - {x};
    assert (m - gone).Keys <= left;
    SubsetCard((m - gone).Keys, left);
    assert |left| == |m.Keys| - 1;
  }

  lemma SubsetCard(a: set<TaskId>, b: set<TaskId>)
    requires a <= b
    ensures |a| <= |b|
  {
    assert b == a + (b - a);
  }

  /** With nothing pending, a worker step only pops the front of the queue. */
  lemma StepWithoutPending(s: State, order: seq<TaskId>)
    requires s.pending.Keys == s.dependency.Keys
    requires s.ready != [] && s.pending == map[]
    requires Lists(order, StepPromotes(s))
    ensures WorkerStep(s, order).pending == map[]
    ensures WorkerStep(s, order).ready == s.ready[1..]
  {
    assert s.dependency.Keys == {};
    assert StepPromotes(s) == {};
    ListsNone(order);
    assert s.ready[1..] + [] == s.ready[1..];
  }

  // ----- sync -----

  /** sync()'s size comparison holds exactly when every issued batch is in
      batchDone_, because batchDone_ only holds issued ids. */
  lemma SyncMeansAllDone(s: State, batches: map<TaskId, Batch>, trace: seq<Task>)
    requires Inv(s, batches, trace)
    ensures AllDone(s) <==> forall id :: id in batches ==> id in s.batchDone
  {
    var keys := s.progress.Keys;
    assert |s.progress| == |keys|;
    assert keys == s.batchDone + (keys - s.batchDone);
    assert |keys| == |s.batchDone| + |keys - s.batchDone|;
    if AllDone(s) {
      assert keys - s.batchDone == {};
      assert keys <= s.batchDone;
    }
    if forall id :: id in batches ==> id in s.batchDone {
      assert keys - s.batchDone == {};
    }
  }

  /** A batch launched with n <= 0 enqueues nothing, is never marked done,
      and so keeps sync() from returning for good. */
  lemma EmptyBatchBlocksSync(s: State, batches: map<TaskId, Batch>, trace: seq<Task>, id: TaskId)
    requires Inv(s, batches, trace)
    requires id in batches && batches[id].total <= 0
    ensures id !in s.batchDone
    ensures !AllDone(s)
  {
    assert BatchOk(s, batches, trace, id);
    SyncMeansAllDone(s, batches, trace);
  }

  /** When sync() would return, nothing is queued, pending or waiting on a
      prerequisite, and every batch launched so far had at least one task. */
  lemma DoneMeansQuiescent(s: State, batches: map<TaskId, Batch>, trace: seq<Task>)
    requires Inv(s, batches, trace)
    requires AllDone(s)
    ensures s.ready == [] && s.pending == map[] && s.dependency == map[]
    ensures forall id :: id in batches ==> 0 < batches[id].total
  {
    forall id | id in s.pending ensures id in batches.Keys - s.batchDone {
      assert BatchOk(s, batches, trace, id);
    }
    if s.ready != [] {
      assert s.ready[0] in s.ready;
      FrontTask(s, batches, trace);
    }
    SyncMeansAllDone(s, batches, trace);
    assert AllDone(s);
    assert forall id :: id in batches ==> id in s.batchDone;
    assert batches.Keys <= s.batchDone;
    assert s.pending.Keys == {};
    assert s.dependency.Keys == {};
    forall id | id in batches ensures 0 < batches[id].total {
      DoneBatchRanAll(s, batches, trace, id);
    }
  }

  /** Once the queue is empty and nothing is pending, sync() returns, as
      long as every batch launched had at least one task. */
  lemma QuiescentMeansDone(s: State, batches: map<TaskId, Batch>, trace: seq<Task>)
    requires Inv(s, batches, trace)
    requires s.ready == [] && s.pending == map[]
    requires forall id :: id in batches ==> 0 < batches[id].total
    ensures AllDone(s)
  {
    forall id | id in batches ensures id in s.batchDone {
      assert BatchOk(s, batches, trace, id);
      assert OfBatch(s.ready, id) == [];
    }
    SyncMeansAllDone(s, batches, trace);
  }
}
