/** Task records shared by every task system: the `Task` struct of the
    thread pool, the runTask calls a runnable receives, and the run of
    task indices that one bulk launch produces. */
module Tasks {

  /** `TaskID` is a C++ `int` handed out by the scheduler. */
  type TaskId = int

  /** The address of the caller's IRunnable object. The scheduler never
      looks inside it; it only passes it back to runTask. */
  type Runnable = nat

  /** One unit of work: task `taskNo` of the batch `batchId`, which has
      `totalTasks` tasks driven by `runnable`. A batch parked as pending is
      stored with taskNo -1. */
  datatype Task = Task(batchId: TaskId, totalTasks: int, runnable: Runnable, taskNo: int)

  /** One call runnable->runTask(taskNo, totalTasks). */
  datatype Invocation = Invocation(runnable: Runnable, taskNo: int, totalTasks: int)

  /** How many times `for (int i = 0; i < n; ++i)` runs its body. */
  function Width(n: int): (w: nat)
    ensures n <= 0 ==> w == 0
    ensures n > 0 ==> w == n
  {
    if n > 0 then n else 0
  }

  /** The tasks with indices lo, lo+1, ..., hi-1 of batch `id`, in that order. */
  function Span(id: TaskId, n: int, r: Runnable, lo: int, hi: int): (ts: seq<Task>)
    decreases hi - lo
    ensures |ts| == if lo <= hi then hi - lo else 0
  {
    if hi <= lo then [] else Span(id, n, r, lo, hi - 1) + [Task(id, n, r, hi - 1)]
  }

  /** Position i of a run of indices holds index lo + i. */
  lemma {:induction false} SpanAt(id: TaskId, n: int, r: Runnable, lo: int, hi: int, i: int)
    requires 0 <= i < hi - lo
    ensures Span(id, n, r, lo, hi)[i] == Task(id, n, r, lo + i)
    decreases hi - lo
  {
    if i < hi - 1 - lo {
      SpanAt(id, n, r, lo, hi - 1, i);
    }
  }

  /** Every task of a run of indices of batch `id` belongs to `id`. */
  lemma SpanOwner(id: TaskId, n: int, r: Runnable, lo: int, hi: int)
    ensures forall t :: t in Span(id, n, r, lo, hi) ==> t.batchId == id
  {
    var ts := Span(id, n, r, lo, hi);
    forall t | t in ts ensures t.batchId == id {
      var i :| 0 <= i < |ts| && ts[i] == t;
      SpanAt(id, n, r, lo, hi, i);
    }
  }

  /** Every task of a batch of `n` tasks, indices 0..n-1 in ascending order. */
  function BatchTasks(id: TaskId, n: int, r: Runnable): seq<Task>
  {
    Span(id, n, r, 0, Width(n))
  }

  /** The tasks that releasing the record `t` enqueues. */
  function TasksOf(t: Task): seq<Task>
  {
    BatchTasks(t.batchId, t.totalTasks, t.runnable)
  }

  /** The subsequence of `q` that belongs to batch `id`, in queue order. */
  function OfBatch(q: seq<Task>, id: TaskId): (r: seq<Task>)
    ensures |r| <= |q|
  {
    if q == [] then []
    else (if q[0].batchId == id then [q[0]] else []) + OfBatch(q[1..], id)
  }

  /** The runTask calls that running the tasks `ts` in order makes. */
  function Calls(ts: seq<Task>): (cs: seq<Invocation>)
    ensures |cs| == |ts|
    ensures forall i :: 0 <= i < |ts| ==>
      cs[i] == Invocation(ts[i].runnable, ts[i].taskNo, ts[i].totalTasks)
  {
    if ts == [] then []
    else [Invocation(ts[0].runnable, ts[0].taskNo, ts[0].totalTasks)] + Calls(ts[1..])
  }

  /** `calls` is runTask(0, n), runTask(1, n), ..., runTask(n-1, n) on `r`:
      each index exactly once, ascending, and nothing when n <= 0. */
  predicate InOrder(calls: seq<Invocation>, r: Runnable, n: int)
  {
    |calls| == Width(n) && forall i :: 0 <= i < |calls| ==> calls[i] == Invocation(r, i, n)
  }

  /** Splitting a run of indices at any point between its ends. */
  lemma SpanSplit(id: TaskId, n: int, r: Runnable, lo: int, mid: int, hi: int)
    requires lo <= mid <= hi
    ensures Span(id, n, r, lo, hi) == Span(id, n, r, lo, mid) + Span(id, n, r, mid, hi)
  {
    var whole, left, right := Span(id, n, r, lo, hi), Span(id, n, r, lo, mid), Span(id, n, r, mid, hi);
    assert |whole| == |left + right|;
    forall i | 0 <= i < |whole| ensures whole[i] == (left + right)[i] {
      SpanAt(id, n, r, lo, hi, i);
      if i >= |left| {
        SpanAt(id, n, r, mid, hi, i - |left|);
        assert (left + right)[i] == right[i - |left|];
      } else {
        SpanAt(id, n, r, lo, mid, i);
      }
    }
  }

  /** Popping the front of a run of indices yields index `lo` and the run
      that starts one later. */
  lemma SpanHead(id: TaskId, n: int, r: Runnable, lo: int, hi: int)
    requires lo < hi
    ensures Span(id, n, r, lo, hi) == [Task(id, n, r, lo)] + Span(id, n, r, lo + 1, hi)
  {
    SpanSplit(id, n, r, lo, lo + 1, hi);
    assert Span(id, n, r, lo, lo + 1) == [Task(id, n, r, lo)];
  }

  /** Filtering distributes over concatenation: the queue order of one
      batch's tasks is kept when tasks are appended at the back. */
  lemma {:induction false} OfBatchAppend(a: seq<Task>, b: seq<Task>, id: TaskId)
    ensures OfBatch(a + b, id) == OfBatch(a, id) + OfBatch(b, id)
  {
    if a == [] {
      assert a + b == b;
    } else {
      var ab := a + b;
      var head := if a[0].batchId == id then [a[0]] else [];
      assert ab[0] == a[0];
      assert ab[1..] == a[1..] + b;
      assert OfBatch(ab, id) == head + OfBatch(a[1..] + b, id);
      OfBatchAppend(a[1..], b, id);
      assert OfBatch(a, id) == head + OfBatch(a[1..], id);
    }
  }

  /** A queue holding no task of batch `id` contributes nothing to it. */
  lemma {:induction false} OfBatchNone(q: seq<Task>, id: TaskId)
    requires forall t :: t in q ==> t.batchId != id
    ensures OfBatch(q, id) == []
  {
    if q != [] {
      assert q[0] in q;
      forall t | t in q[1..] ensures t.batchId != id {
        assert t in q;
      }
      OfBatchNone(q[1..], id);
    }
  }

  /** A queue holding only tasks of batch `id` is its own filter. */
  lemma {:induction false} OfBatchAll(q: seq<Task>, id: TaskId)
    requires forall t :: t in q ==> t.batchId == id
    ensures OfBatch(q, id) == q
  {
    if q != [] {
      assert q[0] in q;
      forall t | t in q[1..] ensures t.batchId == id {
        assert t in q;
      }
      OfBatchAll(q[1..], id);
      assert q == [q[0]] + q[1..];
    }
  }

  /** A run of indices of batch `id` belongs to `id` and to no other batch. */
  lemma OfBatchSpan(id: TaskId, n: int, r: Runnable, lo: int, hi: int, c: TaskId)
    ensures OfBatch(Span(id, n, r, lo, hi), c) == if c == id then Span(id, n, r, lo, hi) else []
  {
    var ts := Span(id, n, r, lo, hi);
    SpanOwner(id, n, r, lo, hi);
    if c == id {
      OfBatchAll(ts, c);
    } else {
      OfBatchNone(ts, c);
    }
  }
}
