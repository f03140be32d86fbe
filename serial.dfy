/** TaskSystemSerial: every launch runs on the calling thread, one task
    index after another. The runTask calls it makes are returned as the
    sequence `calls`, in the order they happen. */
module Serial {
  import opened Tasks

  /** run(runnable, n): runTask(i, n) for i = 0, 1, ..., n-1. */
  method Run(r: Runnable, n: int) returns (calls: seq<Invocation>)
    ensures InOrder(calls, r, n)
  {
    calls := [];
    var i := 0;
    while i < n
      invariant 0 <= i <= Width(n)
      invariant |calls| == i
      invariant forall k :: 0 <= k < i ==> calls[k] == Invocation(r, k, n)
    {
      calls := calls + [Invocation(r, i, n)];
      i := i + 1;
    }
  }

  /** runAsyncWithDeps(runnable, n, deps): the same loop as Run, the
      dependencies ignored (every earlier launch has already finished), and
      the id 0 returned for every launch. */
  method RunAsyncWithDeps(r: Runnable, n: int, deps: seq<TaskId>) returns (id: TaskId, calls: seq<Invocation>)
    ensures id == 0
    ensures InOrder(calls, r, n)
  {
    calls := [];
    var i := 0;
    while i < n
      invariant 0 <= i <= Width(n)
      invariant |calls| == i
      invariant forall k :: 0 <= k < i ==> calls[k] == Invocation(r, k, n)
    {
      calls := calls + [Invocation(r, i, n)];
      i := i + 1;
    }
    id := 0;
  }

  /** Releasing a batch of the thread pool hands its workers exactly the
      runTask calls the serial system makes for the same launch. */
  lemma {:induction false} BatchCallsMatchSerial(id: TaskId, n: int, r: Runnable)
    ensures InOrder(Calls(BatchTasks(id, n, r)), r, n)
  {
    var ts := BatchTasks(id, n, r);
    var cs := Calls(ts);
    forall i | 0 <= i < |cs| ensures cs[i] == Invocation(r, i, n) {
      SpanAt(id, n, r, 0, Width(n), i);
    }
  }
}
