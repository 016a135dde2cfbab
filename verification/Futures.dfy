/** Results of pool tasks (pkg/workers/pool/future.go): a future is written once, by the
    execution of its task, and only then read. */
module Futures {
  import opened Common
  import opened WorkerPool

  /** How the submitted function ends when it is called. */
  datatype Ending<T> = Returns(val: T, err: Option<nat>) | Panics

  /** A task with a result: whether its context is cancelled when its turn comes, and how
      its function would end. */
  datatype Task<T> = Task(cancelled: bool, ending: Ending<T>)

  datatype FutureError = CancelledBeforeExecution | FunctionFailed(e: nat) | TaskPanicked

  /** The two fields a future carries: a value, if the function gave one, and an error. */
  datatype Fields<T> = Fields(val: Option<T>, err: Option<FutureError>)

  /** What a task leaves in its future: a cancelled one never calls its function. */
  function FieldsOf<T>(t: Task<T>): Fields<T> {
    if t.cancelled then Fields(None, Some(CancelledBeforeExecution))
    else
      match t.ending
      case Returns(v, e) => Fields(Some(v), if e.Some? then Some(FunctionFailed(e.value)) else None)
      case Panics => Fields(None, Some(TaskPanicked))
  }

  datatype Answer<T> = Got(fields: Fields<T>) | GaveUp

  class Future<T> {
    var done: bool
    var val: Option<T>
    var err: Option<FutureError>
    /** How often the function of the task was called. */
    var calls: nat

    constructor ()
      ensures !done && calls == 0
    {
      done, val, err, calls := false, None, None, 0;
    }

    /** The closure that the pool executes. Closing a channel twice panics, so it must not
        run twice. */
    method RunTask(t: Task<T>)
      requires !done && val == None && err == None
      modifies this
      ensures done && Fields(val, err) == FieldsOf(t)
      ensures t.cancelled ==> val == None && err == Some(CancelledBeforeExecution)
      ensures !t.cancelled && t.ending.Returns? ==> val == Some(t.ending.val)
      ensures !t.cancelled && t.ending.Returns? ==>
        if t.ending.err == None then err == None else err == Some(FunctionFailed(t.ending.err.value))
      ensures !t.cancelled && t.ending.Panics? ==> val == None && err == Some(TaskPanicked)
      ensures calls == old(calls) + if t.cancelled then 0 else 1
    {
      if t.cancelled {
        err := Some(CancelledBeforeExecution);
      } else {
        calls := calls + 1;
        match t.ending {
          case Returns(v, e) =>
            val := Some(v);
            err := if e.Some? then Some(FunctionFailed(e.value)) else None;
          case Panics =>
            err := Some(TaskPanicked);
        }
      }
      done := true;
    }

    /** Get returns once the task is done or its own context is; when both are, either
        answer is possible. */
    method Get(ctxDone: bool) returns (a: Answer<T>)
      requires done || ctxDone
      ensures a == GaveUp ==> ctxDone
      ensures a.Got? ==> done && a.fields == Fields(val, err)
    {
      var first: bool := *;
      if done && (first || !ctxDone) {
        a := Got(Fields(val, err));
      } else {
        a := GaveUp;
      }
    }
  }

  /** The futures and tasks of a pool, by submitter; a future is done exactly when its task
      has finished, and then holds what the task left. */
  ghost predicate InStep<T>(s: Pool, futures: seq<Future<T>>, tasks: seq<Task<T>>)
    reads futures
  {
    && |futures| == |tasks| == |s.submitters| && Distinct(futures)
    && forall i :: 0 <= i < |futures| ==>
         && (futures[i].done <==> i in s.finished)
         && (if futures[i].done then
               Fields(futures[i].val, futures[i].err) == FieldsOf(tasks[i])
               && futures[i].calls == if tasks[i].cancelled then 0 else 1
             else futures[i].val == None && futures[i].err == None && futures[i].calls == 0)
  }

  lemma FinishedMoves(s: Pool, a: Action)
    requires Enabled(s, a)
    ensures a.Finish? ==> a.w < |s.workers| && (s.workers[a.w].Running? || s.workers[a.w].DrainRunning?)
    ensures Apply(s, a).finished == if a.Finish? then s.finished + {s.workers[a.w].task} else s.finished
  {
  }

  /** The task a worker ends was accepted and is ended for the first time. */
  lemma FinishesFreshTask(s: Pool, w: nat)
    requires Inv(s) && Enabled(s, Finish(w))
    ensures s.workers[w].task !in s.finished && s.workers[w].task < |s.submitters|
  {
    var t := s.workers[w].task;
    assert Runs(s, w, t);
    assert t in s.started;
    var k :| 0 <= k < |s.started| && s.started[k] == t;
    assert s.accepted[k] == t;
    assert t in s.accepted;
  }

  /** Any schedule of the pool: no task runs twice, so every future is written at most
      once and its function called at most once; it is done exactly when its task has
      finished. */
  method Drive<T>(s: Pool, acts: seq<Action>, futures: seq<Future<T>>, tasks: seq<Task<T>>) returns (t: Pool)
    requires Inv(s) && Execute(s, acts).Some? && InStep(s, futures, tasks)
    modifies futures
    ensures Leads(s, acts, t) && Inv(t) && InStep(t, futures, tasks)
    decreases |acts|
  {
    if acts == [] {
      return s;
    }
    var a := acts[0];
    hide Inv, Apply, Enabled;
    InvStep(s, a);
    FinishedMoves(s, a);
    if a.Finish? {
      FinishesFreshTask(s, a.w);
      var i := s.workers[a.w].task;
      futures[i].RunTask(tasks[i]);
    }
    t := Drive(Apply(s, a), acts[1..], futures, tasks);
  }

  /** Once a pool is done, a future whose task has not finished stays undone: its Get can
      only give up. */
  lemma UnfinishedStaysUndone(s: Pool, acts: seq<Action>, t: Pool, i: nat)
    requires Reachable(s) && s.done && Leads(s, acts, t) && i !in s.finished
    ensures i !in t.finished
  {
    ReachableInv(s);
    DoneIsFinal(s, acts, t);
  }
}
