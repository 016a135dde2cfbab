/** A bounded worker pool as a transition system: submitters, workers and closers
    interleave in any order (pkg/workers/pool/pool.go). */
module WorkerPool {
  import opened Common

  /** A worker waits, runs a task, or has noticed the stop signal and drains. */
  datatype Worker =
    | Idle
    | Running(task: nat)
    | Draining
    | DrainRunning(task: nat)
    | Exited

  /** One call of enqueue; the task is known by the number of its submitter. `Checked` is
      past the closed check and before its select, `Parked` waits in the select. */
  datatype Submitter = Fresh | Checked | Parked | Accepted | RejectedClosed | RejectedCtx

  /** One call of Close. */
  datatype Closer = NotStarted | MarkedClosed | Awaiting | ReturnedNil | TimedOut

  /** `accepted` and `started` record the order of channel sends and receives,
      `stopMark` and `exitMark` how many sends had happened when the stop channel was
      closed and when a worker last returned. */
  datatype Pool = Pool(
    cap: nat,
    queue: seq<nat>,
    closed: bool,
    stop: bool,
    done: bool,
    workers: seq<Worker>,
    submitters: seq<Submitter>,
    closers: seq<Closer>,
    accepted: seq<nat>,
    started: seq<nat>,
    finished: set<nat>,
    stopMark: nat,
    exitMark: nat)

  const DEFAULT_QUEUE_SIZE: nat := 1024

  /** New: at least one worker, and a queue of the configured or the default size. */
  function New(workers: int, queueSize: Option<nat>, numCPU: nat, submitters: nat, closers: nat): (s: Pool)
    requires numCPU > 0
    ensures |s.workers| == if workers > 0 then workers else numCPU
    ensures s.cap == if queueSize == None then 1024 else queueSize.value
  {
    var n: nat := if workers <= 0 then numCPU else workers;
    var cap := if queueSize.Some? then queueSize.value else DEFAULT_QUEUE_SIZE;
    Pool(cap, [], false, false, false, seq(n, _ => Idle), seq(submitters, _ => Fresh),
         seq(closers, _ => NotStarted), [], [], {}, 0, 0)
  }

  datatype Action =
    | Check(i: nat)               // read the closed flag
    | Enqueue(i: nat)             // send into the buffer
    | Handoff(i: nat, w: nat)     // send straight to a receiving worker
    | Park(i: nat)                // nothing in the select is ready
    | RejectStop(i: nat)
    | RejectCtx(i: nat)
    | Take(w: nat)                // receive a task, in either loop
    | TakeAdmit(w: nat, i: nat)   // receive from a full queue; a parked sender moves in
    | Finish(w: nat)              // the task returned, failed or panicked
    | NoticeStop(w: nat)
    | Exit(w: nat)                // nothing left to drain
    | CloseDone                   // every worker has returned
    | MarkClosed(c: nat)
    | SignalStop(c: nat)
    | AwaitDone(c: nat)
    | AwaitTimeout(c: nat)

  predicate NobodyParked(s: Pool) {
    forall i :: 0 <= i < |s.submitters| ==> s.submitters[i] != Parked
  }

  /** A submitter parks only if the queue is full (or unbuffered) and stop still open, and
      closing stop wakes it. The drain loop never waits, so that only an idle worker of
      an open pool takes a task straight from its submitter. */
  predicate Enabled(s: Pool, a: Action) {
    match a
    case Check(i) => i < |s.submitters| && s.submitters[i] == Fresh
    case Enqueue(i) => i < |s.submitters| && s.submitters[i] == Checked && |s.queue| < s.cap
    case Handoff(i, w) =>
      && i < |s.submitters| && s.submitters[i] in {Checked, Parked} && s.queue == [] && !s.stop
      && w < |s.workers| && s.workers[w] == Idle
    case Park(i) => i < |s.submitters| && s.submitters[i] == Checked && |s.queue| == s.cap && !s.stop
    case RejectStop(i) => i < |s.submitters| && s.submitters[i] == Checked && s.stop
    case RejectCtx(i) => i < |s.submitters| && s.submitters[i] in {Checked, Parked}
    case Take(w) => w < |s.workers| && s.workers[w] in {Idle, Draining} && s.queue != [] && NobodyParked(s)
    case TakeAdmit(w, i) =>
      && w < |s.workers| && s.workers[w] in {Idle, Draining} && s.queue != []
      && i < |s.submitters| && s.submitters[i] == Parked
    case Finish(w) => w < |s.workers| && (s.workers[w].Running? || s.workers[w].DrainRunning?)
    case NoticeStop(w) => w < |s.workers| && s.workers[w] == Idle && s.stop
    case Exit(w) => w < |s.workers| && s.workers[w] == Draining && s.queue == []
    case CloseDone => !s.done && forall w :: 0 <= w < |s.workers| ==> s.workers[w] == Exited
    case MarkClosed(c) => c < |s.closers| && s.closers[c] == NotStarted
    case SignalStop(c) => c < |s.closers| && s.closers[c] == MarkedClosed
    case AwaitDone(c) => c < |s.closers| && s.closers[c] == Awaiting && s.done
    case AwaitTimeout(c) => c < |s.closers| && s.closers[c] == Awaiting
  }

  function Busy(w: Worker, task: nat): Worker {
    if w == Idle then Running(task) else DrainRunning(task)
  }

  /** Closing stop rejects every parked submission. */
  function Woken(xs: seq<Submitter>): (ys: seq<Submitter>)
    ensures |ys| == |xs|
    ensures forall i :: 0 <= i < |xs| ==> ys[i] == if xs[i] == Parked then RejectedClosed else xs[i]
  {
    seq(|xs|, i requires 0 <= i < |xs| => if xs[i] == Parked then RejectedClosed else xs[i])
  }

  function Apply(s: Pool, a: Action): Pool
    requires Enabled(s, a)
  {
    match a
    case Check(i) =>
      s.(submitters := s.submitters[i := if s.closed then RejectedClosed else Checked])
    case Enqueue(i) =>
      s.(submitters := s.submitters[i := Accepted], accepted := s.accepted + [i], queue := s.queue + [i])
    case Handoff(i, w) =>
      s.(submitters := s.submitters[i := Accepted], accepted := s.accepted + [i],
         workers := s.workers[w := Busy(s.workers[w], i)], started := s.started + [i])
    case Park(i) => s.(submitters := s.submitters[i := Parked])
    case RejectStop(i) => s.(submitters := s.submitters[i := RejectedClosed])
    case RejectCtx(i) => s.(submitters := s.submitters[i := RejectedCtx])
    case Take(w) =>
      s.(queue := s.queue[1..], started := s.started + [s.queue[0]],
         workers := s.workers[w := Busy(s.workers[w], s.queue[0])])
    case TakeAdmit(w, i) =>
      s.(queue := s.queue[1..] + [i], started := s.started + [s.queue[0]],
         workers := s.workers[w := Busy(s.workers[w], s.queue[0])],
         submitters := s.submitters[i := Accepted], accepted := s.accepted + [i])
    case Finish(w) =>
      s.(finished := s.finished + {s.workers[w].task},
         workers := s.workers[w := if s.workers[w].Running? then Idle else Draining])
    case NoticeStop(w) => s.(workers := s.workers[w := Draining])
    case Exit(w) => s.(workers := s.workers[w := Exited], exitMark := |s.accepted|)
    case CloseDone => s.(done := true)
    case MarkClosed(c) => s.(closed := true, closers := s.closers[c := MarkedClosed])
    case SignalStop(c) =>
      s.(stop := true, closers := s.closers[c := Awaiting], submitters := Woken(s.submitters),
         stopMark := if s.stop then s.stopMark else |s.accepted|)
    case AwaitDone(c) => s.(closers := s.closers[c := ReturnedNil])
    case AwaitTimeout(c) => s.(closers := s.closers[c := TimedOut])
  }

  /** The state after a schedule, if every action in it is possible. */
  function Execute(s: Pool, acts: seq<Action>): Option<Pool>
    decreases |acts|
  {
    if acts == [] then Some(s)
    else if !Enabled(s, acts[0]) then None
    else Execute(Apply(s, acts[0]), acts[1..])
  }

  ghost predicate Leads(s: Pool, acts: seq<Action>, t: Pool) {
    Execute(s, acts) == Some(t)
  }

  /** Some pool as New makes it reaches `s`. */
  ghost predicate Reachable(s: Pool) {
    exists workers, queueSize, numCPU: nat, submitters, closers, acts ::
      numCPU > 0 && Leads(New(workers, queueSize, numCPU, submitters, closers), acts, s)
  }

  // ----- the invariant -----

  ghost predicate Runs(s: Pool, w: nat, t: nat) {
    w < |s.workers| && (s.workers[w] == Running(t) || s.workers[w] == DrainRunning(t))
  }

  ghost predicate IsRunning(s: Pool, t: nat) {
    exists w: nat :: Runs(s, w, t)
  }

  /** First in, first out: what was started, then what is queued, is what was accepted. */
  ghost predicate Fifo(s: Pool) {
    && s.started + s.queue == s.accepted
    && |s.queue| <= s.cap
    && Distinct(s.accepted)
    && forall i: nat :: i in s.accepted <==> i < |s.submitters| && s.submitters[i] == Accepted
  }

  /** Every started task is run by one worker or has finished. */
  ghost predicate Ownership(s: Pool) {
    && (forall w: nat, t :: Runs(s, w, t) ==> t in s.started && t !in s.finished)
    && (forall w: nat, v: nat, t :: Runs(s, w, t) && Runs(s, v, t) ==> w == v)
    && (forall t: nat :: t in s.finished ==> t in s.started)
    && (forall t: nat :: t in s.started && t !in s.finished ==> IsRunning(s, t))
  }

  ghost predicate SomeExited(s: Pool) {
    exists w :: 0 <= w < |s.workers| && s.workers[w] == Exited
  }

  ghost predicate AllExited(s: Pool) {
    forall w :: 0 <= w < |s.workers| ==> s.workers[w] == Exited
  }

  /** Whoever is parked waits for room in a full queue of a pool that is not stopped. */
  ghost predicate Parking(s: Pool) {
    !NobodyParked(s) ==> |s.queue| == s.cap && !s.stop
  }

  /** What the stop signal covers, and who may have seen it. */
  ghost predicate StopSeen(s: Pool) {
    && (s.stop ==> s.closed && s.stopMark <= |s.accepted|)
    && forall w :: 0 <= w < |s.workers| && (s.workers[w] in {Draining, Exited} || s.workers[w].DrainRunning?) ==> s.stop
  }

  /** What had been started when a worker left. */
  ghost predicate ExitMarks(s: Pool) {
    && |s.workers| > 0
    && (SomeExited(s) ==> s.stopMark <= s.exitMark <= |s.started|)
    && (AllExited(s) ==> |s.started| == s.exitMark)
    && (s.done ==> AllExited(s))
  }

  ghost predicate ClosersOk(s: Pool) {
    forall c :: 0 <= c < |s.closers| ==>
      && (s.closers[c] != NotStarted ==> s.closed)
      && (s.closers[c] in {Awaiting, ReturnedNil, TimedOut} ==> s.stop)
      && (s.closers[c] == ReturnedNil ==> s.done)
  }

  ghost predicate Inv(s: Pool) {
    Fifo(s) && Ownership(s) && Parking(s) && StopSeen(s) && ExitMarks(s) && ClosersOk(s)
  }

  lemma InitInv(workers: int, queueSize: Option<nat>, numCPU: nat, submitters: nat, closers: nat)
    requires numCPU > 0
    ensures Inv(New(workers, queueSize, numCPU, submitters, closers))
  {
  }

  // --- the queue ---

  /** An action that accepts a submission. */
  predicate IsAccept(a: Action) {
    a.Enqueue? || a.Handoff? || a.TakeAdmit?
  }

  /** How much a submission moves on. */
  function SubmitterStep(a: Action): nat {
    if a.Check? || a.Park? then 1
    else if IsAccept(a) || a.RejectStop? || a.RejectCtx? then 7
    else 0
  }

  /** An action that starts a task. */
  predicate IsStart(a: Action) {
    a.Take? || a.TakeAdmit? || a.Handoff?
  }

  lemma AcceptedMoves(s: Pool, a: Action)
    requires Enabled(s, a)
    ensures var t := Apply(s, a);
            && t.cap == s.cap && (|s.queue| <= s.cap ==> |t.queue| <= t.cap)
            && t.accepted == if IsAccept(a) then s.accepted + [a.i] else s.accepted
  {
  }

  lemma MovesOver(started: seq<nat>, queue: seq<nat>, more: seq<nat>)
    requires queue != []
    ensures (started + [queue[0]]) + (queue[1..] + more) == started + queue + more
  {
  }

  /** A received task moves from the queue to what was started; a sent one is last. */
  lemma QueueMoves(s: Pool, a: Action)
    requires Enabled(s, a)
    ensures var t := Apply(s, a);
            t.started + t.queue == s.started + s.queue + if IsAccept(a) then [a.i] else []
  {
    var t := Apply(s, a);
    if a.Take? || a.TakeAdmit? {
      var more := if a.TakeAdmit? then [a.i] else [];
      assert s.queue != [] && t.started == s.started + [s.queue[0]] && t.queue == s.queue[1..] + more;
      hide Apply, Enabled;
      MovesOver(s.started, s.queue, more);
    } else if a.Enqueue? {
      assert t.started == s.started && t.queue == s.queue + [a.i];
      hide Apply, Enabled;
    } else if a.Handoff? {
      assert t.started == s.started + [a.i] && t.queue == s.queue == [];
      hide Apply, Enabled;
    } else {
      assert t.started == s.started && t.queue == s.queue;
      hide Apply, Enabled;
    }
  }

  /** Nobody but the submitter an action accepts becomes accepted. */
  lemma SubmittersMove(s: Pool, a: Action)
    requires Enabled(s, a)
    ensures var t := Apply(s, a);
            && |t.submitters| == |s.submitters|
            && (IsAccept(a) ==> a.i < |s.submitters| && s.submitters[a.i] != Accepted)
            && forall i :: 0 <= i < |s.submitters| ==>
                 (t.submitters[i] == Accepted <==> s.submitters[i] == Accepted || (IsAccept(a) && a.i == i))
  {
    var t := Apply(s, a);
    if SubmitterStep(a) > 0 {
      assert t.submitters == s.submitters[a.i := t.submitters[a.i]];
      assert s.submitters[a.i] != Accepted && (t.submitters[a.i] == Accepted <==> IsAccept(a));
      hide Apply, Enabled;
    } else {
      assert t.submitters == if a.SignalStop? then Woken(s.submitters) else s.submitters;
      hide Apply, Enabled;
    }
  }

  lemma FifoStep(s: Pool, a: Action)
    requires Fifo(s) && Enabled(s, a)
    ensures Fifo(Apply(s, a))
  {
    AcceptedMoves(s, a);
    QueueMoves(s, a);
    SubmittersMove(s, a);
    hide Enabled, Apply;
  }

  lemma ParkingStep(s: Pool, a: Action)
    requires Parking(s) && Enabled(s, a)
    ensures Parking(Apply(s, a))
  {
  }

  // --- who runs what ---

  /** The task an action starts. */
  function Starts(s: Pool, a: Action): nat
    requires Enabled(s, a) && IsStart(a)
  {
    if a.Handoff? then a.i else s.queue[0]
  }

  /** It was never started before. */
  lemma StartsFreshTask(s: Pool, a: Action)
    requires Fifo(s) && Enabled(s, a) && IsStart(a)
    ensures Starts(s, a) !in s.started && Apply(s, a).started == s.started + [Starts(s, a)]
  {
    assert forall k :: 0 <= k < |s.started| ==> s.started[k] == s.accepted[k];
    if !a.Handoff? {
      assert s.accepted[|s.started|] == s.queue[0];
    }
  }

  lemma OwnershipOfStart(s: Pool, t: Pool, v: nat, x: nat)
    requires Ownership(s) && x !in s.started && t.started == s.started + [x] && t.finished == s.finished
    requires forall w: nat, y :: Runs(t, w, y) <==> if w == v then y == x else Runs(s, w, y)
    requires forall y :: !Runs(s, v, y)
    ensures Ownership(t)
  {
    hide Runs;
    assert Runs(t, v, x);
    forall y: nat | y in t.started && y !in t.finished ensures IsRunning(t, y) {
      if y != x {
        assert IsRunning(s, y);
        var w: nat :| Runs(s, w, y);
        assert Runs(t, w, y);
      }
    }
  }

  lemma OwnershipOfFinish(s: Pool, t: Pool, v: nat, x: nat)
    requires Ownership(s) && t.started == s.started && t.finished == s.finished + {x}
    requires forall y :: Runs(s, v, y) <==> y == x
    requires forall w: nat, y :: Runs(t, w, y) <==> w != v && Runs(s, w, y)
    ensures Ownership(t)
  {
    hide Runs;
    assert Runs(s, v, x);
    forall y: nat | y in t.started && y !in t.finished ensures IsRunning(t, y) {
      assert IsRunning(s, y);
      var w: nat :| Runs(s, w, y);
      assert Runs(t, w, y);
    }
  }

  lemma OwnershipOfOther(s: Pool, t: Pool)
    requires Ownership(s) && t.started == s.started && t.finished == s.finished
    requires forall w: nat, y :: Runs(t, w, y) <==> Runs(s, w, y)
    ensures Ownership(t)
  {
    hide Runs;
    forall y: nat | y in t.started && y !in t.finished ensures IsRunning(t, y) {
      assert IsRunning(s, y);
      var w: nat :| Runs(s, w, y);
      assert Runs(t, w, y);
    }
  }

  lemma OwnershipStep(s: Pool, a: Action)
    requires Fifo(s) && Ownership(s) && Enabled(s, a)
    ensures Ownership(Apply(s, a))
  {
    hide Ownership, Fifo, Distinct;
    var t := Apply(s, a);
    if IsStart(a) {
      StartsFreshTask(s, a);
      OwnershipOfStart(s, t, a.w, Starts(s, a));
    } else if a.Finish? {
      OwnershipOfFinish(s, t, a.w, s.workers[a.w].task);
    } else {
      OwnershipOfOther(s, t);
    }
  }

  // --- stopping ---

  lemma StopSeenStep(s: Pool, a: Action)
    requires StopSeen(s) && ClosersOk(s) && Enabled(s, a)
    ensures StopSeen(Apply(s, a))
  {
  }

  /** Workers leave by Exit only. */
  lemma ExitedStep(s: Pool, a: Action)
    requires Enabled(s, a) && !a.Exit?
    ensures SomeExited(Apply(s, a)) <==> SomeExited(s)
    ensures AllExited(Apply(s, a)) <==> AllExited(s)
  {
    var t := Apply(s, a);
    assert |t.workers| == |s.workers|;
    assert forall w :: 0 <= w < |s.workers| ==> (t.workers[w] == Exited <==> s.workers[w] == Exited);
    hide Enabled, Apply;
  }

  lemma ExitMarksStep(s: Pool, a: Action)
    requires Fifo(s) && StopSeen(s) && ExitMarks(s) && Enabled(s, a)
    ensures ExitMarks(Apply(s, a))
  {
    if a.Exit? {
      assert |s.started| == |s.accepted|;
    } else {
      ExitedStep(s, a);
      if SomeExited(s) {
        assert s.stop;
      }
      if IsStart(a) {
        assert s.workers[a.w] != Exited;
      }
      hide SomeExited, AllExited, Fifo, StopSeen;
    }
  }

  lemma ClosersStep(s: Pool, a: Action)
    requires ClosersOk(s) && Enabled(s, a)
    ensures ClosersOk(Apply(s, a))
  {
  }

  lemma InvStep(s: Pool, a: Action)
    requires Inv(s) && Enabled(s, a)
    ensures Inv(Apply(s, a)) && |Apply(s, a).submitters| == |s.submitters|
  {
    FifoStep(s, a);
    OwnershipStep(s, a);
    ParkingStep(s, a);
    StopSeenStep(s, a);
    ExitMarksStep(s, a);
    ClosersStep(s, a);
    hide Fifo, Ownership, Parking, StopSeen, ExitMarks, ClosersOk, Enabled;
  }

  lemma {:induction false} InvHolds(s: Pool, acts: seq<Action>, t: Pool)
    requires Inv(s) && Leads(s, acts, t)
    ensures Inv(t)
    decreases |acts|
  {
    hide Inv, Apply, Enabled;
    if acts != [] {
      InvStep(s, acts[0]);
      InvHolds(Apply(s, acts[0]), acts[1..], t);
    }
  }

  lemma ReachableInv(s: Pool)
    requires Reachable(s)
    ensures Inv(s)
  {
    var workers, queueSize, numCPU: nat, submitters, closers, acts :|
      numCPU > 0 && Leads(New(workers, queueSize, numCPU, submitters, closers), acts, s);
    InitInv(workers, queueSize, numCPU, submitters, closers);
    InvHolds(New(workers, queueSize, numCPU, submitters, closers), acts, s);
  }

  // ----- what a reachable pool guarantees -----

  /** Each accepted task is in exactly one of queued, running, executed; tasks start
      in the order they were accepted; the queue keeps within its capacity. */
  lemma AcceptedTaskPlace(s: Pool, i: nat)
    requires Reachable(s) && i < |s.submitters| && s.submitters[i] == Accepted
    ensures (i in s.queue && !IsRunning(s, i) && i !in s.finished)
         || (i !in s.queue && IsRunning(s, i) && i !in s.finished)
         || (i !in s.queue && !IsRunning(s, i) && i in s.finished)
    ensures s.started <= s.accepted && |s.queue| <= s.cap
  {
    ReachableInv(s);
    if i in s.queue {
      var q :| 0 <= q < |s.queue| && s.queue[q] == i;
      assert s.accepted[|s.started| + q] == i;
      forall k | 0 <= k < |s.started| ensures s.started[k] != i {
        assert s.accepted[k] == s.started[k];
      }
    } else {
      var k :| 0 <= k < |s.accepted| && s.accepted[k] == i;
      assert (s.started + s.queue)[k] == i;
      assert i in s.started;
    }
  }

  /** Once done is closed, every task accepted before the stop signal has finished. */
  lemma DrainedBeforeDone(s: Pool, k: nat)
    requires Reachable(s) && s.done && k < s.stopMark
    ensures k < |s.accepted| && s.accepted[k] in s.finished
  {
    ReachableInv(s);
    assert s.workers[0] == Exited;
    assert s.accepted[k] == s.started[k];
    NobodyRuns(s, s.started[k]);
  }

  lemma NobodyRuns(s: Pool, t: nat)
    requires AllExited(s)
    ensures !IsRunning(s, t)
  {
  }

  /** A Close that returned nil saw every task accepted before the stop signal finish. */
  lemma CloseMeansDrained(s: Pool, c: nat, k: nat)
    requires Reachable(s) && c < |s.closers| && s.closers[c] == ReturnedNil && k < s.stopMark
    ensures k < |s.accepted| && s.accepted[k] in s.finished
  {
    ReachableInv(s);
    DrainedBeforeDone(s, k);
  }

  // ----- how the calls end -----

  /** How one submission and one Close move. */
  lemma SubmissionStep(s: Pool, a: Action, i: nat)
    requires Enabled(s, a) && StopSeen(s) && ClosersOk(s) && i < |s.submitters|
    ensures
      var before, t := s.submitters[i], Apply(s, a);
      && i < |t.submitters| && (s.closed ==> t.closed) && (s.stop ==> t.stop)
      && (before in {Accepted, RejectedClosed, RejectedCtx} ==> t.submitters[i] == before && a != RejectCtx(i))
      && (before !in {Accepted, RejectedClosed, RejectedCtx} ==>
            && (t.submitters[i] == RejectedCtx <==> a == RejectCtx(i))
            && (t.submitters[i] == RejectedClosed ==> t.closed && (before == Fresh || t.stop))
            && (t.submitters[i] == Accepted ==> before != Fresh)
            && (before == Fresh && s.closed ==> t.submitters[i] in {Fresh, RejectedClosed}))
  {
    var t := Apply(s, a);
    if SubmitterStep(a) > 0 {
      assert t.submitters == s.submitters[a.i := t.submitters[a.i]] && t.closed == s.closed && t.stop == s.stop;
    } else {
      assert t.submitters == if a.SignalStop? then Woken(s.submitters) else s.submitters;
      assert (s.closed ==> t.closed) && (s.stop ==> t.stop) && (a.SignalStop? ==> s.closed && t.stop);
      hide Apply, Enabled;
    }
  }

  lemma CloseStep(s: Pool, a: Action, c: nat)
    requires Enabled(s, a) && c < |s.closers|
    ensures
      var before, t := s.closers[c], Apply(s, a);
      && c < |t.closers|
      && (before in {ReturnedNil, TimedOut} ==> t.closers[c] == before && a != AwaitDone(c) && a != AwaitTimeout(c))
      && (before !in {ReturnedNil, TimedOut} ==>
            && (t.closers[c] == TimedOut <==> a == AwaitTimeout(c))
            && (t.closers[c] == ReturnedNil <==> a == AwaitDone(c)))
  {
    var t := Apply(s, a);
    if a.MarkClosed? || a.SignalStop? || a.AwaitDone? || a.AwaitTimeout? {
      assert t.closers == s.closers[a.c := t.closers[a.c]];
    } else {
      assert t.closers == s.closers;
      hide Apply, Enabled;
    }
  }

  /** A submission fails with its context's error exactly when that context ended it, and
      with ErrPoolClosed only on a closed pool, from its select only on a stopped one. One
      that comes to a closed pool is never accepted. */
  lemma {:induction false} HowSubmissionEnds(s: Pool, acts: seq<Action>, t: Pool, i: nat)
    requires Leads(s, acts, t) && StopSeen(s) && ClosersOk(s)
    requires i < |s.submitters| && s.submitters[i] !in {Accepted, RejectedClosed, RejectedCtx}
    ensures i < |t.submitters| && (t.submitters[i] == RejectedCtx <==> RejectCtx(i) in acts)
    ensures t.submitters[i] == RejectedClosed ==> t.closed && (s.submitters[i] == Fresh || t.stop)
    ensures s.closed && s.submitters[i] == Fresh ==> t.submitters[i] in {Fresh, RejectedClosed}
    ensures (s.closed ==> t.closed) && (s.stop ==> t.stop)
    decreases |acts|
  {
    if acts != [] {
      var u := Apply(s, acts[0]);
      SubmissionStep(s, acts[0], i);
      StopSeenStep(s, acts[0]);
      ClosersStep(s, acts[0]);
      hide Apply, Enabled, StopSeen, ClosersOk;
      assert forall a :: a in acts <==> a == acts[0] || a in acts[1..];
      if u.submitters[i] in {Accepted, RejectedClosed, RejectedCtx} {
        SubmissionStays(u, acts[1..], t, i);
      } else {
        HowSubmissionEnds(u, acts[1..], t, i);
      }
    }
  }

  lemma {:induction false} SubmissionStays(s: Pool, acts: seq<Action>, t: Pool, i: nat)
    requires Leads(s, acts, t) && StopSeen(s) && ClosersOk(s)
    requires i < |s.submitters| && s.submitters[i] in {Accepted, RejectedClosed, RejectedCtx}
    ensures i < |t.submitters| && t.submitters[i] == s.submitters[i] && RejectCtx(i) !in acts
    ensures (s.closed ==> t.closed) && (s.stop ==> t.stop)
    decreases |acts|
  {
    if acts != [] {
      SubmissionStep(s, acts[0], i);
      StopSeenStep(s, acts[0]);
      ClosersStep(s, acts[0]);
      hide Apply, Enabled, StopSeen, ClosersOk;
      SubmissionStays(Apply(s, acts[0]), acts[1..], t, i);
    }
  }

  /** A Close reports a timeout exactly when its context ended it, and returns nil exactly
      when it saw the pool done. */
  lemma {:induction false} HowCloseEnds(s: Pool, acts: seq<Action>, t: Pool, c: nat)
    requires Leads(s, acts, t) && c < |s.closers| && s.closers[c] !in {ReturnedNil, TimedOut}
    ensures c < |t.closers|
    ensures t.closers[c] == TimedOut <==> AwaitTimeout(c) in acts
    ensures t.closers[c] == ReturnedNil <==> AwaitDone(c) in acts
    decreases |acts|
  {
    if acts != [] {
      var u := Apply(s, acts[0]);
      CloseStep(s, acts[0], c);
      hide Apply, Enabled;
      assert forall a :: a in acts <==> a == acts[0] || a in acts[1..];
      if u.closers[c] in {ReturnedNil, TimedOut} {
        CloseStays(u, acts[1..], t, c);
      } else {
        HowCloseEnds(u, acts[1..], t, c);
      }
    }
  }

  lemma {:induction false} CloseStays(s: Pool, acts: seq<Action>, t: Pool, c: nat)
    requires Leads(s, acts, t) && c < |s.closers| && s.closers[c] in {ReturnedNil, TimedOut}
    ensures c < |t.closers| && t.closers[c] == s.closers[c]
    ensures AwaitTimeout(c) !in acts && AwaitDone(c) !in acts
    decreases |acts|
  {
    if acts != [] {
      CloseStep(s, acts[0], c);
      hide Apply, Enabled;
      CloseStays(Apply(s, acts[0]), acts[1..], t, c);
    }
  }

  /** A Close that has not returned can return nil: its own steps and those of the workers
      lead there. */
  lemma CloseCanReturn(s: Pool, c: nat) returns (acts: seq<Action>, t: Pool)
    requires Inv(s) && c < |s.closers| && s.closers[c] !in {ReturnedNil, TimedOut}
    ensures Leads(s, acts, t) && c < |t.closers| && t.closers[c] == ReturnedNil
    ensures forall k :: 0 <= k < |acts| ==> IsWorkerStep(acts[k]) || acts[k] in {MarkClosed(c), SignalStop(c), AwaitDone(c)}
    decreases CloserWeight(s.closers[c])
  {
    if s.closers[c] == Awaiting {
      acts, t := AwaitedClose(s, c);
      return;
    }
    var a := if s.closers[c] == NotStarted then MarkClosed(c) else SignalStop(c);
    var u := Apply(s, a);
    assert CloserWeight(u.closers[c]) < CloserWeight(s.closers[c]);
    InvStep(s, a);
    var rest;
    hide Apply, Enabled, Inv;
    rest, t := CloseCanReturn(u, c);
    acts := [a] + rest;
    Then(s, a, u, rest, t);
  }

  lemma AwaitedClose(s: Pool, c: nat) returns (acts: seq<Action>, t: Pool)
    requires Inv(s) && c < |s.closers| && s.closers[c] == Awaiting
    ensures Leads(s, acts, t) && c < |t.closers| && t.closers[c] == ReturnedNil
    ensures forall k :: 0 <= k < |acts| ==> IsWorkerStep(acts[k]) || acts[k] == AwaitDone(c)
  {
    var drain, u := DrainCompletes(s);
    WorkersLeaveClosers(s, drain, u);
    LeadsOn(s, drain, u, AwaitDone(c));
    acts, t := drain + [AwaitDone(c)], Apply(u, AwaitDone(c));
  }

  lemma {:induction false} WorkersLeaveClosers(s: Pool, acts: seq<Action>, t: Pool)
    requires Leads(s, acts, t) && forall k :: 0 <= k < |acts| ==> IsWorkerStep(acts[k])
    ensures t.closers == s.closers
    decreases |acts|
  {
    if acts != [] {
      WorkersLeaveClosers(Apply(s, acts[0]), acts[1..], t);
    }
  }

  /** While an accepted task is unfinished, as long as not all workers have left, some
      worker can start or end a task. */
  lemma TaskProgress(s: Pool, i: nat) returns (a: Action)
    requires Inv(s) && !AllExited(s) && i in s.accepted && i !in s.finished
    ensures Enabled(s, a) && (a.Take? || a.TakeAdmit? || a.Finish?)
  {
    if s.queue == [] {
      assert s.started + [] == s.started;
      assert IsRunning(s, i);
      var w: nat :| Runs(s, w, i);
      return Finish(w);
    }
    var w: nat :| w < |s.workers| && s.workers[w] != Exited;
    if s.workers[w].Running? || s.workers[w].DrainRunning? {
      return Finish(w);
    }
    if NobodyParked(s) {
      return Take(w);
    }
    var p: nat :| p < |s.submitters| && s.submitters[p] == Parked;
    a := TakeAdmit(w, p);
  }

  /** A submission before its select is accepted in one step if the queue has room, and one
      that waits there as soon as a worker is idle. */
  lemma SubmissionProgress(s: Pool, i: nat) returns (a: Action)
    requires Inv(s) && i < |s.submitters|
    requires (s.submitters[i] == Checked && |s.queue| < s.cap)
          || (s.submitters[i] == Parked && exists w :: 0 <= w < |s.workers| && s.workers[w] == Idle)
          || (s.submitters[i] == Checked && s.queue == [] && !s.stop
              && exists w :: 0 <= w < |s.workers| && s.workers[w] == Idle)
    ensures Enabled(s, a) && IsAccept(a) && a.i == i
  {
    if s.submitters[i] == Checked && |s.queue| < s.cap {
      return Enqueue(i);
    }
    var w: nat :| w < |s.workers| && s.workers[w] == Idle;
    a := if s.queue == [] then Handoff(i, w) else TakeAdmit(w, i);
  }

  /** With its context done a call never blocks: by its own steps alone a submission comes
      back rejected, and a Close gives up. */
  lemma CancelledSubmissionReturns(s: Pool, i: nat) returns (acts: seq<Action>, t: Pool)
    requires i < |s.submitters| && s.submitters[i] in {Fresh, Checked, Parked}
    ensures Leads(s, acts, t) && i < |t.submitters| && t.submitters[i] in {RejectedClosed, RejectedCtx}
    ensures forall k :: 0 <= k < |acts| ==> acts[k] in {Check(i), RejectCtx(i)}
  {
    acts, t := [], s;
    if s.submitters[i] == Fresh {
      LeadsOn(s, acts, t, Check(i));
      acts, t := acts + [Check(i)], Apply(t, Check(i));
    }
    if t.submitters[i] != RejectedClosed {
      LeadsOn(s, acts, t, RejectCtx(i));
      acts, t := acts + [RejectCtx(i)], Apply(t, RejectCtx(i));
    }
  }

  lemma CancelledCloseReturns(s: Pool, c: nat) returns (acts: seq<Action>, t: Pool)
    requires ClosersOk(s) && StopSeen(s) && c < |s.closers| && s.closers[c] !in {ReturnedNil, TimedOut}
    ensures Leads(s, acts, t) && t.closed && t.stop && c < |t.closers| && t.closers[c] == TimedOut
    ensures forall k :: 0 <= k < |acts| ==> acts[k] in {MarkClosed(c), SignalStop(c), AwaitTimeout(c)}
    decreases CloserWeight(s.closers[c])
  {
    var a := match s.closers[c]
             case NotStarted => MarkClosed(c)
             case MarkedClosed => SignalStop(c)
             case _ => AwaitTimeout(c);
    var u := Apply(s, a);
    if a == AwaitTimeout(c) {
      LeadsOn(s, [], s, a);
      return [] + [a], u;
    }
    assert CloserWeight(u.closers[c]) < CloserWeight(s.closers[c]);
    ClosersStep(s, a);
    StopSeenStep(s, a);
    hide Apply, Enabled, ClosersOk, StopSeen;
    var rest;
    rest, t := CancelledCloseReturns(u, c);
    acts := [a] + rest;
    Then(s, a, u, rest, t);
  }

  /** Whether a done pool executed everything it accepted: exactly when no send
      happened after the last worker returned. */
  lemma AllAcceptedFinishedIff(s: Pool)
    requires Reachable(s) && s.done
    ensures (forall i: nat :: i in s.accepted ==> i in s.finished) <==> |s.accepted| == s.exitMark
  {
    ReachableInv(s);
    if |s.accepted| == s.exitMark {
      assert s.started == s.accepted;
      forall i: nat | i in s.accepted ensures i in s.finished {
        NobodyRuns(s, i);
      }
    } else {
      var k := |s.started|;
      var i := s.accepted[k];
      forall j | 0 <= j < k ensures s.started[j] != i {
        assert s.accepted[j] == s.started[j];
      }
      assert i in s.accepted && i !in s.finished;
    }
  }

  lemma {:induction false} LeadsOn(s: Pool, acts: seq<Action>, t: Pool, a: Action)
    requires Leads(s, acts, t) && Enabled(t, a)
    ensures Leads(s, acts + [a], Apply(t, a))
    decreases |acts|
  {
    if acts == [] {
      assert [a][1..] == [];
    } else {
      assert (acts + [a])[1..] == acts[1..] + [a];
      LeadsOn(Apply(s, acts[0]), acts[1..], t, a);
    }
  }

  /** One worker, one queue slot, one submitter that has passed the closed check and one
      closer: the pool marked closed, stopped, and done. */
  const AFTER_MARK := Pool(
    1, [], true, false, false, [Idle], [Checked], [MarkedClosed], [], [], {}, 0, 0)

  const AFTER_STOP := AFTER_MARK.(stop := true, workers := [Draining], closers := [Awaiting])

  const AFTER_DONE := AFTER_STOP.(done := true, workers := [Exited])

  lemma Then(s: Pool, a: Action, t: Pool, acts: seq<Action>, u: Pool)
    requires Enabled(s, a) && Apply(s, a) == t && Leads(t, acts, u)
    ensures Leads(s, [a] + acts, u)
  {
    hide Enabled, Apply;
    assert ([a] + acts)[1..] == acts;
  }

  lemma AfterStopReachesDone() returns (acts: seq<Action>)
    ensures Leads(AFTER_STOP, acts, AFTER_DONE)
  {
    assert Leads(AFTER_DONE, [], AFTER_DONE);
    hide Execute;
    var left := AFTER_STOP.(workers := [Exited]);
    Then(left, CloseDone, AFTER_DONE, [], AFTER_DONE);
    acts := [CloseDone] + [];
    Then(AFTER_STOP, Exit(0), left, acts, AFTER_DONE);
    acts := [Exit(0)] + acts;
  }

  lemma AfterMarkReachesDone() returns (acts: seq<Action>)
    ensures Leads(AFTER_MARK, acts, AFTER_DONE)
  {
    hide Execute;
    acts := AfterStopReachesDone();
    var stopped := AFTER_MARK.(stop := true, closers := [Awaiting]);
    Then(stopped, NoticeStop(0), AFTER_STOP, acts, AFTER_DONE);
    acts := [NoticeStop(0)] + acts;
    assert Woken([Checked]) == [Checked];
    Then(AFTER_MARK, SignalStop(0), stopped, acts, AFTER_DONE);
    acts := [SignalStop(0)] + acts;
  }

  lemma AfterDoneReachable() returns (acts: seq<Action>)
    ensures Leads(New(1, Some(1), 1, 1, 1), acts, AFTER_DONE)
  {
    hide Execute;
    acts := AfterMarkReachesDone();
    var start := New(1, Some(1), 1, 1, 1);
    assert start.submitters == [Fresh] && start.closers == [NotStarted] && start.workers == [Idle];
    var checked := start.(submitters := [Checked]);
    Then(checked, MarkClosed(0), AFTER_MARK, acts, AFTER_DONE);
    acts := [MarkClosed(0)] + acts;
    Then(start, Check(0), checked, acts, AFTER_DONE);
    acts := [Check(0)] + acts;
  }

  /** A submission whose closed check came first can still be accepted after every
      worker has gone; then its task never runs, whatever happens next. */
  lemma StrandedTask() returns (s: Pool)
    ensures Reachable(s) && s.done && s.accepted == [0]
    ensures forall acts, t :: Leads(s, acts, t) ==> 0 !in t.finished
  {
    var acts := AfterDoneReachable();
    s := Apply(AFTER_DONE, Enqueue(0));
    LeadsOn(New(1, Some(1), 1, 1, 1), acts, AFTER_DONE, Enqueue(0));
    forall more, t | Leads(s, more, t) ensures 0 !in t.finished {
      DoneIsFinal(s, more, t);
    }
  }

  lemma DoneStep(s: Pool, a: Action)
    requires AllExited(s) && Enabled(s, a)
    ensures var t := Apply(s, a); AllExited(t) && t.finished == s.finished && t.started == s.started
  {
  }

  /** After done is closed nothing starts or finishes any more. */
  lemma {:induction false} DoneIsFinal(s: Pool, acts: seq<Action>, t: Pool)
    requires AllExited(s) && Leads(s, acts, t)
    ensures t.finished == s.finished && t.started == s.started
    decreases |acts|
  {
    if acts != [] {
      DoneStep(s, acts[0]);
      hide AllExited, Apply, Enabled;
      DoneIsFinal(Apply(s, acts[0]), acts[1..], t);
    }
  }

  // ----- termination of the drain -----

  function SubmitterWeight(x: Submitter): nat {
    match x
    case Fresh => 9
    case Checked => 8
    case Parked => 7
    case _ => 0
  }

  function WorkerWeight(w: Worker): nat {
    match w
    case Idle => 3
    case Running(_) => 4
    case Draining => 1
    case DrainRunning(_) => 2
    case Exited => 0
  }

  function CloserWeight(c: Closer): nat {
    match c
    case NotStarted => 3
    case MarkedClosed => 2
    case Awaiting => 1
    case _ => 0
  }

  function Sum<T>(xs: seq<T>, f: T -> nat): nat {
    if xs == [] then 0 else f(xs[0]) + Sum(xs[1..], f)
  }

  lemma {:induction false} SumUpdate<T>(xs: seq<T>, f: T -> nat, i: nat, y: T)
    requires i < |xs|
    ensures Sum(xs[i := y], f) + f(xs[i]) == Sum(xs, f) + f(y)
  {
    if i == 0 {
      assert xs[0 := y][1..] == xs[1..];
    } else {
      assert xs[i := y][1..] == xs[1..][i - 1 := y];
      SumUpdate(xs[1..], f, i - 1, y);
    }
  }

  /** Work left in the pool. */
  function Measure(s: Pool): nat {
    Sum(s.submitters, SubmitterWeight) + 3 * |s.queue| + Sum(s.workers, WorkerWeight)
    + Sum(s.closers, CloserWeight) + if s.done then 0 else 1
  }

  lemma {:induction false} WokenSum(xs: seq<Submitter>)
    ensures Sum(Woken(xs), SubmitterWeight) <= Sum(xs, SubmitterWeight)
  {
    if xs != [] {
      assert Woken(xs)[1..] == Woken(xs[1..]);
      WokenSum(xs[1..]);
    }
  }

  lemma SubmitterMoves(s: Pool, a: Action)
    requires Enabled(s, a)
    ensures Sum(Apply(s, a).submitters, SubmitterWeight) + SubmitterStep(a) <= Sum(s.submitters, SubmitterWeight)
  {
    hide Sum;
    if SubmitterStep(a) > 0 {
      SumUpdate(s.submitters, SubmitterWeight, a.i, Apply(s, a).submitters[a.i]);
    } else if a.SignalStop? {
      WokenSum(s.submitters);
    }
  }

  lemma WorkerMoves(s: Pool, a: Action)
    requires Enabled(s, a)
    ensures var t := Apply(s, a);
            Sum(t.workers, WorkerWeight)
            + (if a.Finish? || a.NoticeStop? || a.Exit? then 1 else 0)
            <= Sum(s.workers, WorkerWeight) + (if IsStart(a) then 1 else 0)
  {
    hide Sum;
    if IsStart(a) || a.Finish? || a.NoticeStop? || a.Exit? {
      SumUpdate(s.workers, WorkerWeight, a.w, Apply(s, a).workers[a.w]);
    }
  }

  lemma CloserMoves(s: Pool, a: Action)
    requires Enabled(s, a)
    ensures var t := Apply(s, a);
            Sum(t.closers, CloserWeight)
            + (if a.MarkClosed? || a.SignalStop? || a.AwaitDone? || a.AwaitTimeout? then 1 else 0)
            <= Sum(s.closers, CloserWeight)
  {
    hide Sum;
    if a.MarkClosed? || a.SignalStop? || a.AwaitDone? || a.AwaitTimeout? {
      SumUpdate(s.closers, CloserWeight, a.c, Apply(s, a).closers[a.c]);
    }
  }

  /** Every action uses up some of it. */
  lemma EveryActionDecreases(s: Pool, a: Action)
    requires Enabled(s, a)
    ensures Measure(Apply(s, a)) < Measure(s)
  {
    hide Sum;
    SubmitterMoves(s, a);
    WorkerMoves(s, a);
    CloserMoves(s, a);
  }

  lemma {:induction false} RunsAreBounded(s: Pool, acts: seq<Action>, t: Pool)
    requires Leads(s, acts, t)
    ensures |acts| + Measure(t) <= Measure(s)
    decreases |acts|
  {
    if acts != [] {
      EveryActionDecreases(s, acts[0]);
      RunsAreBounded(Apply(s, acts[0]), acts[1..], t);
    }
  }

  /** A step of the workers themselves: no new call, no closer, no cancelled context. */
  predicate IsWorkerStep(a: Action) {
    a.Take? || a.Finish? || a.NoticeStop? || a.Exit? || a.CloseDone?
  }

  /** A stopped pool that is not done is never stuck. */
  lemma DrainProgress(s: Pool) returns (a: Action)
    requires Parking(s) && s.stop && !s.done
    ensures Enabled(s, a) && IsWorkerStep(a)
  {
    if AllExited(s) {
      return CloseDone;
    }
    var w: nat :| w < |s.workers| && s.workers[w] != Exited;
    match s.workers[w] {
      case Idle => return NoticeStop(w);
      case Running(_) => return Finish(w);
      case Draining => return if s.queue == [] then Exit(w) else Take(w);
      case DrainRunning(_) => return Finish(w);
    }
  }

  /** After the stop signal the workers alone bring the pool to done, within the
      number of steps the measure allows. */
  lemma {:induction false} DrainCompletes(s: Pool) returns (acts: seq<Action>, t: Pool)
    requires Parking(s) && s.stop
    ensures Leads(s, acts, t) && t.done && |acts| <= Measure(s)
    ensures forall k :: 0 <= k < |acts| ==> IsWorkerStep(acts[k])
    decreases Measure(s)
  {
    if s.done {
      return [], s;
    }
    var a := DrainProgress(s);
    EveryActionDecreases(s, a);
    ParkingStep(s, a);
    var rest, u := DrainCompletes(Apply(s, a));
    acts, t := [a] + rest, u;
    assert acts[1..] == rest;
  }

  // ----- which closings are free of stranded tasks -----

  ghost predicate AllFinished(s: Pool) {
    forall i: nat :: i in s.accepted ==> i in s.finished
  }

  /** Whatever happens from here, a done pool has executed all it accepted. */
  ghost predicate NeverStrands(s: Pool) {
    forall acts, t :: Leads(s, acts, t) && t.done ==> AllFinished(t)
  }

  /** No submission is between its closed check and its select. */
  predicate NoneInFlight(s: Pool) {
    forall i :: 0 <= i < |s.submitters| ==> s.submitters[i] != Checked
  }

  /** Once intake is closed with nothing in flight, the stop signal covers all that is ever
      accepted: a parked submission may still get in before it, and is woken by it. */
  lemma {:induction false} QuietClose(s: Pool, acts: seq<Action>, t: Pool)
    requires Leads(s, acts, t) && Parking(s) && s.closed && NoneInFlight(s)
    requires s.stop ==> s.stopMark == |s.accepted|
    ensures t.stop ==> t.stopMark == |t.accepted|
    ensures NobodyParked(s) ==> t.accepted == s.accepted
    decreases |acts|
  {
    if acts != [] {
      ParkingStep(s, acts[0]);
      QuietStep(s, acts[0]);
      hide Parking, NoneInFlight, NobodyParked, Apply, Enabled;
      QuietClose(Apply(s, acts[0]), acts[1..], t);
    }
  }

  lemma QuietStep(s: Pool, a: Action)
    requires Enabled(s, a) && Parking(s) && s.closed && NoneInFlight(s)
    requires s.stop ==> s.stopMark == |s.accepted|
    ensures var t := Apply(s, a);
            && t.closed && NoneInFlight(t) && (t.stop ==> t.stopMark == |t.accepted|)
            && (NobodyParked(s) ==> NobodyParked(t) && t.accepted == s.accepted)
  {
  }

  /** A submission parked when the stop signal comes is rejected, for good. */
  lemma StopRejectsParked(s: Pool, c: nat, i: nat, acts: seq<Action>, t: Pool)
    requires Reachable(s) && Enabled(s, SignalStop(c)) && i < |s.submitters| && s.submitters[i] == Parked
    requires Leads(Apply(s, SignalStop(c)), acts, t)
    ensures i < |t.submitters| && t.submitters[i] == RejectedClosed && i !in t.accepted
  {
    ReachableInv(s);
    InvStep(s, SignalStop(c));
    InvHolds(Apply(s, SignalStop(c)), acts, t);
    SubmissionStays(Apply(s, SignalStop(c)), acts, t, i);
  }

  /** With direct handoff the queue is never used. */
  lemma {:induction false} HandoffNeverQueues(s: Pool, acts: seq<Action>, t: Pool)
    requires Inv(s) && s.cap == 0 && Leads(s, acts, t)
    ensures Inv(t) && t.cap == 0 && t.started == t.accepted
    decreases |acts|
  {
    if acts != [] {
      InvStep(s, acts[0]);
      assert Apply(s, acts[0]).cap == 0;
      hide Inv, Apply, Enabled;
      HandoffNeverQueues(Apply(s, acts[0]), acts[1..], t);
    }
  }

  /** Once stopped, a pool with direct handoff accepts nothing more, although idle workers may
      not have noticed yet. */
  lemma {:induction false} StopEndsHandoff(s: Pool, acts: seq<Action>, t: Pool)
    requires Inv(s) && s.cap == 0 && s.stop && Leads(s, acts, t)
    ensures t.accepted == s.accepted
    decreases |acts|
  {
    if acts != [] {
      InvStep(s, acts[0]);
      StoppedHandoffStep(s, acts[0]);
      hide Inv, Apply, Enabled;
      StopEndsHandoff(Apply(s, acts[0]), acts[1..], t);
    }
  }

  lemma StoppedHandoffStep(s: Pool, a: Action)
    requires Enabled(s, a) && Fifo(s) && s.cap == 0 && s.stop
    ensures Apply(s, a).accepted == s.accepted && Apply(s, a).cap == 0 && Apply(s, a).stop
  {
    AcceptedMoves(s, a);
    assert s.queue == [];
  }

  /** What the steps of the workers leave alone. */
  lemma WorkerStepKeepsIntake(s: Pool, a: Action)
    requires Enabled(s, a) && IsWorkerStep(a)
    requires SomeExited(s) ==> s.exitMark == |s.accepted|
    ensures var t := Apply(s, a);
            && t.submitters == s.submitters && t.accepted == s.accepted && t.cap == s.cap
            && (SomeExited(t) ==> t.exitMark == |t.accepted|)
  {
    if !a.Exit? {
      ExitedStep(s, a);
      hide SomeExited;
    }
  }

  lemma {:induction false} WorkerStepsKeepIntake(s: Pool, acts: seq<Action>, t: Pool)
    requires Leads(s, acts, t) && forall k :: 0 <= k < |acts| ==> IsWorkerStep(acts[k])
    requires SomeExited(s) ==> s.exitMark == |s.accepted|
    ensures t.submitters == s.submitters && t.accepted == s.accepted && t.cap == s.cap
    ensures SomeExited(t) ==> t.exitMark == |t.accepted|
    decreases |acts|
  {
    if acts != [] {
      WorkerStepKeepsIntake(s, acts[0]);
      hide SomeExited, Apply, Enabled;
      WorkerStepsKeepIntake(Apply(s, acts[0]), acts[1..], t);
    }
  }

  lemma {:induction false} LeadsThrough(s: Pool, a: seq<Action>, t: Pool, b: seq<Action>, u: Pool)
    requires Leads(s, a, t) && Leads(t, b, u)
    ensures Leads(s, a + b, u)
    decreases |a|
  {
    if a == [] {
      assert a + b == b;
    } else {
      assert (a + b)[1..] == a[1..] + b;
      LeadsThrough(Apply(s, a[0]), a[1..], t, b, u);
    }
  }

  /** After a stop signal the workers can drain the pool and leave while a submission is in
      flight. */
  lemma DrainMeanwhile(s: Pool, c: nat, i: nat) returns (acts: seq<Action>, t: Pool)
    requires Inv(s) && Enabled(s, SignalStop(c)) && !s.stop
    requires i < |s.submitters| && s.submitters[i] == Checked
    ensures Leads(s, acts, t) && Inv(t) && t.done && t.queue == [] && t.cap == s.cap
    ensures i < |t.submitters| && t.submitters[i] == Checked
  {
    var u := Apply(s, SignalStop(c));
    assert u.stop && u.submitters[i] == Checked && u.cap == s.cap && !SomeExited(s);
    ExitedStep(s, SignalStop(c));
    InvStep(s, SignalStop(c));
    LeadsOn(s, [], s, SignalStop(c));
    assert Parking(u);
    hide Apply, Enabled, Inv, SomeExited;
    var drain;
    drain, t := DrainCompletes(u);
    WorkerStepsKeepIntake(u, drain, t);
    LeadsThrough(s, [] + [SignalStop(c)], u, drain, t);
    acts := [] + [SignalStop(c)] + drain;
    InvHolds(u, drain, t);
    DoneQueue(t);
  }

  /** A done pool whose last worker left after the last send has an empty queue. */
  lemma DoneQueue(s: Pool)
    requires Inv(s) && s.done && (SomeExited(s) ==> s.exitMark == |s.accepted|)
    ensures s.queue == []
  {
    assert s.workers[0] == Exited;
    assert |s.accepted| == |s.started| + |s.queue|;
  }

  /** A submission in flight can be stranded by letting the workers drain first. */
  lemma InFlightCanStrand(s: Pool, i: nat)
    requires Inv(s) && s.closed && !s.stop && s.cap > 0
    requires i < |s.submitters| && s.submitters[i] == Checked
    requires exists c: nat :: c < |s.closers| && s.closers[c] == MarkedClosed
    ensures !NeverStrands(s)
  {
    var c: nat :| c < |s.closers| && s.closers[c] == MarkedClosed;
    var acts, t := DrainMeanwhile(s, c, i);
    var u := Apply(t, Enqueue(i));
    LeadsOn(s, acts, t, Enqueue(i));
    assert u.accepted == t.accepted + [i] && u.finished == t.finished && u.done;
    assert i !in t.accepted && i !in t.finished by {
      assert forall k :: 0 <= k < |t.started| ==> t.started[k] == t.accepted[k];
    }
    assert !AllFinished(u);
  }

  /** Between marking the pool closed and signalling stop some Close call is at work. */
  ghost predicate CloserAtWork(s: Pool) {
    s.closed && !s.stop ==> exists c: nat :: c < |s.closers| && s.closers[c] == MarkedClosed
  }

  lemma CloserAtWorkStep(s: Pool, a: Action)
    requires Enabled(s, a) && CloserAtWork(s)
    ensures CloserAtWork(Apply(s, a))
  {
    var t := Apply(s, a);
    if a.MarkClosed? {
      assert t.closers[a.c] == MarkedClosed;
    } else if t.closed && !t.stop {
      var c: nat :| c < |s.closers| && s.closers[c] == MarkedClosed;
      assert t.closers[c] == MarkedClosed;
    }
  }

  lemma {:induction false} ClosedNeedsCloser(s: Pool, acts: seq<Action>, t: Pool)
    requires Leads(s, acts, t) && CloserAtWork(s)
    ensures CloserAtWork(t)
    decreases |acts|
  {
    hide CloserAtWork, Apply, Enabled;
    if acts != [] {
      CloserAtWorkStep(s, acts[0]);
      ClosedNeedsCloser(Apply(s, acts[0]), acts[1..], t);
    }
  }

  /** The exact condition, at the moment between marking the pool closed and
      signalling stop: tasks hand over directly, or no submission is in flight. */
  lemma NeverStrandsIff(s: Pool)
    requires Reachable(s) && s.closed && !s.stop
    ensures NeverStrands(s) <==> s.cap == 0 || NoneInFlight(s)
  {
    ReachableInv(s);
    if s.cap == 0 || NoneInFlight(s) {
      forall acts, t | Leads(s, acts, t) && t.done ensures AllFinished(t) {
        InvHolds(s, acts, t);
        if s.cap == 0 {
          HandoffNeverQueues(s, acts, t);
        } else {
          QuietClose(s, acts, t);
          assert t.workers[0] == Exited;
        }
        forall i: nat | i in t.accepted ensures i in t.finished {
          NobodyRuns(t, i);
          assert |t.started| == |t.accepted| && t.started == t.accepted;
        }
      }
    } else {
      var i: nat :| i < |s.submitters| && s.submitters[i] == Checked;
      var workers, queueSize, numCPU: nat, submitters, closers, acts :|
        numCPU > 0 && Leads(New(workers, queueSize, numCPU, submitters, closers), acts, s);
      ClosedNeedsCloser(New(workers, queueSize, numCPU, submitters, closers), acts, s);
      InFlightCanStrand(s, i);
    }
  }
}
