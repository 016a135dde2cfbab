/** RunContext after a successful boot: start goroutines, cancellation and the stop
    pass interleave in any order (pkg/lakta/runtime.go). */
module RunMachine {
  import opened Common
  import opened Lifecycle

  /** Which start interfaces a module implements; it may implement both. */
  datatype Kind = Kind(isAsync: bool, isSync: bool)

  /** A start goroutine: not yet scheduled, inside StartAsync or Start, returned from
      it, or past the once-only recording of the first exit. */
  datatype Goroutine =
    | Waiting
    | Entered
    | Returned(err: Option<Failure>)
    | Recorded(err: Option<Failure>)

  datatype RunError = AsyncFailed | SyncFailed(e: Failure) | StopFailed(stop: StopError)

  datatype Phase =
    | AsyncPhase
    | SyncPhase
    | IdlePhase
    | Stopping(next: nat, pass: Pass)
    | Finished(result: Option<RunError>)

  /** `stops` tells how each module behaves when its turn to stop comes. `exits`
      lists sync modules in the order their Start returned, `firstBy` is the one that
      recorded the exit, when `seenExits` of them had returned. */
  datatype Run = Run(
    kinds: seq<Kind>,
    stops: seq<StopPlan>,
    async: seq<Goroutine>,
    sync: seq<Goroutine>,
    phase: Phase,
    spawned: bool,
    ctxDone: bool,
    syncDone: bool,
    firstErr: Option<Failure>,
    firstBy: Option<nat>,
    exits: seq<nat>,
    seenExits: nat,
    cause: Option<RunError>,
    calls: seq<Event>,
    passes: nat)

  function Boot(kinds: seq<Kind>, stops: seq<StopPlan>): Run {
    Run(kinds, stops, seq(|kinds|, _ => Waiting), seq(|kinds|, _ => Waiting),
        AsyncPhase, false, false, false, None, None, [], 0, None, [], 0)
  }

  datatype Action =
    | Cancel
    | AsyncEnter(i: nat)
    | AsyncReturn(i: nat, err: Option<Failure>)
    | AsyncWaited
    | SyncEnter(i: nat)
    | SyncReturn(i: nat, err: Option<Failure>)
    | SyncRecord(i: nat)
    | SyncWaited
    | SelectCancel
    | SelectDone
    | StopTurn
    | StopEnd

  predicate HasSync(s: Run) {
    exists i :: 0 <= i < |s.kinds| && s.kinds[i].isSync
  }

  predicate AsyncReturnedAll(s: Run) {
    forall i :: 0 <= i < |s.kinds| && i < |s.async| && s.kinds[i].isAsync ==> s.async[i].Returned?
  }

  predicate AsyncClean(s: Run) {
    forall i :: 0 <= i < |s.kinds| && i < |s.async| && s.kinds[i].isAsync ==> s.async[i] == Returned(None)
  }

  predicate SyncRecordedAll(s: Run) {
    forall i :: 0 <= i < |s.kinds| && i < |s.sync| && s.kinds[i].isSync ==> s.sync[i].Recorded?
  }

  predicate Enabled(s: Run, a: Action) {
    match a
    case Cancel => !s.ctxDone
    case AsyncEnter(i) => i < |s.kinds| && i < |s.async| && s.kinds[i].isAsync && s.async[i] == Waiting
    case AsyncReturn(i, _) => i < |s.async| && s.async[i] == Entered
    case AsyncWaited => s.phase == AsyncPhase && AsyncReturnedAll(s)
    case SyncEnter(i) => s.spawned && i < |s.kinds| && i < |s.sync| && s.kinds[i].isSync && s.sync[i] == Waiting
    case SyncReturn(i, _) => i < |s.sync| && s.sync[i] == Entered
    case SyncRecord(i) => i < |s.sync| && s.sync[i].Returned?
    case SyncWaited => s.spawned && !s.syncDone && SyncRecordedAll(s)
    case SelectCancel => (s.phase == SyncPhase || s.phase == IdlePhase) && s.ctxDone
    case SelectDone => s.phase == SyncPhase && s.syncDone
    case StopTurn => s.phase.Stopping? && s.phase.next > 0 && s.phase.next <= |s.stops|
    case StopEnd => s.phase.Stopping? && s.phase.next == 0
  }

  /** Enter the stop pass, remembering why. */
  function BeginStop(s: Run, cause: Option<RunError>): Run {
    s.(phase := Stopping(|s.kinds|, NEW_PASS), cause := cause, passes := s.passes + 1)
  }

  function Apply(s: Run, a: Action): Run
    requires Enabled(s, a)
  {
    match a
    case Cancel => s.(ctxDone := true)
    case AsyncEnter(i) => s.(async := s.async[i := Entered])
    case AsyncReturn(i, err) => s.(async := s.async[i := Returned(err)])
    case AsyncWaited =>
      if !AsyncClean(s) then BeginStop(s, Some(AsyncFailed))
      else if HasSync(s) then s.(phase := SyncPhase, spawned := true)
      else s.(phase := IdlePhase)
    case SyncEnter(i) => s.(sync := s.sync[i := Entered])
    case SyncReturn(i, err) => s.(sync := s.sync[i := Returned(err)], exits := s.exits + [i])
    case SyncRecord(i) =>
      var t := s.(sync := s.sync[i := Recorded(s.sync[i].err)]);
      if s.firstBy.Some? then t
      else t.(firstBy := Some(i), firstErr := s.sync[i].err, seenExits := |s.exits|)
    case SyncWaited => s.(syncDone := true)
    case SelectCancel => BeginStop(s, None)
    case SelectDone =>
      BeginStop(s, if s.firstErr.Some? && !s.ctxDone then Some(SyncFailed(s.firstErr.value)) else None)
    case StopTurn =>
      var pass := Turn(s.phase.pass, s.phase.next - 1, s.stops[s.phase.next - 1]);
      s.(phase := Stopping(s.phase.next - 1, pass), calls := pass.calls)
    case StopEnd =>
      s.(phase := Finished(if s.phase.pass.err.Some? then Some(StopFailed(s.phase.pass.err.value)) else s.cause))
  }

  function Execute(s: Run, acts: seq<Action>): Option<Run>
    decreases |acts|
  {
    if acts == [] then Some(s)
    else if !Enabled(s, acts[0]) then None
    else Execute(Apply(s, acts[0]), acts[1..])
  }

  ghost predicate Leads(s: Run, acts: seq<Action>, t: Run) {
    Execute(s, acts) == Some(t)
  }

  ghost predicate Reachable(s: Run) {
    exists kinds, stops, acts :: |stops| == |kinds| && Leads(Boot(kinds, stops), acts, s)
  }

  // ----- the invariant -----

  ghost predicate Shape(s: Run) {
    && |s.stops| == |s.kinds| == |s.async| == |s.sync|
    && (s.phase == AsyncPhase ==> !s.spawned)
    && (s.phase == SyncPhase ==> s.spawned)
    && (s.spawned ==> AsyncClean(s) && HasSync(s))
    && (s.phase == IdlePhase ==> AsyncClean(s) && !HasSync(s))
    && (forall i :: 0 <= i < |s.sync| && s.sync[i] != Waiting ==> s.spawned && s.kinds[i].isSync)
    && (s.syncDone ==> s.spawned && SyncRecordedAll(s))
    && (s.spawned ==> s.cause != Some(AsyncFailed))
    && (!s.phase.Stopping? && !s.phase.Finished? ==> s.cause == None)
    && (s.cause == Some(AsyncFailed) ==> AsyncReturnedAll(s) && !AsyncClean(s))
    && ((s.phase.Stopping? || s.phase.Finished?) && s.cause != Some(AsyncFailed) ==> AsyncClean(s))
    && (forall i :: 0 <= i < |s.async| ==> !s.async[i].Recorded?)
  }

  /** The recorded exit is the result of the module that recorded it. */
  ghost predicate FirstExit(s: Run) {
    && (forall i :: 0 <= i < |s.sync| && s.sync[i].Recorded? ==> s.firstBy.Some?)
    && (forall i :: 0 <= i < |s.sync| ==>
          (i in s.exits <==> s.sync[i].Returned? || s.sync[i].Recorded?))
    && AllBelow(s.exits, |s.sync|)
    && (s.firstBy.None? ==> s.firstErr.None?)
    && (s.firstBy.Some? ==>
          && s.firstBy.value < |s.sync| && s.sync[s.firstBy.value] == Recorded(s.firstErr)
          && 1 <= s.seenExits <= |s.exits| && s.firstBy.value in s.exits[..s.seenExits])
    && (s.cause.Some? && s.cause.value.SyncFailed? ==>
          s.firstBy.Some? && s.firstErr == Some(s.cause.value.e) && SyncRecordedAll(s))
  }

  /** At most one stop pass, over all the initialized modules. */
  ghost predicate OnePass(s: Run) {
    var n := |s.kinds|;
    match s.phase
    case Stopping(next, pass) =>
      s.passes == 1 && s.calls == pass.calls && PassInv(s.stops, n, next, pass)
    case Finished(result) =>
      && s.passes == 1 && |s.stops| == n
      && s.calls == CallsDown(n, Cut(s.stops, n))
      && exists err :: IsVerdict(s.stops, n, err) && result == if err.Some? then Some(StopFailed(err.value)) else s.cause
    case _ => s.passes == 0 && s.calls == [] && s.cause == None
  }

  ghost predicate Inv(s: Run) {
    Shape(s) && FirstExit(s) && OnePass(s)
  }

  predicate IsStart(a: Action) {
    a.AsyncEnter? || a.AsyncReturn? || a.SyncEnter? || a.SyncReturn? || a.SyncRecord?
  }

  /** What the goroutine of an async module does to the record of all of them. */
  lemma AsyncGoroutine(s: Run, a: Action)
    requires Shape(s) && Enabled(s, a) && (a.AsyncEnter? || a.AsyncReturn?)
    ensures var t := Apply(s, a);
            && t == s.(async := t.async) && |t.async| == |s.async| && (forall i :: 0 <= i < |t.async| ==> !t.async[i].Recorded?)
            && (AsyncClean(s) ==> AsyncClean(t))
            && (AsyncReturnedAll(s) ==> AsyncReturnedAll(t) && (AsyncClean(t) <==> AsyncClean(s)))
  {
    var t := Apply(s, a);
    assert t == s.(async := s.async[a.i := t.async[a.i]]);
    assert s.kinds[a.i].isAsync ==> !s.async[a.i].Returned?;
    hide Apply, Enabled, HasSync, SyncRecordedAll;
  }

  lemma ShapeOfAsync(s: Run, a: Action)
    requires Shape(s) && Enabled(s, a) && (a.AsyncEnter? || a.AsyncReturn?)
    ensures Shape(Apply(s, a))
  {
    AsyncGoroutine(s, a);
    var t := Apply(s, a);
    assert (HasSync(t) <==> HasSync(s)) && (SyncRecordedAll(t) <==> SyncRecordedAll(s)) by {
      hide Apply, Enabled, Shape;
    }
    hide Apply, Enabled, AsyncClean, AsyncReturnedAll, HasSync, SyncRecordedAll;
  }

  /** What the goroutine of a sync module does. */
  lemma SyncGoroutine(s: Run, a: Action)
    requires Shape(s) && Enabled(s, a) && (a.SyncEnter? || a.SyncReturn? || a.SyncRecord?)
    ensures var t := Apply(s, a);
            && t == s.(sync := t.sync, exits := t.exits, firstBy := t.firstBy, firstErr := t.firstErr, seenExits := t.seenExits)
            && |t.sync| == |s.sync| && s.spawned
            && (forall i :: 0 <= i < |t.sync| && t.sync[i] != Waiting ==> s.kinds[i].isSync)
            && (SyncRecordedAll(s) ==> SyncRecordedAll(t))
  {
    var t := Apply(s, a);
    assert t.sync == s.sync[a.i := t.sync[a.i]];
    assert s.kinds[a.i].isSync && s.spawned && !s.sync[a.i].Recorded?;
    hide Enabled, HasSync, AsyncClean, AsyncReturnedAll;
  }

  lemma ShapeOfSync(s: Run, a: Action)
    requires Shape(s) && Enabled(s, a) && (a.SyncEnter? || a.SyncReturn? || a.SyncRecord?)
    ensures Shape(Apply(s, a))
  {
    SyncGoroutine(s, a);
    var t := Apply(s, a);
    hide Apply, Enabled;
    assert (HasSync(t) <==> HasSync(s)) && (AsyncClean(t) <==> AsyncClean(s)) && (AsyncReturnedAll(t) <==> AsyncReturnedAll(s)) by {
      hide Shape, SyncRecordedAll;
    }
    hide AsyncClean, AsyncReturnedAll, HasSync, SyncRecordedAll;
  }

  /** Everything but a goroutine leaves the tables alone. */
  lemma ControlKeepsTables(s: Run, a: Action)
    requires Enabled(s, a) && !IsStart(a)
    ensures var t := Apply(s, a);
            && t.async == s.async && t.sync == s.sync && t.kinds == s.kinds && t.stops == s.stops
            && (AsyncClean(t) <==> AsyncClean(s)) && (AsyncReturnedAll(t) <==> AsyncReturnedAll(s))
            && (HasSync(t) <==> HasSync(s)) && (SyncRecordedAll(t) <==> SyncRecordedAll(s))
  {
    var t := Apply(s, a);
    assert t.async == s.async && t.sync == s.sync && t.kinds == s.kinds && t.stops == s.stops by {
      hide Turn, AsyncClean, AsyncReturnedAll, HasSync, SyncRecordedAll;
    }
    hide Apply, Enabled;
  }

  lemma ShapeOfWait(s: Run, a: Action)
    requires Shape(s) && Enabled(s, a) && (a.AsyncWaited? || a.SyncWaited? || a.Cancel?)
    ensures Shape(Apply(s, a))
  {
    ControlKeepsTables(s, a);
    hide AsyncClean, AsyncReturnedAll, HasSync, SyncRecordedAll;
  }

  lemma ShapeOfStop(s: Run, a: Action)
    requires Shape(s) && Enabled(s, a) && !IsStart(a) && !a.AsyncWaited? && !a.SyncWaited? && !a.Cancel?
    ensures Shape(Apply(s, a))
  {
    ControlKeepsTables(s, a);
    hide Turn, AsyncClean, AsyncReturnedAll, HasSync, SyncRecordedAll;
  }

  lemma ShapeStep(s: Run, a: Action)
    requires Shape(s) && Enabled(s, a)
    ensures Shape(Apply(s, a))
  {
    hide Shape, Apply;
    if a.AsyncEnter? || a.AsyncReturn? {
      ShapeOfAsync(s, a);
    } else if a.SyncEnter? || a.SyncReturn? || a.SyncRecord? {
      ShapeOfSync(s, a);
    } else if a.AsyncWaited? || a.SyncWaited? || a.Cancel? {
      ShapeOfWait(s, a);
    } else {
      ShapeOfStop(s, a);
    }
  }

  lemma FirstExitOfReturn(s: Run, a: Action)
    requires Shape(s) && FirstExit(s) && Enabled(s, a) && a.SyncReturn?
    ensures FirstExit(Apply(s, a))
  {
    assert s.exits[..|s.exits|] == s.exits;
    if s.firstBy.Some? {
      assert (s.exits + [a.i])[..s.seenExits] == s.exits[..s.seenExits];
    }
  }

  lemma FirstExitOfRecord(s: Run, a: Action)
    requires Shape(s) && FirstExit(s) && Enabled(s, a) && a.SyncRecord?
    ensures FirstExit(Apply(s, a))
  {
    assert s.exits[..|s.exits|] == s.exits;
  }

  lemma ExitsFrame(s: Run, a: Action)
    requires Enabled(s, a) && !IsStart(a)
    ensures var t := Apply(s, a);
            && t.sync == s.sync && t.exits == s.exits && t.firstBy == s.firstBy && t.firstErr == s.firstErr
            && t.seenExits == s.seenExits && t.kinds == s.kinds
            && (t.cause == s.cause || !(t.cause.Some? && t.cause.value.SyncFailed?)
                || (a.SelectDone? && s.firstErr.Some? && t.cause == Some(SyncFailed(s.firstErr.value))))
  {
    hide Turn, AsyncClean, AsyncReturnedAll, HasSync, SyncRecordedAll;
  }

  lemma FirstExitOfOthers(s: Run, a: Action)
    requires Shape(s) && FirstExit(s) && Enabled(s, a) && !IsStart(a)
    ensures FirstExit(Apply(s, a))
  {
    ExitsFrame(s, a);
    ControlKeepsTables(s, a);
    assert a.SelectDone? ==> SyncRecordedAll(s);
    hide Apply, Enabled, Shape, AllBelow, SyncRecordedAll;
  }

  lemma FirstExitOfAsync(s: Run, a: Action)
    requires Shape(s) && FirstExit(s) && Enabled(s, a) && (a.AsyncEnter? || a.AsyncReturn?)
    ensures FirstExit(Apply(s, a))
  {
    var t := Apply(s, a);
    AsyncGoroutine(s, a);
    hide Apply, Enabled, Shape, AsyncClean, AsyncReturnedAll;
  }

  lemma FirstExitOfEnter(s: Run, a: Action)
    requires Shape(s) && FirstExit(s) && Enabled(s, a) && a.SyncEnter?
    ensures FirstExit(Apply(s, a))
  {
    SyncGoroutine(s, a);
    assert Apply(s, a) == s.(sync := s.sync[a.i := Entered]) && s.sync[a.i] == Waiting;
    hide Apply, Enabled, Shape, HasSync, AsyncClean, AsyncReturnedAll;
  }

  lemma FirstExitStep(s: Run, a: Action)
    requires Shape(s) && FirstExit(s) && Enabled(s, a)
    ensures FirstExit(Apply(s, a))
  {
    hide Shape, FirstExit, Apply;
    if a.SyncReturn? {
      FirstExitOfReturn(s, a);
    } else if a.SyncRecord? {
      FirstExitOfRecord(s, a);
    } else if a.SyncEnter? {
      FirstExitOfEnter(s, a);
    } else if IsStart(a) {
      FirstExitOfAsync(s, a);
    } else {
      FirstExitOfOthers(s, a);
    }
  }

  lemma OnePassTurns(s: Run)
    requires Shape(s) && OnePass(s) && Enabled(s, StopTurn)
    ensures OnePass(Apply(s, StopTurn))
  {
    hide Shape, Turn, PassInv;
    PassStep(s.stops, |s.kinds|, s.phase.next - 1, s.phase.pass);
  }

  lemma OnePassEnds(s: Run)
    requires Shape(s) && OnePass(s) && Enabled(s, StopEnd)
    ensures OnePass(Apply(s, StopEnd))
  {
    assert |s.stops| == |s.kinds|;
    hide Shape, PassInv, Cut, CallsDown, IsVerdict;
    PassEnds(s.stops, |s.kinds|, s.phase.pass);
  }

  /** An action that enters the stop pass, or none of the pass. */
  lemma OnePassBegins(s: Run, a: Action)
    requires Shape(s) && OnePass(s) && Enabled(s, a) && !IsStart(a) && a != StopTurn && a != StopEnd
    ensures OnePass(Apply(s, a))
  {
    assert |s.stops| == |s.kinds|;
    PassStarts(s.stops, |s.kinds|);
    hide Shape, PassInv, Cut, CallsDown, IsVerdict, AsyncClean, AsyncReturnedAll, SyncRecordedAll, HasSync;
  }

  lemma GoroutineFrame(s: Run, a: Action)
    requires Enabled(s, a) && IsStart(a)
    ensures var t := Apply(s, a);
            && t.kinds == s.kinds && t.stops == s.stops && t.phase == s.phase && t.cause == s.cause
            && t.calls == s.calls && t.passes == s.passes
  {
  }

  lemma OnePassWaits(s: Run, a: Action)
    requires OnePass(s) && Enabled(s, a) && IsStart(a)
    ensures OnePass(Apply(s, a))
  {
    hide Apply, Enabled, PassInv, Cut, CallsDown, IsVerdict;
    GoroutineFrame(s, a);
  }

  lemma OnePassStep(s: Run, a: Action)
    requires Shape(s) && OnePass(s) && Enabled(s, a)
    ensures OnePass(Apply(s, a))
  {
    hide Shape, OnePass, Apply, Enabled;
    if a == StopTurn {
      OnePassTurns(s);
    } else if a == StopEnd {
      OnePassEnds(s);
    } else if IsStart(a) {
      OnePassWaits(s, a);
    } else {
      OnePassBegins(s, a);
    }
  }

  lemma BootInv(kinds: seq<Kind>, stops: seq<StopPlan>)
    requires |stops| == |kinds|
    ensures Inv(Boot(kinds, stops))
  {
  }

  lemma InvStep(s: Run, a: Action)
    requires Inv(s) && Enabled(s, a)
    ensures Inv(Apply(s, a))
  {
    hide Shape, FirstExit, OnePass, Apply, Enabled;
    ShapeStep(s, a);
    FirstExitStep(s, a);
    OnePassStep(s, a);
  }

  lemma {:induction false} InvHolds(s: Run, acts: seq<Action>, t: Run)
    requires Inv(s) && Leads(s, acts, t)
    ensures Inv(t)
    decreases |acts|
  {
    hide Inv, Apply, Enabled;
    if acts != [] {
      InvStep(s, acts[0]);
      InvHolds(Apply(s, acts[0]), acts[1..], t);
    }
  }

  lemma ReachableInv(s: Run)
    requires Reachable(s)
    ensures Inv(s)
  {
    var kinds, stops, acts :| |stops| == |kinds| && Leads(Boot(kinds, stops), acts, s);
    BootInv(kinds, stops);
    InvHolds(Boot(kinds, stops), acts, s);
  }

  // ----- what a reachable run guarantees -----

  /** No sync Start begins before every StartAsync has returned nil, and only sync
      modules are started that way. */
  lemma SyncStartsAfterAsync(s: Run, i: nat, j: nat)
    requires Reachable(s) && i < |s.sync| && s.sync[i] != Waiting
    requires j < |s.kinds| && s.kinds[j].isAsync
    ensures i < |s.kinds| && s.kinds[i].isSync && j < |s.async| && s.async[j] == Returned(None)
  {
    ReachableInv(s);
  }

  /** A finished run made exactly one stop pass over all initialized modules, in
      reverse order, and reports its verdict first and the cause otherwise. */
  lemma FinishedRun(s: Run)
    requires Reachable(s) && s.phase.Finished?
    ensures s.passes == 1 && |s.stops| == |s.kinds|
    ensures s.calls == CallsDown(|s.kinds|, Cut(s.stops, |s.kinds|))
    ensures forall err :: IsVerdict(s.stops, |s.kinds|, err) ==>
      s.phase.result == if err.Some? then Some(StopFailed(err.value)) else s.cause
    ensures s.cause == Some(AsyncFailed) <==> !s.spawned && !AsyncClean(s)
  {
    ReachableInv(s);
    var e :| IsVerdict(s.stops, |s.kinds|, e) && s.phase.result == if e.Some? then Some(StopFailed(e.value)) else s.cause;
    forall err | IsVerdict(s.stops, |s.kinds|, err)
      ensures s.phase.result == if err.Some? then Some(StopFailed(err.value)) else s.cause
    {
      VerdictUnique(s.stops, |s.kinds|, e, err);
    }
  }

  /** Before the stop pass begins no module is shut down. */
  lemma NoEarlyStop(s: Run)
    requires Reachable(s) && !s.phase.Stopping? && !s.phase.Finished?
    ensures s.calls == [] && s.passes == 0
  {
    ReachableInv(s);
  }

  /** A sync failure is reported only with the result of the module that recorded the
      exit, after every sync module returned. It is the first module to return
      whenever no second one returned before the recording. */
  lemma ReportedCause(s: Run, e: Failure)
    requires Reachable(s) && s.cause == Some(SyncFailed(e))
    ensures s.firstBy.Some? && s.firstBy.value < |s.sync| && s.sync[s.firstBy.value] == Recorded(Some(e))
    ensures SyncRecordedAll(s)
    ensures s.seenExits == 1 ==> |s.exits| > 0 && s.exits[0] == s.firstBy.value
  {
    ReachableInv(s);
    assert s.sync[s.firstBy.value] == Recorded(s.firstErr);
    if s.seenExits == 1 {
      assert s.exits[..1] == [s.exits[0]];
    }
  }

  // ----- what a finished run reports, told from its history -----

  /** The module whose recording of the first exit is the first one. */
  ghost function FirstRecord(acts: seq<Action>): Option<nat> {
    if acts == [] then None
    else
      var first, a := FirstRecord(acts[..|acts| - 1]), acts[|acts| - 1];
      if first.None? && a.SyncRecord? then Some(a.i) else first
  }

  /** The sync modules in the order their Start returned. */
  ghost function Exits(acts: seq<Action>): seq<nat> {
    if acts == [] then []
    else
      var a := acts[|acts| - 1];
      Exits(acts[..|acts| - 1]) + if a.SyncReturn? then [a.i] else []
  }

  ghost predicate AsyncReturns(s: Run, i: nat, err: Option<Failure>) {
    i < |s.async| && s.async[i] == Returned(err)
  }

  ghost predicate SyncReturns(s: Run, i: nat, err: Option<Failure>) {
    i < |s.sync| && (s.sync[i] == Returned(err) || s.sync[i] == Recorded(err))
  }

  /** The results of StartAsync, which only async modules have. */
  ghost predicate RemembersAsync(acts: seq<Action>, s: Run) {
    && |s.async| == |s.kinds| && (forall i :: 0 <= i < |s.async| && s.async[i] != Waiting ==> s.kinds[i].isAsync)
    && (forall i: nat, err :: AsyncReturn(i, err) in acts <==> AsyncReturns(s, i, err))
  }

  ghost predicate RemembersSync(acts: seq<Action>, s: Run) {
    forall i: nat, err :: SyncReturn(i, err) in acts <==> SyncReturns(s, i, err)
  }

  ghost predicate RemembersRest(acts: seq<Action>, s: Run) {
    (s.ctxDone <==> Cancel in acts) && s.firstBy == FirstRecord(acts) && s.exits == Exits(acts)
  }

  /** The state remembers what happened. */
  ghost predicate Remembers(acts: seq<Action>, s: Run) {
    RemembersAsync(acts, s) && RemembersSync(acts, s) && RemembersRest(acts, s)
  }

  lemma RemembersAsyncStep(acts: seq<Action>, s: Run, a: Action)
    requires RemembersAsync(acts, s) && Enabled(s, a)
    ensures RemembersAsync(acts + [a], Apply(s, a))
  {
    var more, t := acts + [a], Apply(s, a);
    assert t.kinds == s.kinds && t.async == if a.AsyncEnter? || a.AsyncReturn? then s.async[a.i := t.async[a.i]] else s.async by {
      hide RemembersAsync, Turn, AsyncReturnedAll, AsyncClean, HasSync, SyncRecordedAll;
    }
    assert a.AsyncReturn? ==> t.async[a.i] == Returned(a.err) && s.async[a.i] == Entered;
    assert a.AsyncEnter? ==> t.async[a.i] == Entered && s.async[a.i] == Waiting && s.kinds[a.i].isAsync;
    hide Apply, Enabled;
    forall i: nat, err ensures AsyncReturn(i, err) in more <==> AsyncReturns(t, i, err) {
      assert AsyncReturn(i, err) in acts <==> AsyncReturns(s, i, err);
    }
  }

  lemma RemembersSyncStep(acts: seq<Action>, s: Run, a: Action)
    requires RemembersSync(acts, s) && Enabled(s, a)
    ensures RemembersSync(acts + [a], Apply(s, a))
  {
    var more, t := acts + [a], Apply(s, a);
    var moves := a.SyncEnter? || a.SyncReturn? || a.SyncRecord?;
    assert t.sync == if moves then s.sync[a.i := t.sync[a.i]] else s.sync by {
      hide RemembersSync, Turn, AsyncReturnedAll, AsyncClean, HasSync, SyncRecordedAll;
    }
    assert a.SyncReturn? ==> t.sync[a.i] == Returned(a.err) && s.sync[a.i] == Entered;
    assert a.SyncEnter? ==> t.sync[a.i] == Entered && s.sync[a.i] == Waiting;
    assert a.SyncRecord? ==> s.sync[a.i].Returned? && t.sync[a.i] == Recorded(s.sync[a.i].err);
    hide Apply, Enabled;
    forall i: nat, err ensures SyncReturn(i, err) in more <==> SyncReturns(t, i, err) {
      assert SyncReturn(i, err) in acts <==> SyncReturns(s, i, err);
    }
  }

  lemma RemembersRestStep(acts: seq<Action>, s: Run, a: Action)
    requires RemembersRest(acts, s) && Enabled(s, a)
    ensures RemembersRest(acts + [a], Apply(s, a))
  {
    RecordFrame(s, a);
    hide Apply, Enabled;
    assert (acts + [a])[..|acts + [a]| - 1] == acts;
  }

  lemma RecordFrame(s: Run, a: Action)
    requires Enabled(s, a)
    ensures var t := Apply(s, a);
            && t.ctxDone == (s.ctxDone || a == Cancel)
            && t.firstBy == (if s.firstBy.None? && a.SyncRecord? then Some(a.i) else s.firstBy)
            && t.exits == s.exits + if a.SyncReturn? then [a.i] else []
  {
    hide Turn, AsyncReturnedAll, AsyncClean, HasSync, SyncRecordedAll;
  }

  lemma RemembersStep(acts: seq<Action>, s: Run, a: Action)
    requires Remembers(acts, s) && Enabled(s, a)
    ensures Remembers(acts + [a], Apply(s, a))
  {
    hide RemembersAsync, RemembersSync, RemembersRest, Apply, Enabled;
    RemembersAsyncStep(acts, s, a);
    RemembersSyncStep(acts, s, a);
    RemembersRestStep(acts, s, a);
  }

  lemma {:induction false} LastStep(s: Run, acts: seq<Action>, t: Run) returns (u: Run)
    requires Leads(s, acts, t) && acts != []
    ensures Leads(s, acts[..|acts| - 1], u) && Enabled(u, acts[|acts| - 1]) && t == Apply(u, acts[|acts| - 1])
    decreases |acts|
  {
    hide Enabled, Apply;
    if |acts| == 1 {
      assert acts[..0] == [] && acts[1..] == [];
      assert Execute(s, []) == Some(s) && Execute(Apply(s, acts[0]), []) == Some(t);
      return s;
    }
    u := LastStep(Apply(s, acts[0]), acts[1..], t);
    assert acts[1..][..|acts| - 2] == acts[..|acts| - 1][1..];
  }

  /** Every run remembers its history. */
  lemma {:induction false} RunRemembers(kinds: seq<Kind>, stops: seq<StopPlan>, acts: seq<Action>, s: Run)
    requires Leads(Boot(kinds, stops), acts, s)
    ensures Remembers(acts, s)
    decreases |acts|
  {
    if acts != [] {
      hide Remembers, Enabled, Apply, Boot;
      var n := |acts| - 1;
      var u := LastStep(Boot(kinds, stops), acts, s);
      RunRemembers(kinds, stops, acts[..n], u);
      RemembersStep(acts[..n], u, acts[n]);
      assert acts[..n] + [acts[n]] == acts;
    }
  }

  ghost predicate Decides(a: Action) {
    a == AsyncWaited || a == SelectCancel || a == SelectDone
  }

  lemma DecisionStep(s: Run, a: Action)
    requires Inv(s) && Enabled(s, a)
    ensures var t := Apply(s, a);
            if s.passes > 0 then t.cause == s.cause && t.passes > 0
            else t.passes > 0 ==> Decides(a) && t.cause == CauseNow(s)
  {
    hide Turn, FirstExit, PassInv, Cut, CallsDown, IsVerdict, AsyncReturnedAll;
  }

  /** Why a run that decides to stop in this state stops. */
  ghost function CauseNow(s: Run): Option<RunError> {
    if !AsyncClean(s) then Some(AsyncFailed)
    else if s.ctxDone || s.firstErr.None? then None
    else Some(SyncFailed(s.firstErr.value))
  }

  /** The step at which a run decided to stop, and the state before it. */
  lemma {:induction false} DecisionPoint(kinds: seq<Kind>, stops: seq<StopPlan>, acts: seq<Action>, s: Run)
    returns (k: nat, u: Run)
    requires |stops| == |kinds| && Leads(Boot(kinds, stops), acts, s) && s.passes > 0
    ensures k < |acts| && Decides(acts[k]) && Leads(Boot(kinds, stops), acts[..k], u)
    ensures Enabled(u, acts[k]) && u.passes == 0 && Apply(u, acts[k]).passes > 0 && s.cause == CauseNow(u)
    decreases |acts|
  {
    var n := |acts| - 1;
    u := LastStep(Boot(kinds, stops), acts, s);
    BootInv(kinds, stops);
    InvHolds(Boot(kinds, stops), acts[..n], u);
    DecisionStep(u, acts[n]);
    if u.passes == 0 {
      return n, u;
    }
    hide Boot, Enabled, Apply, Inv, CauseNow, Decides;
    k, u := DecisionPoint(kinds, stops, acts[..n], u);
    assert acts[..n][..k] == acts[..k];
  }

  ghost predicate SomeAsyncFailed(acts: seq<Action>) {
    exists i: nat, e: Failure :: AsyncReturn(i, Some(e)) in acts
  }

  /** The first recorded exit is this result. */
  ghost predicate FirstExitIs(acts: seq<Action>, err: Option<Failure>) {
    FirstRecord(acts).Some? && SyncReturn(FirstRecord(acts).value, err) in acts
  }

  /** What a run whose modules all stop cleanly reports, if it decided to stop after
      `acts`: a failed StartAsync, else nothing if it was cancelled, else the result of the
      sync module that recorded the first exit. */
  ghost predicate Answers(acts: seq<Action>, cause: Option<RunError>) {
    if SomeAsyncFailed(acts) then cause == Some(AsyncFailed)
    else if Cancel in acts then cause == None
    else match cause
         case None => FirstExitIs(acts, None)
         case Some(SyncFailed(e)) => FirstExitIs(acts, Some(e))
         case _ => false
  }

  lemma CauseAnswers(acts: seq<Action>, s: Run, a: Action)
    requires Inv(s) && Remembers(acts, s) && Enabled(s, a) && s.passes == 0 && Apply(s, a).passes > 0
    ensures Answers(acts, CauseNow(s))
  {
    DecisionStep(s, a);
    assert AsyncClean(s) <==> !SomeAsyncFailed(acts) by {
      CleanMeans(acts, s, a);
    }
    if AsyncClean(s) && !s.ctxDone {
      assert a == SelectDone && s.firstBy.Some? by {
        hide Remembers, PassInv, Cut, CallsDown, IsVerdict, Turn;
      }
      assert SyncReturns(s, s.firstBy.value, s.firstErr);
    }
  }

  lemma CleanMeans(acts: seq<Action>, s: Run, a: Action)
    requires Shape(s) && RemembersAsync(acts, s) && Enabled(s, a) && Decides(a)
    ensures AsyncClean(s) <==> !SomeAsyncFailed(acts)
  {
    hide SyncRecordedAll, HasSync;
    if SomeAsyncFailed(acts) {
      var i: nat, e: Failure :| AsyncReturn(i, Some(e)) in acts;
      assert AsyncReturns(s, i, Some(e));
    }
    if !AsyncClean(s) {
      assert AsyncReturnedAll(s);
      var i: nat :| i < |s.kinds| && s.kinds[i].isAsync && s.async[i] != Returned(None);
      assert AsyncReturns(s, i, s.async[i].err);
    }
  }

  /** A finished run decided to stop at some step, and reports the verdict of its stop pass
      or else what its history up to there answers. */
  lemma FinishedAnswers(kinds: seq<Kind>, stops: seq<StopPlan>, acts: seq<Action>, s: Run)
    returns (k: nat, err: Option<StopError>)
    requires |stops| == |kinds| && Leads(Boot(kinds, stops), acts, s) && s.phase.Finished?
    ensures k < |acts| && Decides(acts[k]) && IsVerdict(stops, |kinds|, err)
    ensures err.Some? ==> s.phase.result == Some(StopFailed(err.value))
    ensures err.None? ==> Answers(acts[..k], s.phase.result)
  {
    BootInv(kinds, stops);
    InvHolds(Boot(kinds, stops), acts, s);
    KindsStay(Boot(kinds, stops), acts, s);
    err :| IsVerdict(s.stops, |s.kinds|, err) && s.phase.result == if err.Some? then Some(StopFailed(err.value)) else s.cause;
    var u;
    k, u := DecisionPoint(kinds, stops, acts, s);
    InvHolds(Boot(kinds, stops), acts[..k], u);
    RunRemembers(kinds, stops, acts[..k], u);
    CauseAnswers(acts[..k], u, acts[k]);
  }

  const TWO_SYNC := [Kind(false, true), Kind(false, true)]

  const TWO_STOPS := [StopPlan(false, Clean), StopPlan(false, Clean)]

  /** Two modules have failed, one after the other, and nothing is recorded yet. */
  const TWO_FAILED := Boot(TWO_SYNC, TWO_STOPS).(
    phase := SyncPhase, spawned := true, sync := [Returned(Some(1)), Returned(Some(2))], exits := [0, 1])

  lemma TwoFail() returns (acts: seq<Action>)
    ensures Leads(Boot(TWO_SYNC, TWO_STOPS), acts, TWO_FAILED)
  {
    var s0 := Boot(TWO_SYNC, TWO_STOPS);
    var s1 := s0.(phase := SyncPhase, spawned := true);
    var s2 := s1.(sync := [Entered, Waiting]);
    var s3 := s2.(sync := [Entered, Entered]);
    var s4 := s3.(sync := [Returned(Some(1)), Entered], exits := [0]);
    assert HasSync(s0) by { assert s0.kinds[0].isSync; }
    acts := Reach(s0, [], s0, AsyncWaited, s1);
    acts := Reach(s0, acts, s1, SyncEnter(0), s2);
    acts := Reach(s0, acts, s2, SyncEnter(1), s3);
    acts := Reach(s0, acts, s3, SyncReturn(0, Some(1)), s4);
    acts := Reach(s0, acts, s4, SyncReturn(1, Some(2)), TWO_FAILED);
  }

  /** Two modules fail back to back and the second records first. */
  lemma LaterReturnCanBeReported() returns (s: Run)
    ensures Reachable(s) && s.cause == Some(SyncFailed(2)) && s.exits == [0, 1]
    ensures s.sync == [Recorded(Some(1)), Recorded(Some(2))]
  {
    var s0 := Boot(TWO_SYNC, TWO_STOPS);
    var s6 := TWO_FAILED.(
      sync := [Returned(Some(1)), Recorded(Some(2))], firstBy := Some(1), firstErr := Some(2), seenExits := 2);
    var s7 := s6.(sync := [Recorded(Some(1)), Recorded(Some(2))]);
    var s8 := s7.(syncDone := true);
    s := BeginStop(s8, Some(SyncFailed(2)));
    var acts := TwoFail();
    acts := Reach(s0, acts, TWO_FAILED, SyncRecord(1), s6);
    acts := Reach(s0, acts, s6, SyncRecord(0), s7);
    acts := Reach(s0, acts, s7, SyncWaited, s8);
    acts := Reach(s0, acts, s8, SelectDone, s);
    assert Leads(Boot(TWO_SYNC, TWO_STOPS), acts, s);
  }

  lemma {:induction false} Reach(s: Run, acts: seq<Action>, t: Run, a: Action, u: Run) returns (more: seq<Action>)
    requires Leads(s, acts, t) && Enabled(t, a) && Apply(t, a) == u
    ensures more == acts + [a] && Leads(s, more, u)
    decreases |acts|
  {
    more := acts + [a];
    if acts == [] {
      assert more[1..] == [];
    } else {
      assert more[1..] == acts[1..] + [a];
      var rest := Reach(Apply(s, acts[0]), acts[1..], t, a, u);
    }
  }

  // ----- when the first module to return is the one reported -----

  ghost predicate AtMostOneSync(kinds: seq<Kind>) {
    forall i, j :: 0 <= i < |kinds| && 0 <= j < |kinds| && kinds[i].isSync && kinds[j].isSync ==> i == j
  }

  /** A run that reports a sync cause reports the first module whose Start returned. */
  ghost predicate ReportsFirst(s: Run) {
    s.cause.Some? && s.cause.value.SyncFailed? ==> s.exits != [] && s.firstBy == Some(s.exits[0])
  }

  /** Every run of these modules does. */
  ghost predicate AlwaysReportsFirst(kinds: seq<Kind>, stops: seq<StopPlan>) {
    forall acts, s :: Leads(Boot(kinds, stops), acts, s) ==> ReportsFirst(s)
  }

  lemma KindsStayOnce(s: Run, a: Action)
    requires Enabled(s, a)
    ensures Apply(s, a).kinds == s.kinds && Apply(s, a).stops == s.stops && s.exits <= Apply(s, a).exits
  {
    hide Turn;
  }

  lemma {:induction false} KindsStay(s: Run, acts: seq<Action>, t: Run)
    requires Leads(s, acts, t)
    ensures t.kinds == s.kinds && t.stops == s.stops && s.exits <= t.exits
    decreases |acts|
  {
    if acts != [] {
      KindsStayOnce(s, acts[0]);
      hide Apply, Enabled;
      KindsStay(Apply(s, acts[0]), acts[1..], t);
    }
  }

  lemma OneSyncReportsFirst(s: Run)
    requires Inv(s) && AtMostOneSync(s.kinds)
    ensures ReportsFirst(s)
  {
    if s.cause.Some? && s.cause.value.SyncFailed? {
      var first := s.firstBy.value;
      assert first in s.exits && s.exits[0] in s.exits;
      assert s.sync[first] != Waiting && s.sync[s.exits[0]] != Waiting;
    }
  }

  lemma {:induction false} LeadsThrough(s: Run, a: seq<Action>, t: Run, b: seq<Action>, u: Run)
    requires Leads(s, a, t) && Leads(t, b, u)
    ensures Leads(s, a + b, u)
    decreases |a|
  {
    if a == [] {
      assert a + b == b;
    } else {
      assert (a + b)[1..] == a[1..] + b;
      LeadsThrough(Apply(s, a[0]), a[1..], t, b, u);
    }
  }

  lemma OneMore(s: Run, a: Action)
    requires Enabled(s, a)
    ensures Leads(s, [a], Apply(s, a))
  {
    assert [a][1..] == [];
  }

  /** Every StartAsync can be called and return nil. */
  lemma {:induction false} AsyncCanSucceed(s: Run) returns (acts: seq<Action>, t: Run)
    requires Inv(s) && s.phase == AsyncPhase && !s.ctxDone && s.firstBy.None? && s.exits == []
    requires forall i :: 0 <= i < |s.async| ==> s.async[i] in {Waiting, Entered, Returned(None)}
    ensures Leads(s, acts, t) && Inv(t) && t.kinds == s.kinds && t.phase == AsyncPhase && AsyncClean(t)
    ensures !t.ctxDone && t.firstBy.None? && t.exits == [] && t.sync == s.sync
    decreases Measure(s)
  {
    if AsyncClean(s) {
      return [], s;
    }
    var i: nat :| i < |s.kinds| && s.kinds[i].isAsync && s.async[i] != Returned(None);
    var a := if s.async[i] == Waiting then AsyncEnter(i) else AsyncReturn(i, None);
    EveryActionDecreases(s, a);
    InvStep(s, a);
    OneMore(s, a);
    var rest;
    rest, t := AsyncCanSucceed(Apply(s, a));
    LeadsThrough(s, [a], Apply(s, a), rest, t);
    acts := [a] + rest;
  }

  /** Once an exit is recorded, the other sync modules can return and record too. */
  lemma {:induction false} SyncCanFinish(s: Run) returns (acts: seq<Action>, t: Run)
    requires Inv(s) && s.phase == SyncPhase && !s.ctxDone && !s.syncDone && s.firstBy.Some?
    ensures Leads(s, acts, t) && Inv(t) && t.phase == SyncPhase && SyncRecordedAll(t) && !t.ctxDone && !t.syncDone
    ensures t.firstBy == s.firstBy && t.firstErr == s.firstErr && s.exits <= t.exits
    decreases Measure(s)
  {
    if SyncRecordedAll(s) {
      return [], s;
    }
    var a := NextSync(s);
    EveryActionDecreases(s, a);
    InvStep(s, a);
    OneMore(s, a);
    SyncStepKeeps(s, a);
    hide Inv, Apply, Enabled, SyncRecordedAll, Measure;
    var rest;
    rest, t := SyncCanFinish(Apply(s, a));
    LeadsThrough(s, [a], Apply(s, a), rest, t);
    acts := [a] + rest;
  }

  /** As long as a sync module has not recorded its exit, one can make a step. */
  lemma NextSync(s: Run) returns (a: Action)
    requires Shape(s) && s.spawned && !SyncRecordedAll(s)
    ensures Enabled(s, a) && (a.SyncEnter? || a.SyncReturn? || a.SyncRecord?)
  {
    hide AsyncClean, HasSync, AsyncReturnedAll;
    var i: nat :| i < |s.kinds| && s.kinds[i].isSync && !s.sync[i].Recorded?;
    a := match s.sync[i]
         case Waiting => SyncEnter(i)
         case Entered => SyncReturn(i, None)
         case _ => SyncRecord(i);
  }

  lemma SyncStepKeeps(s: Run, a: Action)
    requires Enabled(s, a) && (a.SyncEnter? || a.SyncReturn? || a.SyncRecord?)
    ensures var t := Apply(s, a);
            && t.phase == s.phase && t.ctxDone == s.ctxDone && t.syncDone == s.syncDone && s.exits <= t.exits
            && (s.firstBy.Some? ==> t.firstBy == s.firstBy && t.firstErr == s.firstErr)
  {
  }

  /** Two sync modules return one after the other, both failing, and the second records
      first. */
  lemma SecondCanRecordFirst(s: Run, i: nat, j: nat) returns (acts: seq<Action>, t: Run)
    requires Inv(s) && s.phase == SyncPhase && !s.ctxDone && !s.syncDone && s.firstBy.None? && s.exits == []
    requires i < |s.kinds| && j < |s.kinds| && i != j && s.kinds[i].isSync && s.kinds[j].isSync
    requires forall k :: 0 <= k < |s.sync| ==> s.sync[k] == Waiting
    ensures Leads(s, acts, t) && Inv(t) && t.phase == SyncPhase && !t.ctxDone && !t.syncDone
    ensures t.exits == [i, j] && t.firstBy == Some(j) && t.firstErr == Some(2)
  {
    var s2, enter := BothEnter(s, i, j);
    var s3 := s2.(sync := s2.sync[i := Returned(Some(1))], exits := [i]);
    var s4 := s3.(sync := s3.sync[j := Returned(Some(2))], exits := [i, j]);
    t := s4.(sync := s4.sync[j := Recorded(Some(2))], firstBy := Some(j), firstErr := Some(2), seenExits := 2);
    assert s2.exits + [i] == [i] && [i] + [j] == [i, j];
    assert Apply(s2, SyncReturn(i, Some(1))) == s3;
    assert Apply(s3, SyncReturn(j, Some(2))) == s4;
    assert Apply(s4, SyncRecord(j)) == t;
    hide Apply;
    assert s2.sync[i] == s2.sync[j] == Entered;
    var a3 := Reach(s, enter, s2, SyncReturn(i, Some(1)), s3);
    var a4 := Reach(s, a3, s3, SyncReturn(j, Some(2)), s4);
    acts := Reach(s, a4, s4, SyncRecord(j), t);
    InvHolds(s, acts, t);
  }

  lemma BothEnter(s: Run, i: nat, j: nat) returns (t: Run, acts: seq<Action>)
    requires Inv(s) && s.phase == SyncPhase
    requires i < |s.kinds| && j < |s.kinds| && i != j && s.kinds[i].isSync && s.kinds[j].isSync
    requires s.sync[i] == Waiting && s.sync[j] == Waiting
    ensures Leads(s, acts, t) && t == s.(sync := s.sync[i := Entered][j := Entered])
  {
    var s1 := s.(sync := s.sync[i := Entered]);
    t := s1.(sync := s1.sync[j := Entered]);
    var a1 := Reach(s, [], s, SyncEnter(i), s1);
    acts := Reach(s, a1, s1, SyncEnter(j), t);
  }

  /** All async modules return nil and the sync ones can be started. */
  lemma CanSpawn(kinds: seq<Kind>, stops: seq<StopPlan>, i: nat) returns (acts: seq<Action>, t: Run)
    requires |stops| == |kinds| && i < |kinds| && kinds[i].isSync
    ensures Leads(Boot(kinds, stops), acts, t) && Inv(t) && t.kinds == kinds && t.phase == SyncPhase
    ensures !t.ctxDone && !t.syncDone && t.firstBy.None? && t.exits == []
    ensures forall k :: 0 <= k < |t.sync| ==> t.sync[k] == Waiting
  {
    var s0 := Boot(kinds, stops);
    BootInv(kinds, stops);
    var a1, s1 := AsyncCanSucceed(s0);
    assert HasSync(s1) by { assert s1.kinds[i].isSync; }
    assert !s1.syncDone;
    t := Apply(s1, AsyncWaited);
    assert t == s1.(phase := SyncPhase, spawned := true);
    InvStep(s1, AsyncWaited);
    OneMore(s1, AsyncWaited);
    hide Inv, Apply, Enabled;
    LeadsThrough(s0, a1, s1, [AsyncWaited], t);
    acts := a1 + [AsyncWaited];
  }

  /** Two sync modules, whatever else there is: some run reports the second to return. */
  lemma TwoSyncCanMisreport(kinds: seq<Kind>, stops: seq<StopPlan>, i: nat, j: nat)
    returns (acts: seq<Action>, s: Run)
    requires |stops| == |kinds|
    requires i < |kinds| && j < |kinds| && i != j && kinds[i].isSync && kinds[j].isSync
    ensures Leads(Boot(kinds, stops), acts, s) && !ReportsFirst(s)
  {
    hide Inv, Apply, Enabled, Execute, SyncRecordedAll, Boot;
    var s0 := Boot(kinds, stops);
    var spawn, s1 := CanSpawn(kinds, stops, i);
    var fail, s2 := SecondCanRecordFirst(s1, i, j);
    LeadsThrough(s0, spawn, s1, fail, s2);
    var finish, s3 := SyncCanFinish(s2);
    LeadsThrough(s0, spawn + fail, s2, finish, s3);
    s := ReportNow(s3);
    acts := spawn + fail + finish + [SyncWaited, SelectDone];
    LeadsThrough(s0, spawn + fail + finish, s3, [SyncWaited, SelectDone], s);
    assert s.exits[0] == [i, j][0];
  }

  lemma ReportNow(s: Run) returns (t: Run)
    requires Inv(s) && s.phase == SyncPhase && SyncRecordedAll(s) && !s.ctxDone && !s.syncDone && s.firstErr.Some?
    ensures Leads(s, [SyncWaited, SelectDone], t)
    ensures t.cause == Some(SyncFailed(s.firstErr.value)) && t.exits == s.exits && t.firstBy == s.firstBy
  {
    var u := Apply(s, SyncWaited);
    t := Apply(u, SelectDone);
    OneMore(u, SelectDone);
    assert [SyncWaited, SelectDone][1..] == [SelectDone];
  }

  /** Whatever the modules do, a reported sync cause is that of the first module to return,
      exactly when at most one module is a sync module. */
  lemma ReportsFirstIff(kinds: seq<Kind>, stops: seq<StopPlan>)
    requires |stops| == |kinds|
    ensures AlwaysReportsFirst(kinds, stops) <==> AtMostOneSync(kinds)
  {
    if AtMostOneSync(kinds) {
      forall acts, s | Leads(Boot(kinds, stops), acts, s) ensures ReportsFirst(s) {
        BootInv(kinds, stops);
        InvHolds(Boot(kinds, stops), acts, s);
        KindsStay(Boot(kinds, stops), acts, s);
        OneSyncReportsFirst(s);
      }
    } else {
      var i: nat, j: nat :| i < |kinds| && j < |kinds| && kinds[i].isSync && kinds[j].isSync && i != j;
      var acts, s := TwoSyncCanMisreport(kinds, stops, i, j);
    }
  }

  // ----- termination -----

  function GoroutineWeight(g: Goroutine): nat {
    match g
    case Waiting => 3
    case Entered => 2
    case Returned(_) => 1
    case Recorded(_) => 0
  }

  function Sum(xs: seq<Goroutine>): nat {
    if xs == [] then 0 else GoroutineWeight(xs[0]) + Sum(xs[1..])
  }

  lemma {:induction false} SumUpdate(xs: seq<Goroutine>, i: nat, y: Goroutine)
    requires i < |xs|
    ensures Sum(xs[i := y]) + GoroutineWeight(xs[i]) == Sum(xs) + GoroutineWeight(y)
  {
    if i == 0 {
      assert xs[0 := y][1..] == xs[1..];
    } else {
      assert xs[i := y][1..] == xs[1..][i - 1 := y];
      SumUpdate(xs[1..], i - 1, y);
    }
  }

  function PhaseWeight(s: Run): nat {
    match s.phase
    case AsyncPhase => |s.kinds| + 4
    case SyncPhase => |s.kinds| + 3
    case IdlePhase => |s.kinds| + 3
    case Stopping(next, _) => next + 2
    case Finished(_) => 0
  }

  function Measure(s: Run): nat {
    Sum(s.async) + Sum(s.sync) + PhaseWeight(s)
    + (if s.ctxDone then 0 else 1) + if s.syncDone then 0 else 1
  }

  lemma AsyncMoves(s: Run, a: Action)
    requires Enabled(s, a)
    ensures Sum(Apply(s, a).async) + (if a.AsyncEnter? || a.AsyncReturn? then 1 else 0) <= Sum(s.async)
  {
    hide Turn;
    if a.AsyncEnter? || a.AsyncReturn? {
      SumUpdate(s.async, a.i, Apply(s, a).async[a.i]);
    }
  }

  lemma SyncMoves(s: Run, a: Action)
    requires Enabled(s, a)
    ensures Sum(Apply(s, a).sync) + (if a.SyncEnter? || a.SyncReturn? || a.SyncRecord? then 1 else 0) <= Sum(s.sync)
  {
    hide Turn;
    if a.SyncEnter? || a.SyncReturn? || a.SyncRecord? {
      var now := Apply(s, a).sync;
      assert now == s.sync[a.i := now[a.i]] && GoroutineWeight(now[a.i]) < GoroutineWeight(s.sync[a.i]);
      hide Apply, Enabled;
      SumUpdate(s.sync, a.i, now[a.i]);
    } else {
      hide Sum;
    }
  }

  /** A step of the run itself moves its phase on or sets a flag. */
  lemma PhaseMoves(s: Run, a: Action)
    requires Enabled(s, a)
    ensures var t := Apply(s, a);
            && PhaseWeight(t) <= PhaseWeight(s) && (s.ctxDone ==> t.ctxDone) && (s.syncDone ==> t.syncDone)
            && (!IsStart(a) ==> PhaseWeight(t) < PhaseWeight(s) || (t.ctxDone && !s.ctxDone) || (t.syncDone && !s.syncDone))
  {
    hide Turn, AsyncReturnedAll, SyncRecordedAll, AsyncClean, HasSync;
  }

  /** Every action uses up some of what is left to do. */
  lemma EveryActionDecreases(s: Run, a: Action)
    requires Enabled(s, a)
    ensures Measure(Apply(s, a)) < Measure(s)
  {
    AsyncMoves(s, a);
    SyncMoves(s, a);
    PhaseMoves(s, a);
    hide Sum, Apply, Enabled, PhaseWeight;
  }

  /** An unfinished run can be cancelled, and once it is can always move on by itself,
      without starting a sync module. */
  lemma Progress(s: Run) returns (a: Action)
    requires Inv(s) && !s.phase.Finished?
    ensures Enabled(s, a) && !a.SyncEnter? && !a.SyncReturn? && (a == Cancel <==> !s.ctxDone)
  {
    if !s.ctxDone {
      return Cancel;
    }
    match s.phase {
      case AsyncPhase => a := NextAsync(s);
      case SyncPhase => return SelectCancel;
      case IdlePhase => return SelectCancel;
      case Stopping(next, _) => return if next > 0 then StopTurn else StopEnd;
    }
  }

  lemma CancelStays(s: Run, a: Action)
    requires Enabled(s, a)
    ensures Apply(s, a).ctxDone <==> s.ctxDone || a == Cancel
  {
    RecordFrame(s, a);
  }

  /** Any run finishes once it is cancelled, without waiting for any sync module. */
  lemma {:induction false} CancelFinishes(s: Run) returns (acts: seq<Action>, t: Run)
    requires Inv(s)
    ensures Leads(s, acts, t) && t.phase.Finished? && |acts| <= Measure(s)
    ensures forall k :: 0 <= k < |acts| ==> !acts[k].SyncReturn? && (acts[k] == Cancel ==> k == 0 && !s.ctxDone)
    decreases Measure(s)
  {
    if s.phase.Finished? {
      return [], s;
    }
    var a := Progress(s);
    EveryActionDecreases(s, a);
    InvStep(s, a);
    PhaseMoves(s, a);
    hide Inv, Apply, Enabled, Measure;
    assert Apply(s, a).ctxDone by {
      CancelStays(s, a);
    }
    var rest, u := CancelFinishes(Apply(s, a));
    acts, t := [a] + rest, u;
    assert acts[1..] == rest;
  }

  /** A run with a sync module, cancelled or not, can always move on without being
      cancelled, its modules returning. */
  lemma ProgressUncancelled(s: Run) returns (a: Action)
    requires Inv(s) && HasSync(s) && !s.phase.Finished?
    ensures Enabled(s, a) && !a.Cancel?
  {
    if s.ctxDone {
      a := Progress(s);
    } else if s.phase == AsyncPhase {
      a := NextAsync(s);
    } else if s.phase == SyncPhase {
      if !SyncRecordedAll(s) {
        a := NextSync(s);
      } else {
        a := if s.syncDone then SelectDone else SyncWaited;
      }
    } else {
      a := if s.phase.next > 0 then StopTurn else StopEnd;
    }
  }

  lemma NextAsync(s: Run) returns (a: Action)
    requires Shape(s) && s.phase == AsyncPhase
    ensures Enabled(s, a) && !a.Cancel? && !a.SyncEnter? && !a.SyncReturn?
  {
    hide AsyncClean, HasSync, SyncRecordedAll;
    if AsyncReturnedAll(s) {
      return AsyncWaited;
    }
    var i: nat :| i < |s.kinds| && s.kinds[i].isAsync && !s.async[i].Returned?;
    a := if s.async[i] == Waiting then AsyncEnter(i) else AsyncReturn(i, None);
  }

  /** A run with a sync module finishes without being cancelled, once its modules return. */
  lemma {:induction false} ReturnsFinish(s: Run) returns (acts: seq<Action>, t: Run)
    requires Inv(s) && HasSync(s)
    ensures Leads(s, acts, t) && t.phase.Finished? && |acts| <= Measure(s)
    ensures forall k :: 0 <= k < |acts| ==> !acts[k].Cancel?
    decreases Measure(s)
  {
    if s.phase.Finished? {
      return [], s;
    }
    var a := ProgressUncancelled(s);
    EveryActionDecreases(s, a);
    InvStep(s, a);
    KindsStayOnce(s, a);
    assert HasSync(Apply(s, a));
    hide Inv, Apply, Enabled, Measure, HasSync;
    var rest, u := ReturnsFinish(Apply(s, a));
    acts, t := [a] + rest, u;
    assert acts[1..] == rest;
  }

  /** Without sync modules a started run waits for its cancellation, for good. */
  lemma {:induction false} IdleWaits(s: Run, acts: seq<Action>, t: Run)
    requires Inv(s) && s.phase == IdlePhase && !s.ctxDone && Leads(s, acts, t)
    requires forall k :: 0 <= k < |acts| ==> !acts[k].Cancel?
    ensures t.phase == IdlePhase && t.calls == []
    decreases |acts|
  {
    if acts != [] {
      InvStep(s, acts[0]);
      IdleStep(s, acts[0]);
      hide Inv, Apply, Enabled;
      IdleWaits(Apply(s, acts[0]), acts[1..], t);
    }
  }

  lemma IdleStep(s: Run, a: Action)
    requires Enabled(s, a) && s.phase == IdlePhase && !s.ctxDone && !a.Cancel?
    ensures Apply(s, a).phase == IdlePhase && !Apply(s, a).ctxDone
  {
    hide AsyncReturnedAll, AsyncClean, HasSync, SyncRecordedAll;
  }
}
