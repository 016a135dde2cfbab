/** Sequential boot and stop: initModules, teardown and shutdown, with the state
    record they keep (pkg/lakta/runtime.go, pkg/lakta/introspect.go). */
module Lifecycle {
  import opened Common
  import opened ModuleSort

  datatype ModuleState = Pending | Initialized | Started | Stopped | Failed

  type Failure = nat

  /** What a module does when it is booted: its configuration may be loaded and
      rejected, and its Init may return an error or panic. */
  datatype BootPlan = BootPlan(config: Option<Option<Failure>>, init: Option<Failure>)

  /** What happens when a module's turn to stop comes: whether the deadline has
      passed by then, and how the raced Shutdown call ends. A panic is an error. */
  datatype StopPlan = StopPlan(expiresBefore: bool, result: StopResult)

  datatype StopResult = Clean | Error(e: Failure) | Abandoned

  datatype StopError =
    | ShutdownFailed(at: nat, e: Failure)
    | ShutdownTimedOut(at: nat)
    | ShutdownSkipped(at: nat)

  datatype BootError = ConfigFailed(at: nat, e: Failure) | InitFailed(at: nat, e: Failure)

  /** Calls into modules, named by their place in the sorted order. */
  datatype Event =
    | LoadCalled(i: nat)
    | InitCalled(i: nat)
    | StartAsyncCalled(i: nat)
    | StartCalled(i: nat)
    | ShutdownCalled(i: nat)

  // ----- specification -----

  /** Modules below the cut are skipped: the deadline passed before their turn. */
  ghost function Cut(plan: seq<StopPlan>, n: nat): (m: nat)
    requires n <= |plan|
    ensures m <= n
  {
    if n == 0 then 0
    else if plan[n - 1].expiresBefore then n
    else if plan[n - 1].result == Abandoned then n - 1
    else Cut(plan, n - 1)
  }

  /** The Shutdown calls from `n - 1` down to `m`. */
  ghost function CallsDown(n: nat, m: nat): (s: seq<Event>)
    requires m <= n
    ensures |s| == n - m
    ensures forall k :: 0 <= k < |s| ==> s[k] == ShutdownCalled(n - 1 - k)
  {
    seq(n - m, k requires 0 <= k < n - m => ShutdownCalled(n - 1 - k))
  }

  /** Module `i` was reached before the deadline and stopped without an error. */
  ghost predicate StopsClean(plan: seq<StopPlan>, n: nat, i: nat)
    requires n <= |plan| && i < n
  {
    Cut(plan, n) <= i && plan[i].result == Clean
  }

  /** The error a module contributes to the pass. */
  ghost function ErrorOf(plan: seq<StopPlan>, n: nat, i: nat): StopError
    requires n <= |plan| && i < n
  {
    if i < Cut(plan, n) then ShutdownSkipped(i)
    else if plan[i].result.Error? then ShutdownFailed(i, plan[i].result.e)
    else ShutdownTimedOut(i)
  }

  /** The verdict of a pass: nothing if every module stopped cleanly, else the
      error of the first module in stop order that did not. */
  ghost predicate IsVerdict(plan: seq<StopPlan>, n: nat, err: Option<StopError>)
    requires n <= |plan|
  {
    match err
    case None => forall i :: 0 <= i < n ==> StopsClean(plan, n, i)
    case Some(e) => exists i: nat :: IsFirstFailure(plan, n, i, e)
  }

  ghost predicate IsFirstFailure(plan: seq<StopPlan>, n: nat, i: nat, e: StopError)
    requires n <= |plan|
  {
    && i < n && !StopsClean(plan, n, i) && e == ErrorOf(plan, n, i)
    && forall j :: i < j < n ==> StopsClean(plan, n, j)
  }

  lemma VerdictUnique(plan: seq<StopPlan>, n: nat, a: Option<StopError>, b: Option<StopError>)
    requires n <= |plan| && IsVerdict(plan, n, a) && IsVerdict(plan, n, b)
    ensures a == b
  {
    if a.Some? && b.Some? {
      var i: nat :| IsFirstFailure(plan, n, i, a.value);
      var k: nat :| IsFirstFailure(plan, n, k, b.value);
      assert i == k;
    }
  }

  /** The cut of a longer pass that reaches `k` without the deadline firing. */
  ghost predicate ReachedBefore(plan: seq<StopPlan>, n: nat, k: nat)
    requires k <= n <= |plan|
  {
    forall i :: k <= i < n ==> !plan[i].expiresBefore && plan[i].result != Abandoned
  }

  lemma {:induction false} CutReached(plan: seq<StopPlan>, n: nat, k: nat)
    requires k <= n <= |plan| && ReachedBefore(plan, n, k)
    ensures Cut(plan, n) == Cut(plan, k)
  {
    if k < n {
      CutReached(plan, n - 1, k);
    }
  }

  /** A stop pass in progress: whether the deadline has fired, the first error, the calls made. */
  datatype Pass = Pass(expired: bool, err: Option<StopError>, calls: seq<Event>)

  const NEW_PASS := Pass(false, None, [])

  function FirstOf(err: Option<StopError>, e: StopError): Option<StopError> {
    if err.Some? then err else Some(e)
  }

  /** The turn of module `k` in a stop pass. */
  function Turn(p: Pass, k: nat, plan: StopPlan): Pass {
    if p.expired || plan.expiresBefore then
      p.(expired := true, err := FirstOf(p.err, ShutdownSkipped(k)))
    else
      var q := p.(calls := p.calls + [ShutdownCalled(k)]);
      match plan.result
      case Clean => q
      case Error(e) => q.(err := FirstOf(p.err, ShutdownFailed(k, e)))
      case Abandoned => q.(expired := true, err := FirstOf(p.err, ShutdownTimedOut(k)))
  }

  /** A pass over `n` modules after the turns of the modules from `k` on. */
  ghost predicate PassInv(plan: seq<StopPlan>, n: nat, k: nat, p: Pass) {
    && k <= n <= |plan|
    && (!p.expired ==> ReachedBefore(plan, n, k) && p.calls == CallsDown(n, k))
    && (p.expired ==> k <= Cut(plan, n) && p.calls == CallsDown(n, Cut(plan, n)))
    && (p.err.None? ==> !p.expired && forall i :: k <= i < n ==> plan[i].result == Clean)
    && (p.err.Some? ==> exists w: nat :: k <= w && IsFirstFailure(plan, n, w, p.err.value))
  }

  lemma PassStarts(plan: seq<StopPlan>, n: nat)
    requires n <= |plan|
    ensures PassInv(plan, n, n, NEW_PASS)
  {
  }

  lemma PassStep(plan: seq<StopPlan>, n: nat, k: nat, p: Pass)
    requires PassInv(plan, n, k + 1, p)
    ensures PassInv(plan, n, k, Turn(p, k, plan[k]))
  {
    var q := Turn(p, k, plan[k]);
    if !p.expired {
      CutReached(plan, n, k + 1);
      assert CallsDown(n, k) == CallsDown(n, k + 1) + [ShutdownCalled(k)];
    }
    if q.err.Some? {
      if p.err.Some? {
        var w: nat :| k + 1 <= w && IsFirstFailure(plan, n, w, p.err.value);
        assert k <= w && IsFirstFailure(plan, n, w, q.err.value);
      } else {
        assert IsFirstFailure(plan, n, k, q.err.value);
      }
    }
  }

  /** A module stops cleanly exactly if its turn says so. */
  lemma CleanTurn(plan: seq<StopPlan>, n: nat, k: nat, p: Pass)
    requires PassInv(plan, n, k + 1, p)
    ensures StopsClean(plan, n, k) <==> !p.expired && !plan[k].expiresBefore && plan[k].result == Clean
  {
    if !p.expired {
      CutReached(plan, n, k + 1);
    }
  }

  lemma TurnAppends(log: seq<Event>, p: Pass, k: nat, plan: StopPlan)
    ensures Turn(p.(calls := log + p.calls), k, plan) == Turn(p, k, plan).(calls := log + Turn(p, k, plan).calls)
  {
    assert log + (p.calls + [ShutdownCalled(k)]) == (log + p.calls) + [ShutdownCalled(k)];
  }

  lemma PassEnds(plan: seq<StopPlan>, n: nat, p: Pass)
    requires PassInv(plan, n, 0, p)
    ensures p.calls == CallsDown(n, Cut(plan, n)) && IsVerdict(plan, n, p.err)
  {
    if !p.expired {
      CutReached(plan, n, 0);
    }
  }

  /** The state record after a pass. */
  ghost predicate StatesAfterStop(plan: seq<StopPlan>, n: nat, before: seq<ModuleState>, after: seq<ModuleState>)
    requires n <= |plan|
  {
    && |after| == |before|
    && forall i :: 0 <= i < |before| ==>
         after[i] == if i < n && StopsClean(plan, n, i) then Stopped else before[i]
  }

  /** The calls made into one module: a rejected configuration keeps Init from running. */
  ghost function CallsOf(b: BootPlan, i: nat): seq<Event> {
    (if b.config.Some? then [LoadCalled(i)] else [])
    + (if b.config.Some? && b.config.value.Some? then [] else [InitCalled(i)])
  }

  /** Boot calls of the first `k` modules. */
  ghost function BootCalls(boots: seq<BootPlan>, k: nat): seq<Event>
    requires k <= |boots|
  {
    if k == 0 then [] else BootCalls(boots, k - 1) + CallsOf(boots[k - 1], k - 1)
  }

  ghost predicate Boots(b: BootPlan) {
    (b.config.Some? ==> b.config.value.None?) && b.init.None?
  }

  // ----- the state record -----

  /** The record of every module in init order: its state, and the rendered lists of what it
      declares, which are slices of their own. */
  class RuntimeInfo {
    const modules: array<ModuleState>
    const lists: seq<array<string>>

    function States(): seq<ModuleState>
      reads modules
    {
      modules[..]
    }

    constructor (lists: seq<array<string>>)
      ensures fresh(modules) && States() == seq(|lists|, _ => Pending) && this.lists == lists
    {
      modules := new ModuleState[|lists|](_ => Pending);
      this.lists := lists;
    }

    /** setState: out-of-range orders are ignored. */
    method SetState(order: int, s: ModuleState)
      modifies modules
      ensures States() == if 0 <= order < |old(States())| then old(States())[order := s] else old(States())
    {
      if order < 0 || order >= modules.Length {
        return;
      }
      modules[order] := s;
    }

    /** Snapshot: a deep copy. */
    method Snapshot() returns (states: array<ModuleState>, copies: seq<array<string>>)
      ensures fresh(states) && states[..] == States()
      ensures |copies| == |lists| && forall i :: 0 <= i < |copies| ==> fresh(copies[i]) && copies[i][..] == lists[i][..]
      ensures Distinct(copies)
    {
      states := CopyOf(modules);
      copies := [];
      for i := 0 to |lists|
        invariant |copies| == i && states[..] == States()
        invariant forall j :: 0 <= j < i ==> fresh(copies[j]) && copies[j][..] == lists[j][..]
        invariant Distinct(copies)
      {
        var copy := CopyOf(lists[i]);
        copies := copies + [copy];
      }
    }

    /** A snapshot keeps its contents through any later transitions, and writing into it,
        or into one of its lists, leaves the record alone: `kept` is what it held when it
        was written to. */
    method Detached(transitions: seq<(int, ModuleState)>, i: nat, k: nat, state: ModuleState, text: string)
      returns (kept: seq<ModuleState>, states: array<ModuleState>, copies: seq<array<string>>)
      modifies modules
      ensures kept == old(States()) && States() == Transitions(old(States()), transitions)
      ensures fresh(states) && states[..] == if i < |kept| then kept[i := state] else kept
      ensures |copies| == |lists| && forall j :: 0 <= j < |lists| ==>
        && fresh(copies[j]) && lists[j][..] == old(lists[j][..])
        && copies[j][..] == if j == i && k < lists[j].Length then lists[j][..][k := text] else lists[j][..]
    {
      states, copies := Snapshot();
      for n := 0 to |transitions|
        invariant States() == Transitions(old(States()), transitions[..n])
        invariant states[..] == old(States())
        invariant forall j :: 0 <= j < |lists| ==> fresh(copies[j]) && copies[j][..] == lists[j][..]
      {
        assert transitions[..n + 1][..n] == transitions[..n];
        SetState(transitions[n].0, transitions[n].1);
      }
      assert transitions[..|transitions|] == transitions;
      kept := states[..];
      if i < states.Length {
        states[i] := state;
      }
      if i < |copies| && k < copies[i].Length {
        copies[i][k] := text;
      }
    }
  }

  method CopyOf<T>(a: array<T>) returns (b: array<T>)
    ensures fresh(b) && b[..] == a[..]
  {
    b := new T[a.Length](i requires 0 <= i < a.Length reads a => a[i]);
  }

  ghost function Transitions(states: seq<ModuleState>, transitions: seq<(int, ModuleState)>): seq<ModuleState> {
    if transitions == [] then states
    else
      var n := |transitions| - 1;
      var before, (order, s) := Transitions(states, transitions[..n]), transitions[n];
      if 0 <= order < |before| then before[order := s] else before
  }

  class Runtime {
    const info: RuntimeInfo
    var log: seq<Event>

    constructor (lists: seq<array<string>>)
      ensures fresh(info) && fresh(info.modules) && info.States() == seq(|lists|, _ => Pending) && log == []
    {
      info := new RuntimeInfo(lists);
      log := [];
    }

    /** The turn of one module in a stop pass. */
    method ShutdownOne(k: nat, plan: StopPlan, expired0: bool, firstErr0: Option<StopError>)
      returns (expired: bool, firstErr: Option<StopError>)
      modifies this, info.modules
      ensures Pass(expired, firstErr, log) == Turn(Pass(expired0, firstErr0, old(log)), k, plan)
      ensures
        var clean := !expired0 && !plan.expiresBefore && plan.result == Clean;
        info.States() == if clean && k < |old(info.States())| then old(info.States())[k := Stopped] else old(info.States())
    {
      expired, firstErr := expired0 || plan.expiresBefore, firstErr0;
      if expired {
        firstErr := FirstOf(firstErr, ShutdownSkipped(k));
      } else {
        log := log + [ShutdownCalled(k)];
        match plan.result {
          case Clean => info.SetState(k, Stopped);
          case Error(e) => firstErr := FirstOf(firstErr, ShutdownFailed(k, e));
          case Abandoned =>
            expired := true;
            firstErr := FirstOf(firstErr, ShutdownTimedOut(k));
        }
      }
    }

    /** shutdown: stop the first `n` modules in reverse order under one deadline. */
    method Shutdown(n: nat, plan: seq<StopPlan>) returns (firstErr: Option<StopError>)
      requires n <= |plan|
      modifies this, info.modules
      ensures log == old(log) + CallsDown(n, Cut(plan, n))
      ensures IsVerdict(plan, n, firstErr)
      ensures StatesAfterStop(plan, n, old(info.States()), info.States())
    {
      firstErr := None;
      var expired := false;
      var k: nat := n;
      ghost var calls: seq<Event> := [];
      PassStarts(plan, n);
      while k > 0
        invariant k <= n && log == old(log) + calls
        invariant PassInv(plan, n, k, Pass(expired, firstErr, calls))
        invariant |info.States()| == |old(info.States())|
        invariant forall i :: 0 <= i < |info.States()| ==>
          info.States()[i] == if k <= i < n && StopsClean(plan, n, i) then Stopped else old(info.States())[i]
      {
        k := k - 1;
        ghost var before := Pass(expired, firstErr, calls);
        PassStep(plan, n, k, before);
        CleanTurn(plan, n, k, before);
        TurnAppends(old(log), before, k, plan[k]);
        calls := Turn(before, k, plan[k]).calls;
        hide Turn, PassInv, StopsClean;
        expired, firstErr := ShutdownOne(k, plan[k], expired, firstErr);
      }
      PassEnds(plan, n, Pass(expired, firstErr, calls));
    }

    /** teardown: the same pass after a failed boot; errors are only logged. */
    method Teardown(n: nat, plan: seq<StopPlan>)
      requires n <= |plan|
      modifies this, info.modules
      ensures log == old(log) + CallsDown(n, Cut(plan, n))
      ensures StatesAfterStop(plan, n, old(info.States()), info.States())
    {
      var expired := false;
      var k: nat := n;
      while k > 0
        invariant k <= n
        invariant !expired ==> ReachedBefore(plan, n, k) && log == old(log) + CallsDown(n, k)
        invariant expired ==> k <= Cut(plan, n) && log == old(log) + CallsDown(n, Cut(plan, n))
        invariant |info.States()| == |old(info.States())|
        invariant forall i :: 0 <= i < |info.States()| ==>
          info.States()[i] == if k <= i < n && StopsClean(plan, n, i) then Stopped else old(info.States())[i]
      {
        k := k - 1;
        if !expired {
          CutReached(plan, n, k + 1);
        }
        expired := expired || plan[k].expiresBefore;
        if !expired {
          log := log + [ShutdownCalled(k)];
          assert CallsDown(n, k) == CallsDown(n, k + 1) + [ShutdownCalled(k)];
          if plan[k].result == Clean {
            info.SetState(k, Stopped);
          }
          expired := plan[k].result == Abandoned;
        }
      }
      if !expired {
        CutReached(plan, n, 0);
      }
    }

    /** LoadConfig, then Init, of one module. */
    method BootOne(i: nat, b: BootPlan) returns (err: Option<BootError>)
      modifies this
      ensures log == old(log) + CallsOf(b, i)
      ensures b.config == None ==> log == old(log) + [InitCalled(i)]
      ensures b.config == Some(None) ==> log == old(log) + [LoadCalled(i)] + [InitCalled(i)]
      ensures b.config.Some? && b.config.value.Some? ==> log == old(log) + [LoadCalled(i)]
      ensures err == if Boots(b) then None else Some(BootErrorOf(b, i))
    {
      if b.config.Some? {
        log := log + [LoadCalled(i)];
        if b.config.value.Some? {
          return Some(ConfigFailed(i, b.config.value.value));
        }
      }
      log := log + [InitCalled(i)];
      err := if b.init.Some? then Some(InitFailed(i, b.init.value)) else None;
    }

    /** initModules: load configuration and initialize in order; on the first failure
        the initialized prefix is torn down. */
    method InitModules(boots: seq<BootPlan>, plan: seq<StopPlan>)
      returns (initialized: nat, err: Option<BootError>)
      requires |plan| == |boots| == |info.States()|
      modifies this, info.modules
      ensures initialized <= |boots| && forall i :: 0 <= i < initialized ==> Boots(boots[i])
      ensures err.None? <==> initialized == |boots|
      ensures err.None? ==> log == old(log) + BootCalls(boots, |boots|)
      ensures err.None? ==> info.States() == seq(|boots|, _ => Initialized)
      ensures err.Some? ==>
        && !Boots(boots[initialized]) && err.value == BootErrorOf(boots[initialized], initialized)
        && log == old(log) + BootCalls(boots, initialized + 1) + CallsDown(initialized, Cut(plan, initialized))
        && StatesAfterStop(plan, initialized, StatesAtFailure(old(info.States()), initialized), info.States())
    {
      hide Boots, CallsOf, StatesAfterStop, CallsDown, Cut, BootErrorOf;
      initialized := 0;
      while initialized < |boots|
        invariant initialized <= |boots|
        invariant forall i :: 0 <= i < initialized ==> Boots(boots[i])
        invariant log == old(log) + BootCalls(boots, initialized)
        invariant |info.States()| == |old(info.States())|
        invariant forall i :: 0 <= i < |info.States()| ==>
          info.States()[i] == if i < initialized then Initialized else old(info.States())[i]
      {
        err := BootOne(initialized, boots[initialized]);
        if err.Some? {
          info.SetState(initialized, Failed);
          assert info.States() == StatesAtFailure(old(info.States()), initialized);
          Teardown(initialized, plan);
          return;
        }
        info.SetState(initialized, Initialized);
        initialized := initialized + 1;
      }
      err := None;
    }
  }

  ghost function BootErrorOf(b: BootPlan, i: nat): BootError
    requires !Boots(b)
  {
    if b.config.Some? && b.config.value.Some? then ConfigFailed(i, b.config.value.value)
    else InitFailed(i, b.init.value)
  }

  ghost function StatesAtFailure(before: seq<ModuleState>, f: nat): seq<ModuleState>
    requires f < |before|
  {
    seq(|before|, i requires 0 <= i < |before| => if i < f then Initialized else if i == f then Failed else before[i])
  }

  // ----- order of stopping -----

  /** In a pass over the first `n` modules of a sorted order, the calls made are each
      module at most once, a suffix of the prefix, dependents before their owners. */
  lemma DependentsStopFirst(
    mods: seq<ModuleDecl>, order: seq<nat>, plan: seq<StopPlan>, n: nat, dependent: nat, owner: nat)
    requires IsInitOrder(mods, order) && n <= |order| && |plan| == |order|
    requires dependent < n && owner < |order| && DependsOn(mods, order[dependent], order[owner])
    ensures
      var calls := CallsDown(n, Cut(plan, n));
      && owner < dependent
      && (ShutdownCalled(owner) in calls ==> ShutdownCalled(dependent) in calls)
      && (forall a, b ::
            0 <= a < |calls| && 0 <= b < |calls|
            && calls[a] == ShutdownCalled(dependent) && calls[b] == ShutdownCalled(owner)
            ==> a < b)
      && (forall a, b :: 0 <= a < b < |calls| ==> calls[a] != calls[b])
  {
    var calls := CallsDown(n, Cut(plan, n));
    if ShutdownCalled(owner) in calls {
      assert calls[n - 1 - dependent] == ShutdownCalled(dependent);
    }
  }

  /** While the deadline holds, every initialized module gets its Shutdown call. */
  lemma InTimeStopsAll(plan: seq<StopPlan>, n: nat)
    requires n <= |plan|
    ensures ReachedBefore(plan, n, 0) ==> Cut(plan, n) == 0
    ensures Cut(plan, n) == 0 ==> forall i :: 0 <= i < n ==> ShutdownCalled(i) in CallsDown(n, 0)
  {
    if ReachedBefore(plan, n, 0) {
      CutReached(plan, n, 0);
    }
    forall i | 0 <= i < n ensures ShutdownCalled(i) in CallsDown(n, 0) {
      assert CallsDown(n, 0)[n - 1 - i] == ShutdownCalled(i);
    }
  }

  /** Whenever a module's Init is called, the Init of every module it depends on was
      called before. */
  lemma {:induction false} OwnersBootFirst(
    mods: seq<ModuleDecl>, order: seq<nat>, boots: seq<BootPlan>, k: nat, dependent: nat, owner: nat)
    requires IsInitOrder(mods, order) && k <= |boots| == |order|
    requires forall i :: 0 <= i < k - 1 ==> Boots(boots[i])
    requires dependent < |order| && owner < |order| && DependsOn(mods, order[dependent], order[owner])
    requires InitCalled(dependent) in BootCalls(boots, k)
    ensures
      var calls := BootCalls(boots, k);
      exists a, b :: 0 <= a < b < |calls| && calls[a] == InitCalled(owner) && calls[b] == InitCalled(dependent)
  {
    var calls, before := BootCalls(boots, k), BootCalls(boots, k - 1);
    assert calls == before + CallsOf(boots[k - 1], k - 1);
    if InitCalled(dependent) in before {
      hide BootCalls, CallsOf, Boots, IsInitOrder, DependsOn;
      OwnersBootFirst(mods, order, boots, k - 1, dependent, owner);
      var a, b :| 0 <= a < b < |before| && before[a] == InitCalled(owner) && before[b] == InitCalled(dependent);
      assert calls[a] == InitCalled(owner) && calls[b] == InitCalled(dependent);
    } else {
      assert owner < dependent == k - 1;
      hide IsInitOrder, DependsOn;
      var a := BootCallAt(boots, k - 1, owner);
      assert calls[a] == before[a] == InitCalled(owner) && calls[|calls| - 1] == InitCalled(dependent);
    }
  }

  lemma {:induction false} BootCallAt(boots: seq<BootPlan>, k: nat, i: nat) returns (a: nat)
    requires i < k <= |boots| && forall j :: 0 <= j < k ==> Boots(boots[j])
    ensures a < |BootCalls(boots, k)| && BootCalls(boots, k)[a] == InitCalled(i)
  {
    if i == k - 1 {
      a := |BootCalls(boots, k)| - 1;
    } else {
      a := BootCallAt(boots, k - 1, i);
    }
  }
}
