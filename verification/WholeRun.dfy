/** One run of the runtime from sorting to the last Shutdown, as a single log of the calls
    into modules (pkg/lakta/runtime.go). */
module WholeRun {
  import opened Common
  import opened ModuleSort
  import opened Lifecycle
  import opened RunMachine

  /** The calls that one action makes into modules. */
  function EventsOfOne(s: Run, a: Action): seq<Event>
    requires Enabled(s, a)
  {
    match a
    case AsyncEnter(i) => [StartAsyncCalled(i)]
    case SyncEnter(i) => [StartCalled(i)]
    case StopTurn =>
      if |s.calls| < |Apply(s, a).calls| then Apply(s, a).calls[|s.calls|..] else []
    case _ => []
  }

  function EventsOf(s: Run, acts: seq<Action>): seq<Event>
    requires Execute(s, acts).Some?
    decreases |acts|
  {
    if acts == [] then [] else EventsOfOne(s, acts[0]) + EventsOf(Apply(s, acts[0]), acts[1..])
  }

  /** The event happened before place `p` of the log. */
  ghost predicate Earlier(log: seq<Event>, p: nat, e: Event)
    requires p <= |log|
  {
    e in log[..p]
  }

  // ----- what a log must be like -----

  /** Inits come in order. */
  ghost predicate InitsInOrder(log: seq<Event>) {
    forall p, d: nat, o: nat :: 0 <= p < |log| && log[p] == InitCalled(d) && o < d ==> Earlier(log, p, InitCalled(o))
  }

  /** A module is started when all of the first `n` are initialized. */
  ghost predicate StartsAfterInits(log: seq<Event>, n: nat) {
    forall p, i: nat, o: nat ::
      0 <= p < |log| && (log[p] == StartCalled(i) || log[p] == StartAsyncCalled(i)) && o < n
      ==> Earlier(log, p, InitCalled(o))
  }

  /** A sync module is started when every async one was. */
  ghost predicate SyncAfterAsync(log: seq<Event>, kinds: seq<Kind>) {
    forall p, i: nat, j: nat ::
      0 <= p < |log| && log[p] == StartCalled(i) && j < |kinds| && kinds[j].isAsync
      ==> Earlier(log, p, StartAsyncCalled(j))
  }

  /** Among the first `n` modules a Shutdown follows the Init of the module and the
      Shutdowns of all later ones. */
  ghost predicate StopsInOrder(log: seq<Event>, n: nat) {
    forall p, o: nat :: 0 <= p < |log| && log[p] == ShutdownCalled(o) ==>
      && o < n && Earlier(log, p, InitCalled(o))
      && forall d: nat :: o < d < n ==> Earlier(log, p, ShutdownCalled(d))
  }

  /** The log respects the dependency graph, `booted` modules being initialized: wherever
      module `d` depends on `o`, `o` is initialized before `d`, before `d` is started, and
      shut down after `d`. */
  ghost predicate RespectsGraph(mods: seq<ModuleDecl>, order: seq<nat>, booted: nat, log: seq<Event>) {
    && (forall p, d: nat, o: nat ::
          0 <= p < |log| && Needs(mods, order, d, o) && log[p] in {InitCalled(d), StartCalled(d), StartAsyncCalled(d)}
          ==> Earlier(log, p, InitCalled(o)))
    && (forall p, d: nat, o: nat ::
          0 <= p < |log| && Needs(mods, order, d, o) && d < booted && log[p] == ShutdownCalled(o)
          ==> Earlier(log, p, ShutdownCalled(d)))
  }

  ghost predicate Needs(mods: seq<ModuleDecl>, order: seq<nat>, d: nat, o: nat) {
    d < |order| && o < |order| && DependsOn(mods, order[d], order[o])
  }

  lemma NeedsBefore(mods: seq<ModuleDecl>, order: seq<nat>, d: nat, o: nat)
    requires IsInitOrder(mods, order) && Needs(mods, order, d, o)
    ensures o < d < |order|
  {
  }

  /** No sync or async start. */
  ghost predicate NothingStarted(log: seq<Event>) {
    forall p, i: nat :: 0 <= p < |log| ==> log[p] != StartCalled(i) && log[p] != StartAsyncCalled(i)
  }

  /** For owner `o` and dependent `d` in sorted order. */
  lemma OrderedRespectsOne(log: seq<Event>, n: nat, booted: nat, p: nat, d: nat, o: nat)
    requires InitsInOrder(log) && StartsAfterInits(log, booted) && StopsInOrder(log, booted)
    requires o < d < n && booted <= n && (booted < n ==> NothingStarted(log)) && p < |log|
    ensures log[p] in {InitCalled(d), StartCalled(d), StartAsyncCalled(d)} ==> Earlier(log, p, InitCalled(o))
    ensures d < booted && log[p] == ShutdownCalled(o) ==> Earlier(log, p, ShutdownCalled(d))
  {
    hide Earlier;
  }

  lemma OrderedRespects(mods: seq<ModuleDecl>, order: seq<nat>, booted: nat, log: seq<Event>)
    requires IsInitOrder(mods, order) && booted <= |order|
    requires InitsInOrder(log) && StartsAfterInits(log, booted) && StopsInOrder(log, booted)
    requires booted < |order| ==> NothingStarted(log)
    ensures RespectsGraph(mods, order, booted, log)
  {
    hide IsInitOrder, Needs, Earlier, InitsInOrder, StartsAfterInits, StopsInOrder, NothingStarted;
    forall p, d: nat, o: nat | 0 <= p < |log| && Needs(mods, order, d, o)
      ensures log[p] in {InitCalled(d), StartCalled(d), StartAsyncCalled(d)} ==> Earlier(log, p, InitCalled(o))
      ensures d < booted && log[p] == ShutdownCalled(o) ==> Earlier(log, p, ShutdownCalled(d))
    {
      NeedsBefore(mods, order, d, o);
      OrderedRespectsOne(log, |order|, booted, p, d, o);
    }
  }

  // ----- the boot -----

  lemma EarlierStays(log: seq<Event>, more: seq<Event>, p: nat, e: Event)
    requires p <= |log|
    ensures Earlier(log + more, p, e) <==> Earlier(log, p, e)
  {
    assert (log + more)[..p] == log[..p];
  }

  /** Nothing but loads and inits. */
  ghost predicate IsBootOnly(log: seq<Event>) {
    forall p :: 0 <= p < |log| ==> log[p].LoadCalled? || log[p].InitCalled?
  }

  lemma BootCallsUnfold(boots: seq<BootPlan>, k: nat)
    requires k <= |boots|
    ensures BootCalls(boots, k) == if k == 0 then [] else BootCalls(boots, k - 1) + CallsOf(boots[k - 1], k - 1)
    ensures InitsInOrder([]) && IsBootOnly([])
  {
  }

  lemma CallsOfOne(b: BootPlan, k: nat)
    ensures forall e :: e in CallsOf(b, k) ==> e == LoadCalled(k) || e == InitCalled(k)
    ensures IsBootOnly(CallsOf(b, k)) && (Boots(b) ==> InitCalled(k) in CallsOf(b, k))
  {
  }

  lemma InEither(e: Event, a: seq<Event>, b: seq<Event>)
    requires e in a || e in b
    ensures e in a + b
  {
  }

  lemma {:induction false} InitsInBoot(boots: seq<BootPlan>, k: nat, o: nat)
    requires o < k <= |boots| && (o < k - 1 || Boots(boots[o])) && forall i :: 0 <= i < k - 1 ==> Boots(boots[i])
    ensures InitCalled(o) in BootCalls(boots, k)
  {
    hide BootCalls, CallsOf, Boots, IsBootOnly, InitsInOrder;
    BootCallsUnfold(boots, k);
    if o < k - 1 {
      InitsInBoot(boots, k - 1, o);
    } else {
      CallsOfOne(boots[k - 1], k - 1);
    }
    InEither(InitCalled(o), BootCalls(boots, k - 1), CallsOf(boots[k - 1], k - 1));
  }

  lemma {:induction false} BootCallsInOrder(boots: seq<BootPlan>, k: nat)
    requires k <= |boots| && forall i :: 0 <= i < k - 1 ==> Boots(boots[i])
    ensures InitsInOrder(BootCalls(boots, k)) && IsBootOnly(BootCalls(boots, k))
  {
    hide BootCalls, CallsOf, Boots, InitsInOrder, IsBootOnly;
    BootCallsUnfold(boots, k);
    if k > 0 {
      BootCallsInOrder(boots, k - 1);
      CallsOfOne(boots[k - 1], k - 1);
      forall o: nat | o < k - 1 ensures InitCalled(o) in BootCalls(boots, k - 1) {
        InitsInBoot(boots, k - 1, o);
      }
      NextInit(BootCalls(boots, k - 1), CallsOf(boots[k - 1], k - 1), k - 1);
      BootOnlyAppend(BootCalls(boots, k - 1), CallsOf(boots[k - 1], k - 1));
    }
  }

  lemma BootOnlyAppend(a: seq<Event>, b: seq<Event>)
    requires IsBootOnly(a) && IsBootOnly(b)
    ensures IsBootOnly(a + b)
  {
  }

  lemma NextInit(log: seq<Event>, last: seq<Event>, k: nat)
    requires InitsInOrder(log) && forall o: nat :: o < k ==> InitCalled(o) in log
    requires forall e :: e in last ==> e == LoadCalled(k) || e == InitCalled(k)
    ensures InitsInOrder(log + last)
  {
    var all := log + last;
    forall p, d: nat, o: nat | 0 <= p < |all| && all[p] == InitCalled(d) && o < d
      ensures Earlier(all, p, InitCalled(o))
    {
      if p < |log| {
        EarlierStays(log, last, p, InitCalled(o));
      } else {
        assert last[p - |log|] in last;
        assert log <= all[..p];
      }
    }
  }

  lemma ExtendInits(log: seq<Event>, more: seq<Event>)
    requires InitsInOrder(log) && forall e :: e in more ==> !e.InitCalled?
    ensures InitsInOrder(log + more)
  {
    assert forall k :: 0 <= k < |more| ==> !more[k].InitCalled?;
    forall p, d: nat, o: nat | 0 <= p < |log + more| && (log + more)[p] == InitCalled(d) && o < d
      ensures Earlier(log + more, p, InitCalled(o))
    {
      EarlierStays(log, more, if p < |log| then p else 0, InitCalled(o));
    }
  }

  lemma TeardownInOrder(boot: seq<Event>, f: nat, m: nat)
    requires IsBootOnly(boot) && m <= f && forall o: nat :: o < f ==> InitCalled(o) in boot
    ensures StopsInOrder(boot + CallsDown(f, m), f)
  {
    var log := boot + CallsDown(f, m);
    forall p, o: nat | 0 <= p < |log| && log[p] == ShutdownCalled(o)
      ensures o < f && Earlier(log, p, InitCalled(o))
      ensures forall d: nat :: o < d < f ==> Earlier(log, p, ShutdownCalled(d))
    {
      assert p >= |boot| && boot <= log[..p] && InitCalled(o) in boot;
      forall d: nat | o < d < f ensures Earlier(log, p, ShutdownCalled(d)) {
        assert log[..p][|boot| + (f - 1 - d)] == ShutdownCalled(d);
      }
    }
  }

  /** A boot that failed at module `f` and the teardown of those before it. */
  lemma FailedBootLog(boots: seq<BootPlan>, plan: seq<StopPlan>, f: nat)
    requires f < |boots| == |plan| && forall i :: 0 <= i < f ==> Boots(boots[i])
    ensures
      var log := BootCalls(boots, f + 1) + CallsDown(f, Cut(plan, f));
      InitsInOrder(log) && StopsInOrder(log, f)
      && NothingStarted(log)
  {
    hide BootCalls, Boots, Cut, InitsInOrder, StopsInOrder;
    BootCallsInOrder(boots, f + 1);
    forall o: nat | o < f ensures InitCalled(o) in BootCalls(boots, f + 1) {
      InitsInBoot(boots, f + 1, o);
    }
    ExtendInits(BootCalls(boots, f + 1), CallsDown(f, Cut(plan, f)));
    TeardownInOrder(BootCalls(boots, f + 1), f, Cut(plan, f));
  }

  // ----- the run after boot -----

  /** The log of a run that has come to state `s`. */
  ghost predicate LogOf(s: Run, log: seq<Event>) {
    var n := |s.kinds|;
    && InitsInOrder(log) && StartsAfterInits(log, n) && SyncAfterAsync(log, s.kinds) && StopsInOrder(log, n)
    && (forall o: nat :: o < n ==> InitCalled(o) in log)
    && (forall j: nat :: j < n && j < |s.async| && s.async[j] != Waiting ==> StartAsyncCalled(j) in log)
    && (forall e :: e in s.calls ==> e in log)
  }

  lemma BootIsLogged(kinds: seq<Kind>, stops: seq<StopPlan>, boots: seq<BootPlan>)
    requires |kinds| == |stops| == |boots| && forall i :: 0 <= i < |boots| ==> Boots(boots[i])
    ensures LogOf(Boot(kinds, stops), BootCalls(boots, |boots|))
  {
    hide BootCalls, Boots, InitsInOrder, StartsAfterInits, SyncAfterAsync, StopsInOrder, IsBootOnly;
    BootCallsInOrder(boots, |boots|);
    forall o: nat | o < |boots| ensures InitCalled(o) in BootCalls(boots, |boots|) {
      InitsInBoot(boots, |boots|, o);
    }
    BootOnlyLog(BootCalls(boots, |boots|), kinds);
  }

  lemma BootOnlyLog(log: seq<Event>, kinds: seq<Kind>)
    requires IsBootOnly(log)
    ensures StartsAfterInits(log, |kinds|) && SyncAfterAsync(log, kinds) && StopsInOrder(log, |kinds|)
  {
  }

  lemma ExtendStarts(log: seq<Event>, more: seq<Event>, kinds: seq<Kind>)
    requires StartsAfterInits(log, |kinds|) && SyncAfterAsync(log, kinds)
    requires forall o: nat :: o < |kinds| ==> InitCalled(o) in log
    requires (exists i :: StartCalled(i) in more) ==> forall j: nat :: j < |kinds| && kinds[j].isAsync ==> StartAsyncCalled(j) in log
    ensures StartsAfterInits(log + more, |kinds|) && SyncAfterAsync(log + more, kinds)
  {
    var all := log + more;
    forall p, e | 0 <= p < |all| && (if p < |log| then Earlier(log, p, e) else e in log) ensures Earlier(all, p, e) {
      if p < |log| {
        EarlierStays(log, more, p, e);
      } else {
        assert log <= all[..p];
      }
    }
    forall p, i: nat, o: nat | 0 <= p < |all| && (all[p] == StartCalled(i) || all[p] == StartAsyncCalled(i)) && o < |kinds|
      ensures Earlier(all, p, InitCalled(o))
    {
      assert p < |log| ==> all[p] == log[p] && Earlier(log, p, InitCalled(o));
    }
    forall p, i: nat, j: nat | 0 <= p < |all| && all[p] == StartCalled(i) && j < |kinds| && kinds[j].isAsync
      ensures Earlier(all, p, StartAsyncCalled(j))
    {
      assert p < |log| ==> all[p] == log[p] && Earlier(log, p, StartAsyncCalled(j));
      assert p >= |log| ==> all[p] == more[p - |log|] && StartCalled(i) in more;
    }
  }

  lemma ExtendStops(log: seq<Event>, more: seq<Event>, n: nat)
    requires StopsInOrder(log, n) && |more| <= 1
    requires forall o: nat :: ShutdownCalled(o) in more ==>
      o < n && InitCalled(o) in log && forall d: nat :: o < d < n ==> ShutdownCalled(d) in log
    ensures StopsInOrder(log + more, n)
  {
    var all := log + more;
    forall p, o: nat | 0 <= p < |all| && all[p] == ShutdownCalled(o)
      ensures o < n && Earlier(all, p, InitCalled(o))
      ensures forall d: nat :: o < d < n ==> Earlier(all, p, ShutdownCalled(d))
    {
      if p < |log| {
        assert log[p] == ShutdownCalled(o) && all[..p] == log[..p];
      } else {
        assert more[p - |log|] in more;
        assert all[..p] == log;
      }
    }
  }

  lemma TurnCalls(p: Pass, k: nat, plan: StopPlan)
    ensures var calls := Turn(p, k, plan).calls;
            calls == p.calls || (calls == p.calls + [ShutdownCalled(k)] && !p.expired)
  {
  }

  lemma StopTurnEvents(s: Run)
    requires Inv(s) && Enabled(s, StopTurn)
    ensures
      var k, p := s.phase.next - 1, s.phase.pass;
      var calls := Turn(p, k, s.stops[k]).calls;
      && PassInv(s.stops, |s.kinds|, k + 1, p) && s.calls == p.calls && Apply(s, StopTurn).calls == calls
      && EventsOfOne(s, StopTurn) == if |s.calls| < |calls| then calls[|s.calls|..] else []
  {
    hide Shape, FirstExit, Turn, PassInv;
  }

  /** One turn of the stop pass calls at most the next module in reverse order. */
  lemma StopTurnCalls(s: Run)
    requires Inv(s) && Enabled(s, StopTurn)
    ensures
      var k, more := s.phase.next - 1, EventsOfOne(s, StopTurn);
      && (more == [] || more == [ShutdownCalled(k)]) && k < |s.kinds|
      && Apply(s, StopTurn).calls == s.calls + more
      && (more != [] ==> forall d: nat :: k < d < |s.kinds| ==> ShutdownCalled(d) in s.calls)
  {
    var n, k, p := |s.kinds|, s.phase.next - 1, s.phase.pass;
    hide Turn, EventsOfOne, Inv, Apply;
    StopTurnEvents(s);
    TurnCalls(p, k, s.stops[k]);
    if !p.expired {
      CalledSoFar(s.stops, n, k + 1, p);
    }
    assert k + 1 <= n;
    hide PassInv;
  }

  /** A pass in time has called all modules it is past. */
  lemma CalledSoFar(plan: seq<StopPlan>, n: nat, k: nat, p: Pass)
    requires PassInv(plan, n, k, p) && !p.expired
    ensures forall d: nat :: k <= d < n ==> ShutdownCalled(d) in p.calls
  {
    forall d: nat | k <= d < n ensures ShutdownCalled(d) in p.calls {
      assert CallsDown(n, k)[n - 1 - d] == ShutdownCalled(d);
    }
  }

  lemma AsyncIsLogged(s: Run, a: Action, log: seq<Event>)
    requires Inv(s) && LogOf(s, log) && Enabled(s, a)
    ensures forall j: nat :: j < |s.kinds| && j < |Apply(s, a).async| && Apply(s, a).async[j] != Waiting ==>
      StartAsyncCalled(j) in log + EventsOfOne(s, a)
  {
    hide Turn, Inv;
  }

  /** A sync Start finds every StartAsync called. */
  lemma SyncFindsAsync(s: Run, a: Action, log: seq<Event>)
    requires Inv(s) && LogOf(s, log) && Enabled(s, a) && a.SyncEnter?
    ensures forall j: nat :: j < |s.kinds| && s.kinds[j].isAsync ==> StartAsyncCalled(j) in log
  {
    hide FirstExit, OnePass;
  }

  /** What one action adds to the log, and what has gone before. */
  ghost predicate FollowsOn(s: Run, more: seq<Event>, log: seq<Event>) {
    var n := |s.kinds|;
    && |more| <= 1 && (forall e :: e in more ==> !e.InitCalled?)
    && ((exists i :: StartCalled(i) in more) ==>
          forall j: nat :: j < n && s.kinds[j].isAsync ==> StartAsyncCalled(j) in log)
    && (forall o: nat :: ShutdownCalled(o) in more ==> o < n && forall d: nat :: o < d < n ==> ShutdownCalled(d) in log)
  }

  lemma StopFollowsOn(s: Run, log: seq<Event>)
    requires Inv(s) && Enabled(s, StopTurn) && forall e :: e in s.calls ==> e in log
    ensures FollowsOn(s, EventsOfOne(s, StopTurn), log)
    ensures forall e :: e in Apply(s, StopTurn).calls ==> e in s.calls || e in EventsOfOne(s, StopTurn)
  {
    StopTurnCalls(s);
    hide Inv, Apply, Enabled, EventsOfOne;
  }

  lemma ActionFollowsOn(s: Run, a: Action, log: seq<Event>)
    requires Inv(s) && LogOf(s, log) && Enabled(s, a)
    ensures FollowsOn(s, EventsOfOne(s, a), log)
    ensures forall e :: e in Apply(s, a).calls ==> e in s.calls || e in EventsOfOne(s, a)
  {
    assert forall e :: e in s.calls ==> e in log;
    hide Inv, Apply, Enabled, EventsOfOne, LogOf;
    if a == StopTurn {
      StopFollowsOn(s, log);
    } else {
      CallsStay(s, a);
      if a.SyncEnter? {
        SyncFindsAsync(s, a, log);
      }
    }
  }

  lemma StepIsLogged(s: Run, a: Action, log: seq<Event>)
    requires Inv(s) && LogOf(s, log) && Enabled(s, a)
    ensures LogOf(Apply(s, a), log + EventsOfOne(s, a))
  {
    hide Inv, Apply, Enabled, EventsOfOne, InitsInOrder, StartsAfterInits, SyncAfterAsync, StopsInOrder;
    var more := EventsOfOne(s, a);
    KindsStayOnce(s, a);
    AsyncIsLogged(s, a, log);
    ActionFollowsOn(s, a, log);
    ExtendInits(log, more);
    ExtendStarts(log, more, s.kinds);
    ExtendStops(log, more, |s.kinds|);
  }

  lemma CallsStay(s: Run, a: Action)
    requires Enabled(s, a) && a != StopTurn
    ensures Apply(s, a).calls == s.calls
    ensures EventsOfOne(s, a) ==
      if a.AsyncEnter? then [StartAsyncCalled(a.i)] else if a.SyncEnter? then [StartCalled(a.i)] else []
  {
    hide Turn;
  }

  lemma EventsOfFirst(s: Run, acts: seq<Action>)
    requires acts != [] && Execute(s, acts).Some?
    ensures Enabled(s, acts[0]) && Execute(Apply(s, acts[0]), acts[1..]) == Execute(s, acts)
    ensures EventsOf(s, acts) == EventsOfOne(s, acts[0]) + EventsOf(Apply(s, acts[0]), acts[1..])
  {
    hide EventsOfOne, Apply, Enabled;
  }

  lemma Grouped(a: seq<Event>, b: seq<Event>, c: seq<Event>)
    ensures a + (b + c) == (a + b) + c
  {
  }

  lemma {:induction false} RunIsLogged(s: Run, acts: seq<Action>, t: Run, log: seq<Event>)
    requires Inv(s) && LogOf(s, log) && Leads(s, acts, t)
    ensures LogOf(t, log + EventsOf(s, acts)) && t.kinds == s.kinds
    decreases |acts|
  {
    if acts == [] {
      assert log + [] == log;
    } else {
      hide Inv, LogOf, EventsOfOne, EventsOf, Execute, Apply, Enabled;
      EventsOfFirst(s, acts);
      StepIsLogged(s, acts[0], log);
      InvStep(s, acts[0]);
      KindsStayOnce(s, acts[0]);
      var more := EventsOfOne(s, acts[0]);
      RunIsLogged(Apply(s, acts[0]), acts[1..], t, log + more);
      Grouped(log, more, EventsOf(Apply(s, acts[0]), acts[1..]));
    }
  }

  // ----- sorting, booting and running -----

  lemma FailedBootRespects(mods: seq<ModuleDecl>, order: seq<nat>, boots: seq<BootPlan>, plan: seq<StopPlan>, f: nat)
    requires IsInitOrder(mods, order) && f < |boots| == |plan| == |order|
    requires forall i :: 0 <= i < f ==> Boots(boots[i])
    ensures RespectsGraph(mods, order, f, BootCalls(boots, f + 1) + CallsDown(f, Cut(plan, f)))
  {
    hide IsInitOrder, RespectsGraph, InitsInOrder, StopsInOrder;
    FailedBootLog(boots, plan, f);
    OrderedRespects(mods, order, f, BootCalls(boots, f + 1) + CallsDown(f, Cut(plan, f)));
  }

  lemma RunRespects(
    mods: seq<ModuleDecl>, order: seq<nat>, boots: seq<BootPlan>, kinds: seq<Kind>, stops: seq<StopPlan>, acts: seq<Action>)
    requires IsInitOrder(mods, order) && |order| == |boots| == |kinds| == |stops|
    requires (forall i :: 0 <= i < |boots| ==> Boots(boots[i])) && Execute(Boot(kinds, stops), acts).Some?
    ensures
      var log := BootCalls(boots, |boots|) + EventsOf(Boot(kinds, stops), acts);
      RespectsGraph(mods, order, |order|, log) && SyncAfterAsync(log, kinds)
  {
    var s, t := Boot(kinds, stops), Execute(Boot(kinds, stops), acts).value;
    BootInv(kinds, stops);
    BootIsLogged(kinds, stops, boots);
    RunIsLogged(s, acts, t, BootCalls(boots, |boots|));
    hide IsInitOrder, RespectsGraph, Inv;
    OrderedRespects(mods, order, |order|, BootCalls(boots, |boots|) + EventsOf(s, acts));
  }

  /** The modules are listed in an initialization order, and the log respects the graph. */
  ghost predicate IsRespectful(
    mods: seq<ModuleDecl>, sorted: seq<ModuleDecl>, meta: seq<ModuleMeta>, booted: nat, log: seq<Event>)
  {
    exists order ::
      IsTheOrder(mods, order) && Lists(mods, order, sorted, meta) && RespectsGraph(mods, order, booted, log)
  }

  lemma OrderLength(mods: seq<ModuleDecl>, order: seq<nat>)
    requires IsInitOrder(mods, order)
    ensures |order| == |mods|
  {
  }

  /** RunContext as a whole, for any schedule of the run after boot: when the declarations
      cannot be sorted no module is called; otherwise every call made, up to a failed boot
      and its teardown or to wherever the run has come, respects the dependency graph. */
  method RunApp(
    mods: seq<ModuleDecl>, lists: seq<array<string>>, boots: seq<BootPlan>, kinds: seq<Kind>, stops: seq<StopPlan>,
    acts: seq<Action>)
    returns (r: SortResult, booted: nat, log: seq<Event>)
    requires |mods| == |lists| == |boots| == |kinds| == |stops|
    requires Execute(Boot(kinds, stops), acts).Some?
    ensures !r.Sorted? ==> log == []
    ensures r.UnmetDependency? <==> exists i: nat, t :: IsMissing(mods, i, t)
    ensures r.Sorted? ==> IsRespectful(mods, r.modules, r.meta, booted, log)
    ensures r.Sorted? ==> booted <= |mods| && forall i :: 0 <= i < booted ==> Boots(boots[i])
    ensures r.Sorted? && booted < |mods| ==> !Boots(boots[booted])
    ensures r.Sorted? && booted == |mods| ==>
      SyncAfterAsync(log, kinds) && log == BootCalls(boots, |boots|) + EventsOf(Boot(kinds, stops), acts)
  {
    hide IsInitOrder, RespectsGraph, IsMissing, SyncAfterAsync, CallsDown, Cut, StatesAfterStop, Lists, Boots, BootCalls, EventsOf;
    log, booted := [], 0;
    r := SortModules(mods);
    if !r.Sorted? {
      return;
    }
    ghost var order :| IsTheOrder(mods, order) && Lists(mods, order, r.modules, r.meta);
    OrderLength(mods, order);
    var runtime := new Runtime(lists);
    var err;
    booted, err := runtime.InitModules(boots, stops);
    log := runtime.log;
    if err.Some? {
      FailedBootRespects(mods, order, boots, stops, booted);
      assert log == BootCalls(boots, booted + 1) + CallsDown(booted, Cut(stops, booted));
    } else {
      RunRespects(mods, order, boots, kinds, stops, acts);
      assert log == BootCalls(boots, |boots|);
      log := log + EventsOf(Boot(kinds, stops), acts);
    }
    assert RespectsGraph(mods, order, booted, log);
  }
}
