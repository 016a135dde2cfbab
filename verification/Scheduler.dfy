/** Scheduled jobs and their reconciliation with reloaded configuration
    (pkg/workers/scheduler). */
module Scheduler {
  import opened Common

  /** One job declaration. `handler` names code-owned work; configuration never has one. */
  datatype JobSpec = JobSpec(
    schedule: string, timezone: string, jitter: int, overlap: string,
    switch: Option<bool>, handler: Option<nat>)
  {
    /** A missing switch means on. */
    predicate IsEnabled() {
      switch.None? || switch.value
    }

    /** A job that is to be registered. */
    predicate IsWanted() {
      IsEnabled() && handler.Some?
    }

    /** The non-zero fields of `o` win; the handler stays. */
    function OverlaidWith(o: JobSpec): JobSpec {
      JobSpec(
        if o.schedule != "" then o.schedule else schedule,
        if o.timezone != "" then o.timezone else timezone,
        if o.jitter != 0 then o.jitter else jitter,
        if o.overlap != "" then o.overlap else overlap,
        if o.switch.Some? then o.switch else switch,
        handler)
    }
  }

  const NO_SPEC := JobSpec("", "", 0, "", None, None)

  const EVERY_PREFIX := "@every"

  type Specs = map<string, JobSpec>

  predicate SpecChanged(a: JobSpec, b: JobSpec) {
    || a.schedule != b.schedule
    || a.timezone != b.timezone
    || a.jitter != b.jitter
    || a.overlap != b.overlap
    || a.IsEnabled() != b.IsEnabled()
  }

  ghost function Get<V>(m: map<string, V>, name: string): Option<V> {
    if name in m then Some(m[name]) else None
  }

  /** The declaration of a name that is in force, but for its switch: a configured field
      wins where it is set, and the handler is the one of the code. */
  ghost predicate FieldsInForce(code: Specs, overrides: Specs, name: string, spec: JobSpec) {
    var c := if name in code then code[name] else NO_SPEC;
    var o := if name in overrides then overrides[name] else NO_SPEC;
    && spec.schedule == (if o.schedule == "" then c.schedule else o.schedule)
    && spec.timezone == (if o.timezone == "" then c.timezone else o.timezone)
    && spec.jitter == (if o.jitter == 0 then c.jitter else o.jitter)
    && spec.overlap == (if o.overlap == "" then c.overlap else o.overlap)
    && spec.handler == c.handler
  }

  ghost predicate InForce(code: Specs, overrides: Specs, name: string, spec: JobSpec) {
    && FieldsInForce(code, overrides, name, spec)
    && spec.switch == if name in overrides && overrides[name].switch.Some? then overrides[name].switch
                      else if name in code then code[name].switch else None
  }

  /** Every declared name has the declaration in force, and there is no other. */
  ghost predicate IsMerge(code: Specs, overrides: Specs, merged: Specs) {
    && merged.Keys == code.Keys + overrides.Keys
    && forall name :: name in merged ==> InForce(code, overrides, name, merged[name])
  }

  lemma OverlayInForce(code: Specs, overrides: Specs, name: string)
    requires name in overrides
    ensures
      var base := if name in code then code[name] else NO_SPEC;
      InForce(code, overrides, name, base.OverlaidWith(overrides[name]))
  {
  }

  lemma CodeInForce(code: Specs, overrides: Specs)
    ensures forall name :: name in code && name !in overrides ==> InForce(code, overrides, name, code[name])
  {
  }

  /** MergedJobs: the overrides may be visited in any order. */
  method MergedJobs(code: Specs, overrides: Specs) returns (merged: Specs)
    ensures IsMerge(code, overrides, merged)
  {
    merged := code;
    var todo := overrides.Keys;
    CodeInForce(code, overrides);
    hide InForce;
    while todo != {}
      invariant todo <= overrides.Keys && merged.Keys == code.Keys + (overrides.Keys - todo)
      invariant forall name :: name in todo && name in code ==> merged[name] == code[name]
      invariant forall name :: name in merged && name !in todo ==> InForce(code, overrides, name, merged[name])
      decreases todo
    {
      var name :| name in todo;
      var base := if name in merged then merged[name] else NO_SPEC;
      OverlayInForce(code, overrides, name);
      merged := merged[name := base.OverlaidWith(overrides[name])];
      todo := todo - {name};
    }
  }

  // ----- what a reload aims at -----

  /** What the parsers make of schedules: the interval schedules whose duration does not
      parse, and the schedules, with their timezones, that the cron library rejects. */
  datatype Parsing = Parsing(unparsable: set<string>, rejected: set<(string, string)>) {
    /** There is no job definition. */
    predicate IsBadInterval(spec: JobSpec) {
      EVERY_PREFIX <= spec.schedule && spec.schedule in unparsable
    }

    /** There is one, and no job can be made of it. */
    predicate IsRejected(spec: JobSpec) {
      !IsBadInterval(spec) && (spec.schedule, spec.timezone) in rejected
    }
  }

  /** The same job, but for the handler. */
  ghost predicate SameJob(a: JobSpec, b: JobSpec) {
    && a.schedule == b.schedule && a.timezone == b.timezone && a.jitter == b.jitter && a.overlap == b.overlap
    && (a.switch == Some(false) <==> b.switch == Some(false))
  }

  /** What a name is bound to after a pass in which every cron call succeeded that could: a
      bad interval leaves the job as it was, a rejected schedule drops it. */
  ghost function Target(parsing: Parsing, live: Specs, desired: Specs, name: string): Option<JobSpec> {
    if name !in desired then None
    else if name in live && SameJob(live[name], desired[name]) then Some(live[name])
    else Registered(parsing, Get(live, name), desired[name])
  }

  /** What registering a job leaves under its name. */
  ghost function Registered(parsing: Parsing, before: Option<JobSpec>, spec: JobSpec): Option<JobSpec> {
    if !spec.IsWanted() then None
    else if parsing.IsBadInterval(spec) then before
    else if parsing.IsRejected(spec) then None
    else Some(spec)
  }

  lemma TargetMeans(parsing: Parsing, live: Specs, desired: Specs, name: string)
    requires name in desired
    ensures Target(parsing, live, desired, name) ==
      if name !in live || SpecChanged(live[name], desired[name]) then Registered(parsing, Get(live, name), desired[name])
      else Get(live, name)
  {
  }

  /** A job is to run: it has a handler in code, and neither the configuration nor, where
      that says nothing, the code switches it off. */
  ghost predicate IsOn(code: Specs, overrides: Specs, name: string) {
    && name in code && code[name].handler.Some?
    && if name in overrides && overrides[name].switch.Some? then overrides[name].switch.value
       else code[name].switch != Some(false)
  }

  /** It runs with the schedule, timezone, jitter and overlap in force, on the handler of
      its code declaration. */
  ghost predicate RunsAs(code: Specs, overrides: Specs, name: string, spec: JobSpec) {
    FieldsInForce(code, overrides, name, spec) && spec.switch != Some(false)
  }

  /** The registered jobs are those that are to run, as they are declared. */
  ghost predicate Converged(code: Specs, overrides: Specs, specs: Specs) {
    forall name ::
      && (name in specs <==> IsOn(code, overrides, name))
      && (name in specs ==> RunsAs(code, overrides, name, specs[name]))
  }

  /** The obstacles to converging when every cron call succeeds that can: a job that is to
      run is new or changed, and its schedule does not parse or is rejected. */
  ghost predicate IsStuck(
    parsing: Parsing, code: Specs, overrides: Specs, live: Specs, desired: Specs, name: string)
  {
    && name in desired && IsOn(code, overrides, name)
    && (parsing.IsBadInterval(desired[name]) || parsing.IsRejected(desired[name]))
    && (name in live ==> !RunsAs(code, overrides, name, live[name]))
  }

  predicate SchedulesParse(parsing: Parsing, desired: Specs) {
    forall name :: name in desired ==> !parsing.IsBadInterval(desired[name]) && !parsing.IsRejected(desired[name])
  }

  /** Registered jobs are enabled and carry the handler of their code declaration. */
  ghost predicate AllFromCode(code: Specs, specs: Specs) {
    forall name :: name in specs ==>
      specs[name].IsWanted() && name in code && specs[name].handler == code[name].handler
  }

  /** The merged declaration of a name says whether and how its job is to run. */
  lemma MergeMeans(code: Specs, overrides: Specs, desired: Specs, name: string)
    requires IsMerge(code, overrides, desired)
    ensures IsOn(code, overrides, name) <==> name in desired && desired[name].IsWanted()
    ensures name in desired ==> desired[name].handler == if name in code then code[name].handler else None
    ensures IsOn(code, overrides, name) ==>
      forall spec :: RunsAs(code, overrides, name, spec) <==>
        SameJob(spec, desired[name]) && spec.handler == desired[name].handler
  {
  }

  /** Reaching the targets is converging, exactly when nothing is stuck. */
  lemma TargetsConverge(parsing: Parsing, code: Specs, overrides: Specs, live: Specs, desired: Specs, specs: Specs)
    requires AllFromCode(code, live) && IsMerge(code, overrides, desired)
    requires forall name :: Get(specs, name) == Target(parsing, live, desired, name)
    ensures Converged(code, overrides, specs) <==>
      forall name :: !IsStuck(parsing, code, overrides, live, desired, name)
  {
    if forall name :: !IsStuck(parsing, code, overrides, live, desired, name) {
      forall name
        ensures name in specs <==> IsOn(code, overrides, name)
        ensures name in specs ==> RunsAs(code, overrides, name, specs[name])
      {
        assert !IsStuck(parsing, code, overrides, live, desired, name);
        assert Get(specs, name) == Target(parsing, live, desired, name);
        MergeMeans(code, overrides, desired, name);
      }
    } else {
      var name :| IsStuck(parsing, code, overrides, live, desired, name);
      MergeMeans(code, overrides, desired, name);
      assert Get(specs, name) == Target(parsing, live, desired, name);
      assert Get(specs, name) == Get(live, name) || Get(specs, name) == None;
    }
  }

  /** With exactly the wanted jobs registered, as merged, the jobs have converged. */
  lemma AllRegistered(code: Specs, overrides: Specs, desired: Specs, specs: Specs)
    requires IsMerge(code, overrides, desired)
    requires forall name ::
      Get(specs, name) == if name in desired && desired[name].IsWanted() then Some(desired[name]) else None
    ensures Converged(code, overrides, specs)
  {
    forall name
      ensures name in specs <==> IsOn(code, overrides, name)
      ensures name in specs ==> RunsAs(code, overrides, name, specs[name])
    {
      MergeMeans(code, overrides, desired, name);
      assert Get(specs, name) == if name in desired && desired[name].IsWanted() then Some(desired[name]) else None;
    }
  }

  /** Where the jobs have converged there is nothing to do. */
  lemma ConvergedIsDone(code: Specs, overrides: Specs, live: Specs, desired: Specs)
    requires AllFromCode(code, live) && IsMerge(code, overrides, desired) && Converged(code, overrides, live)
    ensures IsDone(live, desired)
  {
    forall name
      ensures name in live ==> name in desired
      ensures name in desired && (name !in live || SpecChanged(live[name], desired[name])) ==>
        !desired[name].IsWanted() && name !in live
    {
      MergeMeans(code, overrides, desired, name);
    }
  }

  /** Every live job is declared, and what is new or changed is neither wanted nor live. */
  ghost predicate IsDone(live: Specs, desired: Specs) {
    forall name ::
      && (name in live ==> name in desired)
      && (name in desired && (name !in live || SpecChanged(live[name], desired[name])) ==>
           !desired[name].IsWanted() && name !in live)
  }

  const OLD_JOB := JobSpec("@every 5m", "", 0, "", None, Some(1))

  /** An override of the schedule of job `j`. */
  function ScheduleOf(schedule: string): Specs {
    map["j" := NO_SPEC.(schedule := schedule)]
  }

  lemma MergeOfOne(schedule: string)
    requires schedule != ""
    ensures IsMerge(map["j" := OLD_JOB], ScheduleOf(schedule), map["j" := OLD_JOB.(schedule := schedule)])
  {
  }

  /** A live job whose interval is changed to one that does not parse stays as it was. */
  lemma BadIntervalKeepsJob()
    ensures
      var code, desired, parsing := map["j" := OLD_JOB], map["j" := OLD_JOB.(schedule := "@every x")], Parsing({"@every x"}, {});
      && AllFromCode(code, code) && IsMerge(code, ScheduleOf("@every x"), desired)
      && IsStuck(parsing, code, ScheduleOf("@every x"), code, desired, "j")
      && Target(parsing, code, desired, "j") == Some(OLD_JOB) && !Converged(code, ScheduleOf("@every x"), code)
  {
    var code, desired, parsing := map["j" := OLD_JOB], map["j" := OLD_JOB.(schedule := "@every x")], Parsing({"@every x"}, {});
    MergeOfOne("@every x");
    assert EVERY_PREFIX <= "@every x" && !SameJob(code["j"], desired["j"]);
    assert parsing.IsBadInterval(desired["j"]);
    MergeMeans(code, ScheduleOf("@every x"), desired, "j");
  }

  /** A live job whose schedule is changed to a crontab that is rejected is dropped. */
  lemma BadCrontabDropsJob()
    ensures
      var code, desired, parsing := map["j" := OLD_JOB], map["j" := OLD_JOB.(schedule := "x")], Parsing({}, {("x", "")});
      && AllFromCode(code, code) && IsMerge(code, ScheduleOf("x"), desired)
      && IsStuck(parsing, code, ScheduleOf("x"), code, desired, "j")
      && Target(parsing, code, desired, "j") == None && !Converged(code, ScheduleOf("x"), map[])
  {
    var code, desired, parsing := map["j" := OLD_JOB], map["j" := OLD_JOB.(schedule := "x")], Parsing({}, {("x", "")});
    MergeOfOne("x");
    assert !SameJob(code["j"], desired["j"]) && parsing.IsRejected(desired["j"]);
    MergeMeans(code, ScheduleOf("x"), desired, "j");
    assert desired["j"].IsWanted();
  }

  class Scheduler {
    const parsing: Parsing
    /** The cron library: its jobs, and how it was used so far. */
    var cron: map<nat, (string, JobSpec)>
    var nextId: nat
    var cronCalls: nat
    var cronFailures: nat

    var jobs: map<string, nat>
    var specs: Specs

    constructor (parsing: Parsing)
      ensures this.parsing == parsing && Valid() && specs == map[] && cronFailures == 0
    {
      this.parsing := parsing;
      cron, nextId, cronCalls, cronFailures := map[], 0, 0, 0;
      jobs, specs := map[], map[];
    }

    /** The cron jobs, the name table and the recorded specs are in bijection. */
    ghost predicate Valid()
      reads this
    {
      && jobs.Keys == specs.Keys
      && (forall name :: name in jobs ==> jobs[name] in cron && cron[jobs[name]] == (name, specs[name]))
      && (forall id :: id in cron ==> id < nextId && cron[id].0 in jobs && jobs[cron[id].0] == id)
    }

    /** Nothing about the registration of names other than `name` changed. */
    twostate predicate OnlyTouches(name: string)
      reads this
    {
      forall other :: other != name ==> Get(specs, other) == old(Get(specs, other))
    }

    // --- the cron library: any call may fail, and then changes nothing; a rejected
    // --- schedule is no failure of the library ---

    method CronRemove(id: nat) returns (ok: bool)
      requires id in cron
      modifies this`cron, this`cronCalls, this`cronFailures
      ensures cron == if ok then old(cron) - {id} else old(cron)
      ensures cronCalls == old(cronCalls) + 1
      ensures cronFailures == old(cronFailures) + if ok then 0 else 1
    {
      ok := *;
      cronCalls := cronCalls + 1;
      if ok {
        cron := cron - {id};
      } else {
        cronFailures := cronFailures + 1;
      }
    }

    method CronNew(name: string, spec: JobSpec) returns (ok: bool, id: nat)
      modifies this`cron, this`nextId, this`cronCalls, this`cronFailures
      ensures id == old(nextId) && nextId == old(nextId) + 1
      ensures cron == if ok then old(cron)[id := (name, spec)] else old(cron)
      ensures cronCalls == old(cronCalls) + 1
      ensures parsing.IsRejected(spec) ==> !ok
      ensures cronFailures == old(cronFailures) + if ok || parsing.IsRejected(spec) then 0 else 1
    {
      ok := *;
      ok := ok && !parsing.IsRejected(spec);
      id := nextId;
      nextId := nextId + 1;
      cronCalls := cronCalls + 1;
      if ok {
        cron := cron[id := (name, spec)];
      } else if !parsing.IsRejected(spec) {
        cronFailures := cronFailures + 1;
      }
    }

    /** removeLocked */
    method Remove(name: string) returns (ok: bool)
      requires Valid()
      modifies this
      ensures Valid() && specs == if ok then old(specs) - {name} else old(specs)
      ensures cronFailures == old(cronFailures) + if ok then 0 else 1
      ensures name !in old(specs) ==>
        ok && cronCalls == old(cronCalls) && cron == old(cron) && jobs == old(jobs) && specs == old(specs)
    {
      if name !in jobs {
        return true;
      }
      ok := CronRemove(jobs[name]);
      if ok {
        jobs := jobs - {name};
        specs := specs - {name};
      }
    }

    /** The second half of Register: make a job and record it. */
    method Add(name: string, spec: JobSpec) returns (ok: bool)
      requires Valid() && name !in specs
      modifies this
      ensures Valid() && specs == if ok then old(specs)[name := spec] else old(specs)
      ensures parsing.IsRejected(spec) ==> !ok
      ensures cronFailures == old(cronFailures) + if ok || parsing.IsRejected(spec) then 0 else 1
    {
      var id;
      ok, id := CronNew(name, spec);
      if ok {
        jobs := jobs[name := id];
        specs := specs[name := spec];
      }
    }

    /** Register: build or replace the job, or drop it if it is not wanted. */
    method Register(name: string, spec: JobSpec) returns (ok: bool)
      requires Valid()
      modifies this
      ensures Valid() && OnlyTouches(name)
      ensures cronFailures >= old(cronFailures)
      ensures cronFailures == old(cronFailures) ==> Get(specs, name) == Registered(parsing, old(Get(specs, name)), spec)
      ensures Get(specs, name) in {None, old(Get(specs, name)), Some(spec)}
      ensures Get(specs, name) == Some(spec) != old(Get(specs, name)) ==> spec.IsWanted()
      ensures !spec.IsWanted() && name !in old(specs) ==>
        cronCalls == old(cronCalls) && cron == old(cron) && jobs == old(jobs) && specs == old(specs)
      ensures ok <==> cronFailures == old(cronFailures)
                      && !(spec.IsWanted() && (parsing.IsBadInterval(spec) || parsing.IsRejected(spec)))
    {
      hide Valid;
      if !spec.IsEnabled() || spec.handler.None? {
        ok := Remove(name);
        return;
      }
      if parsing.IsBadInterval(spec) {
        return false;
      }
      ok := Remove(name);
      if !ok {
        return;
      }
      ok := Add(name, spec);
    }
  }

  class Module {
    const sched: Scheduler
    const codeJobs: Specs
    var overrides: Specs

    constructor (codeJobs: Specs, overrides: Specs, parsing: Parsing)
      ensures fresh(sched) && sched.Valid() && FromCode() && sched.specs == map[]
      ensures this.codeJobs == codeJobs && this.overrides == overrides
    {
      this.codeJobs := codeJobs;
      this.overrides := overrides;
      sched := new Scheduler(parsing);
    }

    /** Every registered job is enabled and carries the handler its code declaration has. */
    ghost predicate FromCode()
      reads this, sched
    {
      AllFromCode(codeJobs, sched.specs)
    }

    /** OnReload: diff the desired jobs against the live ones. `loaded` is the new
        configuration, or nothing if it does not load. */
    method OnReload(loaded: Option<Specs>) returns (ghost desired: Specs)
      requires sched.Valid() && FromCode()
      modifies this, sched
      ensures sched.Valid() && FromCode()
      ensures overrides == if loaded.Some? then loaded.value else old(overrides)
      ensures loaded.None? ==> sched.specs == old(sched.specs) && sched.cron == old(sched.cron)
      ensures loaded.Some? ==> IsMerge(codeJobs, overrides, desired)
      ensures loaded.Some? && sched.cronFailures == old(sched.cronFailures) ==>
        forall name :: Get(sched.specs, name) == Target(sched.parsing, old(sched.specs), desired, name)
      ensures loaded.Some? && sched.cronFailures == old(sched.cronFailures) ==>
        (Converged(codeJobs, overrides, sched.specs) <==>
          forall name :: !IsStuck(sched.parsing, codeJobs, overrides, old(sched.specs), desired, name))
      ensures sched.cronFailures >= old(sched.cronFailures)
      ensures loaded.Some? && Converged(codeJobs, overrides, old(sched.specs)) ==>
        && sched.cronCalls == old(sched.cronCalls) && sched.cron == old(sched.cron)
        && sched.jobs == old(sched.jobs) && sched.specs == old(sched.specs)
    {
      desired := map[];
      if loaded.None? {
        return;
      }
      overrides := loaded.value;
      var wanted := MergedJobs(codeJobs, overrides);
      desired := wanted;
      var live := sched.specs;
      forall name | name in wanted && wanted[name].IsWanted()
        ensures name in codeJobs && wanted[name].handler == codeJobs[name].handler
      {
        MergeMeans(codeJobs, overrides, wanted, name);
      }
      if Converged(codeJobs, overrides, live) {
        ConvergedIsDone(codeJobs, overrides, live, wanted);
      }
      RemoveStale(live, wanted);
      RegisterChanged(live, wanted);
      if sched.cronFailures == old(sched.cronFailures) {
        assert forall name :: Get(sched.specs, name) == Target(sched.parsing, live, wanted, name);
        TargetsConverge(sched.parsing, codeJobs, overrides, live, wanted, sched.specs);
      }
    }

    /** Init: register every merged job, stopping at the first error. */
    method Init() returns (ok: bool, ghost desired: Specs)
      requires sched.Valid() && FromCode() && sched.specs == map[]
      modifies sched
      ensures sched.Valid() && FromCode()
      ensures IsMerge(codeJobs, overrides, desired)
      ensures ok ==> Converged(codeJobs, overrides, sched.specs)
    {
      var wanted := MergedJobs(codeJobs, overrides);
      desired := wanted;
      var todo := wanted.Keys;
      hide Scheduler.Valid, FromCode, IsMerge, InForce, RunsAs, IsOn, SameJob;
      while todo != {}
        invariant todo <= wanted.Keys
        invariant sched.Valid() && FromCode()
        invariant forall name ::
          Get(sched.specs, name) ==
            if name in wanted && name !in todo && wanted[name].IsWanted() then Some(wanted[name]) else None
        decreases todo
      {
        var name :| name in todo;
        MergeMeans(codeJobs, overrides, wanted, name);
        ok := RegisterOne(name, wanted[name]);
        if !ok {
          return;
        }
        todo := todo - {name};
      }
      ok := true;
      AllRegistered(codeJobs, overrides, wanted, sched.specs);
    }

    /** Any number of reloads: whatever failed on the way, one clean last pass converges. */
    method ReloadMany(configs: seq<Specs>) returns (ghost desired: Specs, ghost failuresBeforeLast: nat)
      requires sched.Valid() && FromCode() && |configs| > 0
      modifies this, sched
      ensures sched.Valid() && FromCode() && overrides == configs[|configs| - 1]
      ensures IsMerge(codeJobs, configs[|configs| - 1], desired)
      ensures sched.cronFailures == failuresBeforeLast && SchedulesParse(sched.parsing, desired)
              ==> Converged(codeJobs, overrides, sched.specs)
    {
      var k := 0;
      desired, failuresBeforeLast := map[], 0;
      while k < |configs|
        invariant 0 <= k <= |configs|
        invariant sched.Valid() && FromCode()
        invariant k > 0 ==>
          && overrides == configs[k - 1] && IsMerge(codeJobs, configs[k - 1], desired)
          && (sched.cronFailures == failuresBeforeLast && SchedulesParse(sched.parsing, desired)
              ==> Converged(codeJobs, overrides, sched.specs))
      {
        failuresBeforeLast := sched.cronFailures;
        desired := OnReload(Some(configs[k]));
        k := k + 1;
      }
    }

    /** The first loop: drop live names that are no longer declared. */
    method RemoveStale(live: Specs, desired: Specs)
      requires sched.Valid() && FromCode() && sched.specs == live
      modifies sched
      ensures sched.Valid() && FromCode()
      ensures sched.cronFailures >= old(sched.cronFailures)
      ensures forall name :: name in desired ==> Get(sched.specs, name) == Get(live, name)
      ensures sched.cronFailures == old(sched.cronFailures) ==>
        forall name :: name !in desired ==> Get(sched.specs, name) == None
      ensures live.Keys <= desired.Keys ==>
        && sched.cronCalls == old(sched.cronCalls) && sched.cron == old(sched.cron)
        && sched.jobs == old(sched.jobs) && sched.specs == old(sched.specs)
    {
      hide Scheduler.Valid, FromCode;
      var todo := live.Keys;
      ghost var gone: set<string> := {};
      while todo != {}
        invariant todo <= live.Keys && gone <= live.Keys - todo - desired.Keys
        invariant sched.Valid() && FromCode() && sched.specs == live - gone
        invariant sched.cronFailures >= old(sched.cronFailures)
        invariant sched.cronFailures == old(sched.cronFailures) ==> gone == live.Keys - todo - desired.Keys
        invariant live.Keys <= desired.Keys ==>
          && sched.cronCalls == old(sched.cronCalls) && sched.cron == old(sched.cron)
          && sched.jobs == old(sched.jobs) && sched.specs == old(sched.specs)
        decreases todo
      {
        var name :| name in todo;
        todo := todo - {name};
        if name !in desired {
          RemoveOne(name);
          if name !in sched.specs {
            gone := gone + {name};
          }
        }
      }
    }

    method RemoveOne(name: string)
      requires sched.Valid() && FromCode()
      modifies sched
      ensures sched.Valid() && FromCode()
      ensures sched.cronFailures >= old(sched.cronFailures)
      ensures sched.specs == old(sched.specs) || sched.specs == old(sched.specs) - {name}
      ensures sched.cronFailures == old(sched.cronFailures) ==> name !in sched.specs
    {
      var _ := sched.Remove(name);
    }

    /** Wanted jobs are code jobs with their own handler. */
    ghost predicate KeepsHandlers(desired: Specs) {
      forall name :: name in desired && desired[name].IsWanted() ==>
        name in codeJobs && desired[name].handler == codeJobs[name].handler
    }

    /** The second loop: register what is new or changed. */
    method RegisterChanged(live: Specs, desired: Specs)
      requires sched.Valid() && FromCode() && KeepsHandlers(desired)
      requires forall name :: name in desired ==> Get(sched.specs, name) == Get(live, name)
      modifies sched
      ensures sched.Valid() && FromCode()
      ensures sched.cronFailures >= old(sched.cronFailures)
      ensures forall name :: name !in desired ==> Get(sched.specs, name) == old(Get(sched.specs, name))
      ensures sched.cronFailures == old(sched.cronFailures) ==>
        forall name :: name in desired ==> Get(sched.specs, name) == Target(sched.parsing, live, desired, name)
      ensures IsDone(live, desired) ==>
        && sched.cronCalls == old(sched.cronCalls) && sched.cron == old(sched.cron)
        && sched.jobs == old(sched.jobs) && sched.specs == old(sched.specs)
    {
      hide Scheduler.Valid, FromCode, Target, Registered, SpecChanged;
      var todo := desired.Keys;
      while todo != {}
        invariant todo <= desired.Keys
        invariant sched.Valid() && FromCode()
        invariant sched.cronFailures >= old(sched.cronFailures)
        invariant forall name :: name in todo ==> Get(sched.specs, name) == Get(live, name)
        invariant forall name :: name !in desired ==> Get(sched.specs, name) == old(Get(sched.specs, name))
        invariant sched.cronFailures == old(sched.cronFailures) ==>
          forall name :: name in desired && name !in todo ==>
            Get(sched.specs, name) == Target(sched.parsing, live, desired, name)
        invariant IsDone(live, desired) ==>
          && sched.cronCalls == old(sched.cronCalls) && sched.cron == old(sched.cron)
          && sched.jobs == old(sched.jobs) && sched.specs == old(sched.specs)
        decreases todo
      {
        var name :| name in todo;
        var spec := desired[name];
        assert Get(sched.specs, name) == Get(live, name);
        TargetMeans(sched.parsing, live, desired, name);
        if name !in live || SpecChanged(live[name], spec) {
          var _ := RegisterOne(name, spec);
        }
        todo := todo - {name};
      }
    }

    /** Register on behalf of a reload: the jobs still come from code. */
    method RegisterOne(name: string, spec: JobSpec) returns (ok: bool)
      requires sched.Valid() && FromCode()
      requires spec.IsWanted() ==> name in codeJobs && spec.handler == codeJobs[name].handler
      modifies sched
      ensures sched.Valid() && FromCode() && sched.OnlyTouches(name)
      ensures sched.cronFailures >= old(sched.cronFailures)
      ensures sched.cronFailures == old(sched.cronFailures) ==>
        Get(sched.specs, name) == Registered(sched.parsing, old(Get(sched.specs, name)), spec)
      ensures ok ==> sched.cronFailures == old(sched.cronFailures)
                     && !(spec.IsWanted() && (sched.parsing.IsBadInterval(spec) || sched.parsing.IsRejected(spec)))
      ensures !spec.IsWanted() && name !in old(sched.specs) ==>
        && sched.cronCalls == old(sched.cronCalls) && sched.cron == old(sched.cron)
        && sched.jobs == old(sched.jobs) && sched.specs == old(sched.specs)
    {
      ok := sched.Register(name, spec);
      forall other | other in sched.specs
        ensures sched.specs[other].IsWanted() && other in codeJobs
                && sched.specs[other].handler == codeJobs[other].handler
      {
        assert other != name ==> Get(sched.specs, other) == old(Get(sched.specs, other));
        assert other == name ==> Get(sched.specs, name) in {None, old(Get(sched.specs, name)), Some(spec)};
      }
    }
  }
}
