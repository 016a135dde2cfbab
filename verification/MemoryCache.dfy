/** The in-memory cache module: declared caches built on first use and reconciled with
    every reloaded configuration (pkg/cache/memory/module.go, pkg/cache/memory/config.go). */
module MemoryCache {
  import opened Common
  import opened CacheRegistry

  type Specs = map<string, Spec>

  /** A configured cache is declared as configured, one that is only registered in code as
      it is there, and no other name is declared. */
  ghost predicate Overlays(code: Specs, configured: Specs, specs: Specs) {
    && (forall n :: n in specs <==> n in code || n in configured)
    && (forall n :: n in configured ==> n in specs && specs[n] == configured[n])
    && (forall n :: n in code && n !in configured ==> n in specs && specs[n] == code[n])
  }

  /** MergedCaches: a configured cache replaces one of the same name registered in code. */
  function MergedCaches(code: Specs, configured: Specs): (merged: Specs)
    ensures Overlays(code, configured, merged)
  {
    code + configured
  }

  /** onlyMaxSizeChanged */
  predicate OnlyMaxSizeChanged(a: Spec, b: Spec) {
    a.maxSize != b.maxSize && a.ttl == b.ttl && a.ttlAccess == b.ttlAccess && a.recordStats == b.recordStats
  }

  /** A change that is made without dropping entries. */
  predicate Resizable(a: Spec, b: Spec) {
    SameButSize(a, b) && a.maxSize != b.maxSize && b.maxSize > 0
  }

  predicate SameButSize(a: Spec, b: Spec) {
    a.ttl == b.ttl && a.ttlAccess == b.ttlAccess && a.recordStats == b.recordStats
  }

  // ----- one cache across reloads -----

  /** A built cache as a reload finds or leaves it. */
  datatype Built = Built(spec: Spec, oc: Otter)

  /** What a reload leaves of a built cache declared before and after it. */
  function Reloaded(b: Built, was: Spec, now: Spec, builds: bool): Built {
    if was == now then b
    else if Resizable(was, now) then Built(now, b.oc.(limits := b.oc.limits.(maximum := Some(now.maxSize))))
    else if builds then Built(now, Otter(b.oc.id + 1, LimitsOf(now), map[]))
    else b
  }

  /** The cache has the declared spec, and the otter cache its limits. */
  predicate InSync(b: Built, spec: Spec) {
    b.spec == spec && b.oc.limits == LimitsOf(spec)
  }

  /** A cache in step with its declaration stays in step exactly when nothing has to be
      rebuilt or the rebuild succeeds. */
  lemma StaysInSyncIff(b: Built, was: Spec, now: Spec, builds: bool)
    requires InSync(b, was)
    ensures InSync(Reloaded(b, was, now, builds), now) <==> was == now || Resizable(was, now) || builds
  {
  }

  /** The next declaration of a cache, and whether a build would succeed then. */
  datatype Change = Change(spec: Spec, builds: bool)

  /** The declaration that the i-th change replaces. */
  function Before(was: Spec, changes: seq<Change>, i: nat): Spec
    requires i <= |changes|
  {
    if i == 0 then was else changes[i - 1].spec
  }

  function Last(was: Spec, changes: seq<Change>): Spec {
    Before(was, changes, |changes|)
  }

  /** The same cache through a sequence of declarations. */
  function ReloadedMany(b: Built, was: Spec, changes: seq<Change>): Built {
    if changes == [] then b
    else
      var n := |changes| - 1;
      Reloaded(ReloadedMany(b, was, changes[..n]), Before(was, changes, n), changes[n].spec, changes[n].builds)
  }

  /** The i-th change leaves the cache its entries: nothing changes, only the size changes
      to a positive one, or the rebuild fails. */
  predicate Keeps(was: Spec, changes: seq<Change>, i: nat)
    requires i < |changes|
  {
    var before, now := Before(was, changes, i), changes[i].spec;
    before == now || Resizable(before, now) || !changes[i].builds
  }

  predicate KeepsAll(was: Spec, changes: seq<Change>) {
    forall i :: 0 <= i < |changes| ==> Keeps(was, changes, i)
  }

  /** Over any sequence of declarations a cache keeps its entries, in the same otter cache,
      exactly when every single change leaves them; otherwise it starts over empty. */
  lemma {:induction false} KeepsEntriesIff(b: Built, was: Spec, changes: seq<Change>)
    ensures ReloadedMany(b, was, changes).oc.id >= b.oc.id
    ensures ReloadedMany(b, was, changes).oc.id == b.oc.id <==> KeepsAll(was, changes)
    ensures ReloadedMany(b, was, changes).oc.contents == if KeepsAll(was, changes) then b.oc.contents else map[]
  {
    if changes != [] {
      var n := |changes| - 1;
      KeepsEntriesIff(b, was, changes[..n]);
      forall i | 0 <= i < n ensures Keeps(was, changes[..n], i) <==> Keeps(was, changes, i) {
      }
      assert KeepsAll(was, changes) <==> KeepsAll(was, changes[..n]) && Keeps(was, changes, n);
    }
  }

  /** With builds that succeed, a cache is in step with its declaration after any
      sequence of declarations. */
  lemma {:induction false} ConvergesAlways(b: Built, was: Spec, changes: seq<Change>)
    requires InSync(b, was) && forall i :: 0 <= i < |changes| ==> changes[i].builds
    ensures InSync(ReloadedMany(b, was, changes), Last(was, changes))
  {
    if changes != [] {
      var n := |changes| - 1;
      ConvergesAlways(b, was, changes[..n]);
      StaysInSyncIff(ReloadedMany(b, was, changes[..n]), Before(was, changes, n), changes[n].spec, true);
    }
  }

  /** A rebuild that failed is not made up for: as long as the declaration then stays or only
      changes to other positive sizes, the cache keeps the entries, expiry and statistics it
      had. */
  lemma {:induction false} FailedRebuildStays(b: Built, was: Spec, changes: seq<Change>)
    requires changes != [] && !changes[0].builds
    requires forall i :: 0 < i < |changes| ==>
      && SameButSize(changes[0].spec, changes[i].spec)
      && (changes[i].spec == changes[i - 1].spec || changes[i].spec.maxSize > 0)
    ensures
      var r := ReloadedMany(b, was, changes);
      && r.oc.id == b.oc.id && r.oc.contents == b.oc.contents
      && r.oc.limits.expiry == b.oc.limits.expiry && r.oc.limits.stats == b.oc.limits.stats
  {
    var n := |changes| - 1;
    if n > 0 {
      FailedRebuildStays(b, was, changes[..n]);
      assert Before(was, changes, n) == changes[n - 1].spec;
    }
  }

  /** The declaration the present otter cache was built for. */
  function BuiltFor(was: Spec, changes: seq<Change>): Spec {
    if changes == [] then was
    else
      var n := |changes| - 1;
      if Keeps(was, changes, n) then BuiltFor(was, changes[..n]) else changes[n].spec
  }

  /** The declaration last put into effect, by building or by resizing. */
  function AppliedLast(was: Spec, changes: seq<Change>): Spec {
    if changes == [] then was
    else
      var n := |changes| - 1;
      var before, now := Before(was, changes, n), changes[n].spec;
      if before != now && (Resizable(before, now) || changes[n].builds) then now else AppliedLast(was, changes[..n])
  }

  /** Whatever rebuilds failed on the way: a cache that was in step is in step again exactly
      when its declaration is the one last put into effect, and its otter cache was built
      for the same expiry and statistics. */
  lemma {:induction false} InSyncAfterIff(b: Built, was: Spec, changes: seq<Change>)
    requires InSync(b, was)
    ensures
      var r, built, applied := ReloadedMany(b, was, changes), BuiltFor(was, changes), AppliedLast(was, changes);
      && r.spec == applied && r.oc.limits == LimitsOf(built).(maximum := LimitsOf(applied).maximum)
      && (InSync(r, Last(was, changes)) <==>
          && applied == Last(was, changes)
          && LimitsOf(built).expiry == LimitsOf(applied).expiry && LimitsOf(built).stats == LimitsOf(applied).stats)
  {
    if changes != [] {
      InSyncAfterIff(b, was, changes[..|changes| - 1]);
    }
  }

  // ----- the module -----

  ghost predicate IsSound(b: Box)
    reads b
  {
    b.running == {b.oc.id} && b.Typed()
  }

  ghost function BuiltOf(b: Box): Built
    reads b
  {
    Built(b.spec, b.oc)
  }

  /** All that a box holds and runs. */
  datatype Record = Record(spec: Spec, oc: Otter, running: set<nat>)

  ghost function RecordsOf(boxes: map<string, Box>): (records: map<string, Record>)
    reads boxes.Values
  {
    map n | n in boxes :: Record(boxes[n].spec, boxes[n].oc, boxes[n].running)
  }

  lemma RecordNames(boxes: map<string, Box>)
    ensures RecordsOf(boxes).Keys == boxes.Keys
  {
  }

  /** Its current otter cache is stopped. */
  ghost function Stopped(r: Record): Record {
    r.(running := r.running - {r.oc.id})
  }

  ghost function StoppedIn(records: map<string, Record>, names: set<string>): map<string, Record> {
    map n | n in records :: if n in names then Stopped(records[n]) else records[n]
  }

  lemma NoneStopped(records: map<string, Record>)
    ensures StoppedIn(records, {}) == records
  {
  }

  lemma OneStopped(records: map<string, Record>, names: set<string>, name: string)
    requires name !in names
    ensures
      var before := StoppedIn(records, names);
      && before.Keys == records.Keys
      && StoppedIn(records, names + {name}) == if name in records then before[name := Stopped(before[name])] else before
  {
  }

  lemma RemoveOneMore<V>(m: map<string, V>, gone: set<string>, name: string)
    ensures (m - gone) - {name} == m - (gone + {name})
  {
  }

  ghost predicate SharesNone(boxes: map<string, Box>) {
    forall n, k :: n in boxes && k in boxes && n != k ==> boxes[n] != boxes[k]
  }

  method StopOne(name: string, box: Box, ghost boxes: map<string, Box>)
    requires name in boxes && boxes[name] == box && SharesNone(boxes)
    modifies box
    ensures name in old(RecordsOf(boxes))
    ensures RecordsOf(boxes) == old(RecordsOf(boxes))[name := Stopped(old(RecordsOf(boxes))[name])]
  {
    ghost var before := RecordsOf(boxes);
    box.Stop();
    assert forall n :: n in boxes && n != name ==> boxes[n] != box;
    assert RecordsOf(boxes) == before[name := Stopped(before[name])];
  }

  class Module {
    const registry: Registry
    const codeCaches: Specs
    var specs: Specs
    var live: map<string, Box>

    /** The registry knows exactly these names, and the built ones are bound to their boxes. */
    ghost predicate LinkedTo(names: set<string>)
      reads this`live, registry
    {
      && registry.Valid() && registry.entries.Keys == names
      && (forall n :: n in live <==> registry.IsBound(n))
      && (forall n :: n in live ==> registry.IsBound(n) && registry.entries[n].typed.box == live[n])
    }

    /** The registry names are the declared ones. */
    ghost predicate Linked()
      reads this, registry
    {
      LinkedTo(specs.Keys)
    }

    /** Every live box runs its current otter cache and no other, and holds only what fits
        its types. */
    ghost predicate Sound()
      reads this`live, live.Values
    {
      forall n :: n in live ==> IsSound(live[n])
    }

    ghost predicate Valid()
      reads this, registry, live.Values
    {
      Linked() && Sound()
    }

    /** Init */
    constructor (codeCaches: Specs, configured: Specs)
      ensures Valid() && fresh(registry)
      ensures this.codeCaches == codeCaches && Overlays(codeCaches, configured, specs) && live == map[]
    {
      this.codeCaches, specs, live := codeCaches, MergedCaches(codeCaches, configured), map[];
      registry := new Registry();
      new;
      var todo := specs.Keys;
      while todo != {}
        invariant specs == MergedCaches(codeCaches, configured) && live == map[]
        invariant todo <= specs.Keys && registry.Valid()
        invariant registry.entries.Keys == specs.Keys - todo
        invariant forall n :: n in registry.entries ==> registry.entries[n] == Unbound
        decreases todo
      {
        var name :| name in todo;
        registry.Register(name);
        todo := todo - {name};
      }
    }

    /** buildBox: the cache is built from its present declaration and recorded. */
    method BuildBox(name: string, keyType: TypeId, valType: TypeId) returns (box: Box)
      requires name in specs
      modifies this`live
      ensures fresh(box) && live == old(live)[name := box]
      ensures box.keyType == keyType && box.valType == valType
      ensures InSync(BuiltOf(box), specs[name]) && IsSound(box)
    {
      box := new Box(specs[name], keyType, valType);
      live := live[name := box];
    }

    /** The first use of a declared cache. */
    method FirstUse(name: string, keyType: TypeId, valType: TypeId) returns (r: Result<Handle, NamedError>)
      requires Linked() && registry.NeedsBuild(name)
      modifies this`live, registry
      ensures Linked() && r.Ok? && r.value.keyType == keyType && r.value.valType == valType
      ensures fresh(r.value.box) && live == old(live)[name := r.value.box]
      ensures InSync(BuiltOf(r.value.box), specs[name]) && IsSound(r.value.box)
    {
      hide InSync, IsSound, BuiltOf;
      var box := BuildBox(name, keyType, valType);
      r := registry.Named(name, keyType, valType, Some(box));
      forall n ensures n in live <==> registry.IsBound(n) {
        assert n != name ==> (registry.IsBound(n) <==> old(registry.IsBound(n)));
      }
      forall n | n in live ensures registry.entries[n].typed.box == live[n] {
        assert n != name ==> n in old(live) && registry.entries[n] == old(registry.entries)[n];
      }
    }

    /** Named on the module's registry: the first use of a declared cache builds it, a later
        one gets the same handle or, for other types, an error. */
    method Named(name: string, keyType: TypeId, valType: TypeId, builds: bool)
      returns (r: Result<Handle, NamedError>)
      requires Valid()
      modifies this`live, registry
      ensures Valid()
      ensures r.Ok? ==> name in live && r.value == Handle(keyType, valType, live[name])
      ensures r.Ok? && name in old(live) ==> live == old(live)
      ensures r.Ok? && name !in old(live) ==>
        live == old(live)[name := r.value.box] && fresh(r.value.box) && InSync(BuiltOf(r.value.box), specs[name])
      ensures r.Err? ==> live == old(live) && registry.entries == old(registry.entries)
      ensures r == Err(Unknown) <==> name !in specs
      ensures r.Ok? <==>
        && name in specs
        && (if name in old(live) then old(live[name].keyType == keyType && live[name].valType == valType) else builds)
    {
      hide InSync, IsSound, BuiltOf, Registry.Valid;
      assert name in live <==> registry.IsBound(name);
      assert registry.NeedsBuild(name) <==> name in specs && name !in live;
      if registry.NeedsBuild(name) && builds {
        r := FirstUse(name, keyType, valType);
        assert forall n :: n in live && n != name ==> n in old(live) && IsSound(live[n]);
      } else {
        r := LaterUse(name, keyType, valType);
      }
    }

    /** A use that builds nothing. */
    method LaterUse(name: string, keyType: TypeId, valType: TypeId) returns (r: Result<Handle, NamedError>)
      requires Linked()
      modifies registry
      ensures Linked() && registry.entries == old(registry.entries)
      ensures r.Ok? ==> name in live && r.value == Handle(keyType, valType, live[name])
      ensures r.Ok? <==> name in live && live[name].keyType == keyType && live[name].valType == valType
      ensures r == Err(Unknown) <==> name !in specs
    {
      assert name in live <==> registry.IsBound(name);
      r := registry.Named(name, keyType, valType, None);
      assert registry.entries == old(registry.entries);
      assert forall n :: registry.IsBound(n) <==> old(registry.IsBound(n));
    }

    method DropOne(name: string, ghost boxes: map<string, Box>)
      requires registry.Valid() && SharesNone(boxes) && forall n :: n in live ==> n in boxes && boxes[n] == live[n]
      modifies this`live, registry, if name in live then {live[name]} else {}
      ensures registry.Valid() && live == old(live) - {name}
      ensures registry.entries == old(registry.entries) - {name}
      ensures RecordsOf(boxes) ==
        if name in old(live) then old(RecordsOf(boxes))[name := Stopped(old(RecordsOf(boxes))[name])] else old(RecordsOf(boxes))
    {
      hide Registry.Valid, RecordsOf, Stopped, SharesNone;
      if name in live {
        RecordNames(boxes);
        StopOne(name, live[name], boxes);
        live := live - {name};
      }
      registry.Unregister(name);
    }

    /** The first loop of OnReload: what is no longer declared is stopped and dropped. */
    method DropUndeclared(was: Specs, desired: Specs)
      requires registry.Valid() && SharesNone(live)
      modifies this`live, registry, live.Values
      ensures registry.Valid() && live == old(live) - (was.Keys - desired.Keys)
      ensures registry.entries == old(registry.entries) - (was.Keys - desired.Keys)
      ensures RecordsOf(old(live)) == StoppedIn(old(RecordsOf(live)), was.Keys - desired.Keys)
    {
      hide SharesNone, RecordsOf, StoppedIn, Stopped, Registry.Valid;
      ghost var boxes, before := live, RecordsOf(live);
      var todo := was.Keys - desired.Keys;
      ghost var gone: set<string> := {};
      NoneStopped(before);
      while todo != {}
        invariant gone + todo == was.Keys - desired.Keys && gone !! todo
        invariant registry.Valid() && registry.entries == old(registry.entries) - gone
        invariant live == boxes - gone && RecordsOf(boxes) == StoppedIn(before, gone)
        decreases todo
      {
        var name :| name in todo;
        assert name in live ==> live[name] == boxes[name];
        RecordNames(boxes);
        OneStopped(before, gone, name);
        RemoveOneMore(boxes, gone, name);
        RemoveOneMore(old(registry.entries), gone, name);
        DropOne(name, boxes);
        todo, gone := todo - {name}, gone + {name};
      }
    }

    /** The second loop: what is newly declared is registered, to be built on first use. */
    method RegisterNew(was: Specs, desired: Specs)
      requires registry.Valid()
      modifies registry
      ensures registry.Valid()
      ensures registry.entries.Keys == old(registry.entries.Keys) + (desired.Keys - was.Keys)
      ensures forall n :: n in registry.entries ==>
        registry.entries[n] == if n in desired && n !in was then Unbound else old(registry.entries)[n]
    {
      var todo := desired.Keys - was.Keys;
      ghost var added: set<string> := {};
      while todo != {}
        invariant added + todo == desired.Keys - was.Keys && added !! todo
        invariant registry.Valid() && registry.entries.Keys == old(registry.entries.Keys) + added
        invariant forall n :: n in registry.entries ==>
          registry.entries[n] == if n in added then Unbound else old(registry.entries)[n]
        decreases todo
      {
        var name :| name in todo;
        registry.Register(name);
        todo, added := todo - {name}, added + {name};
      }
    }

    method RefreshOne(b: Box, was: Spec, now: Spec, builds: bool)
      requires IsSound(b)
      modifies b
      ensures IsSound(b) && BuiltOf(b) == Reloaded(old(BuiltOf(b)), was, now, builds)
    {
      if was != now {
        if OnlyMaxSizeChanged(was, now) && now.maxSize > 0 {
          b.SetMaximum(now);
        } else {
          var _ := b.Rebuild(now, builds);
        }
      }
    }

    /** The third loop: a built cache whose declaration changed is resized or rebuilt. */
    method Refresh(was: Specs, desired: Specs, failing: set<string>)
      requires SharesNone(live) && Sound() && forall n :: n in live ==> n in was && n in desired
      modifies live.Values
      ensures Sound()
      ensures forall n :: n in live ==>
        BuiltOf(live[n]) == Reloaded(old(BuiltOf(live[n])), was[n], desired[n], n !in failing)
    {
      hide IsSound, BuiltOf, Reloaded;
      var todo := desired.Keys;
      while todo != {}
        invariant todo <= desired.Keys && Sound()
        invariant forall n :: n in live && n in todo ==> unchanged(live[n])
        invariant forall n :: n in live && n !in todo ==>
          BuiltOf(live[n]) == Reloaded(old(BuiltOf(live[n])), was[n], desired[n], n !in failing)
        decreases todo
      {
        var name :| name in todo;
        if name in was && name in live {
          assert name in live;
          RefreshOne(live[name], was[name], desired[name], name !in failing);
        }
        todo := todo - {name};
      }
    }

    lemma LinkedNames(names: set<string>)
      requires LinkedTo(names)
      ensures SharesNone(live) && forall n :: n in live ==> registry.IsBound(n) && n in names
    {
      assert forall n :: n in live ==> registry.IsBound(n);
    }

    method Drop(was: Specs, desired: Specs)
      requires LinkedTo(was.Keys)
      modifies this`live, registry, live.Values
      ensures LinkedTo(was.Keys * desired.Keys) && live.Keys == old(live.Keys) * desired.Keys
      ensures forall n :: n in live ==> n in old(live) && live[n] == old(live)[n]
      ensures forall n :: n in live ==> registry.entries[n] == old(registry.entries)[n]
      ensures RecordsOf(old(live)) == StoppedIn(old(RecordsOf(live)), was.Keys - desired.Keys)
    {
      hide RecordsOf, StoppedIn;
      LinkedNames(was.Keys);
      DropUndeclared(was, desired);
      assert forall n :: n in live <==> n in old(live) && n in desired;
      assert forall n :: registry.IsBound(n) <==> old(registry.IsBound(n)) && n in desired;
    }

    method Add(was: Specs, desired: Specs)
      requires LinkedTo(was.Keys * desired.Keys)
      modifies registry
      ensures LinkedTo(desired.Keys)
      ensures forall n :: n in live ==> registry.entries[n] == old(registry.entries)[n]
    {
      LinkedNames(was.Keys * desired.Keys);
      RegisterNew(was, desired);
      assert forall n :: registry.IsBound(n) <==> old(registry.IsBound(n));
    }

    /** The first two loops of OnReload: the registry follows the declarations. */
    method Relink(desired: Specs)
      requires Linked()
      modifies this`specs, this`live, registry, live.Values
      ensures Linked() && specs == desired && live.Keys == old(live.Keys) * desired.Keys
      ensures forall n :: n in live ==> n in old(live) && live[n] == old(live)[n]
      ensures forall n :: n in live ==> registry.entries[n] == old(registry.entries)[n]
      ensures RecordsOf(old(live)) == StoppedIn(old(RecordsOf(live)), old(specs).Keys - desired.Keys)
    {
      hide LinkedTo, RecordsOf, StoppedIn;
      var was := specs;
      specs := desired;
      Drop(was, desired);
      Add(was, desired);
    }

    /** The names that are still live and those that are not, after the boxes that are no
        longer declared were stopped. */
    twostate lemma RelinkedBoxes(desired: Specs)
      requires old(live.Keys) <= old(specs).Keys && live.Keys == old(live.Keys) * desired.Keys
      requires forall n :: n in live ==> n in old(live) && live[n] == old(live)[n]
      requires RecordsOf(old(live)) == StoppedIn(old(RecordsOf(live)), old(specs).Keys - desired.Keys)
      ensures forall n :: n in live ==> live[n].spec == old(live[n].spec) && live[n].oc == old(live[n].oc) && live[n].running == old(live[n].running)
      ensures forall n :: n in old(live) && n !in desired ==>
        var b := old(live)[n];
        b.running == old(b.running) - {b.oc.id} && b.oc == old(b.oc)
    {
      var before, after := old(RecordsOf(live)), RecordsOf(old(live));
      forall n | n in old(live)
        ensures after[n] == if n in desired then before[n] else Stopped(before[n])
      {
        assert n in before;
      }
    }

    /** OnReload, from the loaded configuration on. */
    method Reconcile(desired: Specs, failing: set<string>)
      requires Valid()
      modifies this`specs, this`live, registry, live.Values
      ensures Valid() && specs == desired && live.Keys == old(live.Keys) * desired.Keys
      ensures forall n :: n in live ==> n in old(live) && n in old(specs) && live[n] == old(live)[n]
      ensures forall n :: n in live ==> registry.entries[n] == old(registry.entries)[n]
      ensures forall n :: n in live ==>
        BuiltOf(live[n]) == Reloaded(old(BuiltOf(live[n])), old(specs)[n], desired[n], n !in failing)
      ensures forall n :: n in old(live) && n !in desired ==>
        var b := old(live)[n];
        b.running == old(b.running) - {b.oc.id} && b.oc == old(b.oc)
    {
      hide Reloaded, Linked, Sound, BuiltOf, SharesNone;
      var was := specs;
      RelinkSound(desired);
      RefreshLinked(was, desired, failing);
    }

    method RelinkSound(desired: Specs)
      requires Valid()
      modifies this`specs, this`live, registry, live.Values
      ensures Valid() && SharesNone(live) && specs == desired && live.Keys == old(live.Keys) * desired.Keys
      ensures forall n :: n in live ==>
        && n in old(live) && n in old(specs) && n in desired && live[n] == old(live)[n]
        && BuiltOf(live[n]) == old(BuiltOf(live[n])) && registry.entries[n] == old(registry.entries)[n]
      ensures forall n, k :: n in old(live) && n !in desired && k in live ==> old(live)[n] != live[k]
      ensures forall n :: n in old(live) && n !in desired ==>
        var b := old(live)[n];
        b.running == old(b.running) - {b.oc.id} && b.oc == old(b.oc)
    {
      hide LinkedTo, RecordsOf, StoppedIn;
      LinkedNames(specs.Keys);
      Relink(desired);
      LinkedNames(desired.Keys);
      RelinkedBoxes(desired);
    }

    method RefreshLinked(was: Specs, desired: Specs, failing: set<string>)
      requires Linked() && SharesNone(live) && Sound() && forall n :: n in live ==> n in was && n in desired
      modifies live.Values
      ensures Linked() && Sound()
      ensures forall n :: n in live ==>
        BuiltOf(live[n]) == Reloaded(old(BuiltOf(live[n])), was[n], desired[n], n !in failing)
    {
      hide IsSound, BuiltOf, Reloaded;
      Refresh(was, desired, failing);
      assert Linked() by {
        assert old(Linked());
      }
    }

    /** OnReload: afterwards the registry names are the declared ones; every built cache
        that is still declared keeps its handle and is resized, rebuilt or left as its
        declaration demands; the others are stopped. A configuration that does not load
        changes nothing. */
    method OnReload(loaded: Option<Specs>, failing: set<string>)
      requires Valid()
      modifies this`specs, this`live, registry, live.Values
      ensures Valid()
      ensures loaded.None? ==>
        unchanged(this) && unchanged(registry) && forall n :: n in live ==> unchanged(live[n])
      ensures loaded.Some? ==>
        && Overlays(codeCaches, loaded.value, specs) && registry.entries.Keys == specs.Keys
        && live.Keys == old(live.Keys) * specs.Keys
      ensures forall n :: n in live ==>
        n in old(live) && live[n] == old(live)[n] && registry.entries[n] == old(registry.entries)[n]
      ensures loaded.Some? ==> forall n :: n in live ==>
        n in old(specs) && BuiltOf(live[n]) == Reloaded(old(BuiltOf(live[n])), old(specs)[n], specs[n], n !in failing)
      ensures loaded.Some? ==> forall n :: n in old(live) && n !in specs ==>
        old(live)[n].running == {} && old(live)[n].oc == old(live[n].oc)
    {
      hide BuiltOf, Reloaded;
      assert forall n :: n in live ==> live[n].running == {live[n].oc.id};
      if loaded.Some? {
        Reconcile(MergedCaches(codeCaches, loaded.value), failing);
      } else {
        assert forall n :: n in live ==> registry.IsBound(n);
      }
    }
  }

  /** One run of OnReload: the configuration, if it loads, and the caches whose rebuild
      would fail. */
  datatype Run = Run(loaded: Option<Specs>, failing: set<string>)

  /** The declarations after a sequence of runs: those of the last that loads. */
  function Declared(first: Specs, code: Specs, runs: seq<Run>): Specs {
    if runs == [] then first
    else
      var last := runs[|runs| - 1].loaded;
      if last.Some? then MergedCaches(code, last.value) else Declared(first, code, runs[..|runs| - 1])
  }

  /** Every run that loads declares the cache. */
  predicate AlwaysDeclared(name: string, code: Specs, runs: seq<Run>) {
    forall i :: 0 <= i < |runs| && runs[i].loaded.Some? ==> name in MergedCaches(code, runs[i].loaded.value)
  }

  /** What the runs mean for one cache. */
  function ChangesOf(name: string, code: Specs, runs: seq<Run>): seq<Change> {
    if runs == [] then []
    else
      var before, last := ChangesOf(name, code, runs[..|runs| - 1]), runs[|runs| - 1];
      if last.loaded.Some? && name in MergedCaches(code, last.loaded.value)
      then before + [Change(MergedCaches(code, last.loaded.value)[name], name !in last.failing)]
      else before
  }

  /** The built caches of the module, by name. */
  ghost function AllBuilt(m: Module): map<string, Built>
    reads m, m.live.Values
  {
    map n | n in m.live :: BuiltOf(m.live[n])
  }

  /** What one run makes of the built caches. */
  ghost function BuiltAfter(built: map<string, Built>, was: Specs, code: Specs, run: Run): map<string, Built>
    requires built.Keys <= was.Keys
  {
    if run.loaded.None? then built
    else
      var now := MergedCaches(code, run.loaded.value);
      map n | n in built && n in now :: Reloaded(built[n], was[n], now[n], n !in run.failing)
  }

  lemma OverlaysUnique(code: Specs, configured: Specs, a: Specs, b: Specs)
    requires Overlays(code, configured, a) && Overlays(code, configured, b)
    ensures a == b
  {
    assert a.Keys == b.Keys;
  }

  method ReloadOnce(m: Module, run: Run)
    requires m.Valid()
    modifies m`specs, m`live, m.registry, m.live.Values
    ensures m.Valid() && m.live.Keys <= m.specs.Keys && old(m.live.Keys <= m.specs.Keys)
    ensures m.specs == if run.loaded.Some? then MergedCaches(m.codeCaches, run.loaded.value) else old(m.specs)
    ensures AllBuilt(m) == BuiltAfter(old(AllBuilt(m)), old(m.specs), m.codeCaches, run)
    ensures forall n :: n in m.live ==> n in old(m.live) && m.live[n] == old(m.live)[n]
  {
    hide Reloaded, IsSound, BuiltOf, MergedCaches, BuiltAfter;
    ghost var before, was, boxes := AllBuilt(m), m.specs, m.live;
    assert m.live.Keys <= m.specs.Keys by {
      m.LinkedNames(m.specs.Keys);
    }
    m.OnReload(run.loaded, run.failing);
    if run.loaded.Some? {
      OverlaysUnique(m.codeCaches, run.loaded.value, m.specs, MergedCaches(m.codeCaches, run.loaded.value));
    }
    assert m.live.Keys <= m.specs.Keys by {
      m.LinkedNames(m.specs.Keys);
    }
    forall n | n in m.live ensures n in before && n in was && m.live[n] == boxes[n] {
    }
    IsBuiltAfter(before, was, m.codeCaches, run, AllBuilt(m));
  }

  /** The built caches after a run, told name by name. */
  lemma IsBuiltAfter(before: map<string, Built>, was: Specs, code: Specs, run: Run, built: map<string, Built>)
    requires before.Keys <= was.Keys
    requires run.loaded.None? ==> built == before
    requires run.loaded.Some? ==>
      && built.Keys == before.Keys * MergedCaches(code, run.loaded.value).Keys
      && forall n :: n in built ==>
        built[n] == Reloaded(before[n], was[n], MergedCaches(code, run.loaded.value)[n], n !in run.failing)
    ensures built == BuiltAfter(before, was, code, run)
  {
    hide Reloaded, MergedCaches;
    if run.loaded.Some? {
      assert built.Keys == BuiltAfter(before, was, code, run).Keys;
    }
  }

  /** What is known of a cache after some runs. */
  ghost predicate Follows(
    first: map<string, Built>, was: Specs, code: Specs, runs: seq<Run>, built: map<string, Built>, specs: Specs)
  {
    && built.Keys <= specs.Keys && first.Keys <= was.Keys
    && (forall n :: n in built <==> n in first && AlwaysDeclared(n, code, runs))
    && (forall n :: n in built ==>
          && built[n] == ReloadedMany(first[n], was[n], ChangesOf(n, code, runs))
          && specs[n] == Last(was[n], ChangesOf(n, code, runs)))
  }

  lemma FollowsStep(
    first: map<string, Built>, was: Specs, code: Specs, runs: seq<Run>, built: map<string, Built>, specs: Specs, run: Run)
    requires Follows(first, was, code, runs, built, specs)
    ensures
      var now := if run.loaded.Some? then MergedCaches(code, run.loaded.value) else specs;
      Follows(first, was, code, runs + [run], BuiltAfter(built, specs, code, run), now)
  {
    hide Reloaded, MergedCaches, ReloadedMany, Last, ChangesOf, AlwaysDeclared;
    var more := runs + [run];
    var now := if run.loaded.Some? then MergedCaches(code, run.loaded.value) else specs;
    var after := BuiltAfter(built, specs, code, run);
    forall n
      ensures AlwaysDeclared(n, code, more) <==>
        AlwaysDeclared(n, code, runs) && (run.loaded.Some? ==> n in MergedCaches(code, run.loaded.value))
    {
      DeclaredOnceMore(n, code, runs, run);
    }
    forall n | n in after
      ensures after[n] == ReloadedMany(first[n], was[n], ChangesOf(n, code, more))
      ensures now[n] == Last(was[n], ChangesOf(n, code, more))
    {
      assert n in built;
      ChangesOnceMore(n, code, runs, run);
      if run.loaded.Some? {
        ReloadedOnceMore(first[n], was[n], ChangesOf(n, code, runs), Change(now[n], n !in run.failing));
      }
    }
  }

  lemma DeclaredOnceMore(n: string, code: Specs, runs: seq<Run>, run: Run)
    ensures AlwaysDeclared(n, code, runs + [run]) <==>
      AlwaysDeclared(n, code, runs) && (run.loaded.Some? ==> n in MergedCaches(code, run.loaded.value))
  {
    hide MergedCaches;
    var more := runs + [run];
    assert forall i :: 0 <= i < |runs| ==> more[i] == runs[i];
    assert more[|runs|] == run;
  }

  lemma ChangesOnceMore(n: string, code: Specs, runs: seq<Run>, run: Run)
    ensures ChangesOf(n, code, runs + [run]) ==
      if run.loaded.Some? && n in MergedCaches(code, run.loaded.value)
      then ChangesOf(n, code, runs) + [Change(MergedCaches(code, run.loaded.value)[n], n !in run.failing)]
      else ChangesOf(n, code, runs)
  {
    assert (runs + [run])[..|runs|] == runs;
  }

  lemma ReloadedOnceMore(b: Built, was: Spec, changes: seq<Change>, c: Change)
    ensures ReloadedMany(b, was, changes + [c])
         == Reloaded(ReloadedMany(b, was, changes), Last(was, changes), c.spec, c.builds)
    ensures Last(was, changes + [c]) == c.spec
  {
    assert (changes + [c])[..|changes|] == changes;
  }

  /** What the declarations mean for a cache that was in step: the last one took effect, and
      the otter cache was built for the same expiry and statistics. */
  predicate TookEffect(was: Spec, changes: seq<Change>) {
    var built, applied := BuiltFor(was, changes), AppliedLast(was, changes);
    && applied == Last(was, changes)
    && LimitsOf(built).expiry == LimitsOf(applied).expiry && LimitsOf(built).stats == LimitsOf(applied).stats
  }

  /** A cache that followed the runs has kept its entries exactly when every change left
      them, and if it was in step, it is in step exactly when its declaration took effect. */
  lemma FollowerIff(
    first: map<string, Built>, was: Specs, code: Specs, runs: seq<Run>, built: map<string, Built>, specs: Specs, n: string)
    requires Follows(first, was, code, runs, built, specs) && n in built
    ensures
      var changes := ChangesOf(n, code, runs);
      && n in first && n in was && n in specs
      && (built[n].oc.id == first[n].oc.id <==> KeepsAll(was[n], changes))
      && built[n].oc.contents == (if KeepsAll(was[n], changes) then first[n].oc.contents else map[])
      && (InSync(first[n], was[n]) ==> (InSync(built[n], specs[n]) <==> TookEffect(was[n], changes)))
      && (InSync(first[n], was[n]) && (forall i :: 0 <= i < |changes| ==> changes[i].builds) ==> InSync(built[n], specs[n]))
  {
    hide Reloaded, KeepsAll, MergedCaches;
    var changes := ChangesOf(n, code, runs);
    KeepsEntriesIff(first[n], was[n], changes);
    if InSync(first[n], was[n]) {
      InSyncAfterIff(first[n], was[n], changes);
      if forall i :: 0 <= i < |changes| ==> changes[i].builds {
        ConvergesAlways(first[n], was[n], changes);
      }
    }
  }

  lemma FollowsNothing(first: map<string, Built>, was: Specs, code: Specs)
    requires first.Keys <= was.Keys
    ensures Follows(first, was, code, [], first, was) && Declared(was, code, []) == was
  {
  }

  lemma DeclaredStep(first: Specs, code: Specs, runs: seq<Run>, i: nat)
    requires i < |runs|
    ensures runs[..i + 1] == runs[..i] + [runs[i]]
    ensures Declared(first, code, runs[..i + 1]) ==
      if runs[i].loaded.Some? then MergedCaches(code, runs[i].loaded.value) else Declared(first, code, runs[..i])
  {
    hide MergedCaches;
    assert runs[..i + 1][..i] == runs[..i];
  }

  /** Any sequence of configurations, with any builds that fail: the live caches are the same
      boxes, those that every loaded configuration declares, and each is what its own
      sequence of declarations makes of it. */
  method ReloadMany(m: Module, runs: seq<Run>)
    requires m.Valid()
    modifies m`specs, m`live, m.registry, m.live.Values
    ensures m.Valid() && m.registry.entries.Keys == m.specs.Keys
    ensures m.specs == Declared(old(m.specs), m.codeCaches, runs)
    ensures forall n :: n in m.live ==> n in old(m.live) && m.live[n] == old(m.live)[n]
    ensures Follows(old(AllBuilt(m)), old(m.specs), m.codeCaches, runs, AllBuilt(m), m.specs)
  {
    hide MergedCaches, BuiltAfter, Follows, Declared;
    m.LinkedNames(m.specs.Keys);
    ghost var first, was := AllBuilt(m), m.specs;
    assert first.Keys <= was.Keys;
    hide AllBuilt;
    FollowsNothing(first, was, m.codeCaches);
    assert runs[..0] == [];
    for i := 0 to |runs|
      invariant m.Valid()
      invariant m.specs == Declared(old(m.specs), m.codeCaches, runs[..i])
      invariant forall n :: n in m.live ==> n in old(m.live) && m.live[n] == old(m.live)[n]
      invariant Follows(first, was, m.codeCaches, runs[..i], AllBuilt(m), m.specs)
    {
      FollowsStep(first, was, m.codeCaches, runs[..i], AllBuilt(m), m.specs, runs[i]);
      ReloadOnce(m, runs[i]);
      DeclaredStep(old(m.specs), m.codeCaches, runs, i);
    }
    assert runs[..|runs|] == runs;
  }
}
