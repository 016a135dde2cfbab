/** Named caches whose key and value types are fixed by their first use: the registry
    (pkg/cache/registry.go) over the boxes of the memory backend
    (pkg/cache/memory/module.go). */
module CacheRegistry {
  import opened Common

  // ----- boxes -----

  type TypeId = nat

  /** A value of static type `any`: its dynamic type and its data. */
  datatype Boxed = Boxed(typ: TypeId, data: int)

  datatype Spec = Spec(maxSize: int, ttl: int, ttlAccess: int, recordStats: bool)

  datatype Expiry = Unlimited | AfterAccess(span: int) | AfterWrite(span: int)

  /** The options an otter cache is built with. */
  datatype Limits = Limits(maximum: Option<int>, expiry: Expiry, stats: bool)

  /** The options of buildOtter: expiry after access wins over expiry after write. */
  function LimitsOf(spec: Spec): (limits: Limits)
    ensures limits.maximum == None <==> spec.maxSize <= 0
    ensures limits.maximum.Some? ==> limits.maximum.value == spec.maxSize
    ensures forall span :: limits.expiry == AfterAccess(span) <==> span == spec.ttlAccess && span > 0
    ensures forall span :: limits.expiry == AfterWrite(span) <==> span == spec.ttl && span > 0 && spec.ttlAccess <= 0
    ensures limits.stats == spec.recordStats
  {
    Limits(
      if spec.maxSize > 0 then Some(spec.maxSize) else None,
      if spec.ttlAccess > 0 then AfterAccess(spec.ttlAccess)
      else if spec.ttl > 0 then AfterWrite(spec.ttl)
      else Unlimited,
      spec.recordStats)
  }

  /** An otter cache; `id` tells the successive caches of one box apart. */
  datatype Otter = Otter(id: nat, limits: Limits, contents: map<Boxed, Boxed>)

  /** otterBox. The types are those of the first use, for which it is built. */
  class Box {
    const keyType: TypeId
    const valType: TypeId
    var spec: Spec
    var oc: Otter
    /** The otter caches of this box whose goroutines run. */
    var running: set<nat>

    /** Keys and values are of the types of the box. */
    ghost predicate Typed()
      reads this
    {
      forall k :: k in oc.contents ==> k.typ == keyType && oc.contents[k].typ == valType
    }

    constructor (spec: Spec, keyType: TypeId, valType: TypeId)
      ensures Typed() && this.keyType == keyType && this.valType == valType
      ensures this.spec == spec && oc == Otter(0, LimitsOf(spec), map[]) && running == {0}
    {
      this.keyType, this.valType, this.spec := keyType, valType, spec;
      oc, running := Otter(0, LimitsOf(spec), map[]), {0};
    }

    function Get(key: Boxed): Option<Boxed>
      reads this`oc
    {
      if key in oc.contents then Some(oc.contents[key]) else None
    }

    method Set(key: Boxed, value: Boxed)
      modifies this`oc
      ensures oc == old(oc).(contents := old(oc).contents[key := value])
    {
      oc := oc.(contents := oc.contents[key := value]);
    }

    /** Delete, and whatever otter evicts or expires on its own. */
    method Forget(keys: set<Boxed>)
      modifies this`oc
      ensures oc == old(oc).(contents := old(oc).contents - keys)
    {
      oc := oc.(contents := oc.contents - keys);
    }

    /** setMaximum: resize in place. */
    method SetMaximum(spec: Spec)
      modifies this`oc, this`spec
      ensures this.spec == spec
      ensures oc == old(oc).(limits := old(oc).limits.(maximum := Some(spec.maxSize)))
    {
      this.spec := spec;
      oc := oc.(limits := oc.limits.(maximum := Some(spec.maxSize)));
    }

    /** rebuild: a fresh otter cache replaces the old one, which is stopped; if building
        fails nothing changes. */
    method Rebuild(spec: Spec, builds: bool) returns (ok: bool)
      modifies this`oc, this`spec, this`running
      ensures ok == builds
      ensures !ok ==> unchanged(this)
      ensures ok ==> this.spec == spec && oc == Otter(old(oc).id + 1, LimitsOf(spec), map[])
      ensures ok ==> running == old(running) - {old(oc).id} + {oc.id}
    {
      if !builds {
        return false;
      }
      var oldId := oc.id;
      this.spec, oc := spec, Otter(oldId + 1, LimitsOf(spec), map[]);
      running := running + {oc.id} - {oldId};
      ok := true;
    }

    method Stop()
      modifies this`running
      ensures running == old(running) - {oc.id}
    {
      running := running - {oc.id};
    }
  }

  // ----- typed handles -----

  /** What the caller of a typed handle sees. `CastPanic` is a failed type assertion. */
  datatype Outcome = Hit(data: int) | Miss | LoadError | Done | CastPanic

  /** typedCache[K, V] */
  datatype Handle = Handle(keyType: TypeId, valType: TypeId, box: Box) {
    ghost predicate Matches()
    {
      keyType == box.keyType && valType == box.valType
    }

    /** The cache after a value was stored through this handle. */
    ghost function Stored(oc: Otter, key: int, value: int): Otter {
      oc.(contents := oc.contents[Boxed(keyType, key) := Boxed(valType, value)])
    }

    /** The type assertion on what a box returns. */
    function Cast(v: Boxed): Outcome {
      if v.typ == valType then Hit(v.data) else CastPanic
    }

    method Get(key: int) returns (o: Outcome)
      requires Matches() && box.Typed()
      ensures o == Miss || o.Hit?
      ensures o == Miss <==> box.Get(Boxed(keyType, key)) == None
      ensures o.Hit? ==> box.Get(Boxed(keyType, key)) == Some(Boxed(valType, o.data))
    {
      var v := box.Get(Boxed(keyType, key));
      o := if v.None? then Miss else Cast(v.value);
    }

    method Set(key: int, value: int)
      requires Matches() && box.Typed()
      modifies box`oc
      ensures box.Typed() && box.Get(Boxed(keyType, key)) == Some(Boxed(valType, value))
      ensures box.oc == Stored(old(box.oc), key, value)
    {
      box.Set(Boxed(keyType, key), Boxed(valType, value));
    }

    /** GetOrLoad: the loader is asked only for a key that is not there. */
    method GetOrLoad(key: int, load: int -> Option<int>) returns (o: Outcome)
      requires Matches() && box.Typed()
      modifies box`oc
      ensures box.Typed() && (o == LoadError || o.Hit?)
      ensures o == LoadError <==> old(box.Get(Boxed(keyType, key))).None? && load(key).None?
      ensures o == LoadError ==> box.oc == old(box.oc)
      ensures o.Hit? ==> box.Get(Boxed(keyType, key)) == Some(Boxed(valType, o.data))
      ensures o.Hit? ==>
        var was := old(box.Get(Boxed(keyType, key)));
        if was.Some? then box.oc == old(box.oc) && o.data == was.value.data
        else load(key) == Some(o.data) && box.oc == Stored(old(box.oc), key, o.data)
    {
      var boxed := Boxed(keyType, key);
      var v := box.Get(boxed);
      if v.None? {
        if boxed.typ != keyType {
          return CastPanic;
        }
        var loaded := load(boxed.data);
        if loaded.None? {
          return LoadError;
        }
        box.Set(boxed, Boxed(valType, loaded.value));
        v := Some(Boxed(valType, loaded.value));
      }
      o := Cast(v.value);
    }
  }

  // ----- the registry -----

  datatype Entry = Unbound | Bound(typed: Handle)

  datatype NamedError = Unknown | TypeMismatch(keyType: TypeId, valType: TypeId) | BuildFailed

  class Registry {
    var entries: map<string, Entry>

    ghost predicate IsBound(name: string)
      reads this
    {
      name in entries && entries[name].Bound?
    }

    /** A bound entry has the types of its box, and no two entries share a box. */
    ghost predicate Valid()
      reads this
    {
      && (forall n :: IsBound(n) ==> entries[n].typed.Matches())
      && (forall n, k :: IsBound(n) && IsBound(k) && n != k ==> entries[n].typed.box != entries[k].typed.box)
    }

    constructor ()
      ensures Valid() && entries == map[]
    {
      entries := map[];
    }

    method Register(name: string)
      requires Valid()
      modifies this
      ensures Valid() && entries == old(entries)[name := Unbound]
    {
      entries := entries[name := Unbound];
      assert forall n :: IsBound(n) ==> old(IsBound(n)) && entries[n] == old(entries)[n];
    }

    method Unregister(name: string)
      requires Valid()
      modifies this
      ensures Valid() && entries == old(entries) - {name}
    {
      entries := entries - {name};
      assert forall n :: IsBound(n) ==> old(IsBound(n)) && entries[n] == old(entries)[n];
    }

    predicate NeedsBuild(name: string)
      reads this
    {
      name in entries && entries[name].Unbound?
    }

    /** Named, given what the builder returns when it is asked: a box of its own for these
        types, or an error. */
    method Named(name: string, keyType: TypeId, valType: TypeId, built: Option<Box>)
      returns (r: Result<Handle, NamedError>)
      requires Valid()
      requires built.Some? ==> built.value.keyType == keyType && built.value.valType == valType
      requires built.Some? ==> forall n :: IsBound(n) ==> entries[n].typed.box != built.value
      modifies this
      ensures Valid()
      ensures r.Ok? ==> r.value.Matches() && r.value.keyType == keyType && r.value.valType == valType
      ensures r.Ok? ==> entries == old(entries)[name := Bound(r.value)] && name in old(entries)
      ensures r.Ok? && old(IsBound(name)) ==> r.value == old(entries[name].typed)
      ensures r.Ok? && !old(IsBound(name)) ==> built == Some(r.value.box)
      ensures r.Err? ==> entries == old(entries)
      ensures r.Err? <==>
        || name !in old(entries)
        || (if old(IsBound(name))
            then old(entries[name].typed.keyType != keyType || entries[name].typed.valType != valType)
            else built.None?)
      ensures r == Err(Unknown) <==> name !in old(entries)
      ensures r == Err(BuildFailed) <==> name in old(entries) && !old(IsBound(name)) && built.None?
      ensures r.Err? && old(IsBound(name)) ==>
        r.error == TypeMismatch(old(entries[name].typed.keyType), old(entries[name].typed.valType))
    {
      if name !in entries {
        return Err(Unknown);
      }
      if entries[name].Bound? {
        var typed := entries[name].typed;
        if typed.keyType != keyType || typed.valType != valType {
          return Err(TypeMismatch(typed.keyType, typed.valType));
        }
        assert IsBound(name) && entries == entries[name := Bound(typed)];
        return Ok(typed);
      }
      if built.None? {
        return Err(BuildFailed);
      }
      var typed := Handle(keyType, valType, built.value);
      entries := entries[name := Bound(typed)];
      assert forall n :: IsBound(n) ==> n == name || (old(IsBound(n)) && entries[n] == old(entries)[n]);
      r := Ok(typed);
    }
  }

  // ----- any use of a registry -----

  datatype Op =
    | DoRegister(name: string)
    | DoUnregister(name: string)
    | DoNamed(name: string, keyType: TypeId, valType: TypeId, builds: bool)
    | DoGet(handle: nat, key: int)
    | DoSet(handle: nat, key: int, value: int)
    | DoLoad(handle: nat, key: int, load: int -> Option<int>)
    | DoForget(handle: nat, keys: set<Boxed>)

  /** The same as values: which names are declared, and bound to which cache; of every cache
      its types and what it holds; and the caches the handles given out so far are for. */
  datatype World = World(
    names: map<string, Option<nat>>, types: seq<(TypeId, TypeId)>, contents: seq<map<int, int>>, handles: seq<nat>)
  {
    ghost predicate Closed() {
      && |types| == |contents| && (forall i :: 0 <= i < |handles| ==> handles[i] < |types|)
      && forall n :: n in names && names[n].Some? ==> names[n].value < |types|
    }

    /** The name is declared, and bound, if at all, to a cache of these types. */
    ghost predicate Fits(name: string, keyType: TypeId, valType: TypeId)
      requires Closed()
    {
      name in names && (names[name].Some? ==> types[names[name].value] == (keyType, valType))
    }

    /** What an operation makes of it. */
    ghost function After(op: Op): (w: World)
      requires Closed()
      ensures w.Closed()
    {
      match op
      case DoRegister(name) => this.(names := names[name := None])
      case DoUnregister(name) => this.(names := names - {name})
      case DoNamed(name, keyType, valType, builds) =>
        if !Fits(name, keyType, valType) then this
        else if names[name].Some? then this.(handles := handles + [names[name].value])
        else if !builds then this
        else World(names[name := Some(|types|)], types + [(keyType, valType)], contents + [map[]], handles + [|types|])
      case DoGet(_, _) => this
      case DoSet(i, key, value) =>
        if i >= |handles| then this else this.(contents := contents[handles[i] := contents[handles[i]][key := value]])
      case DoLoad(i, key, load) =>
        if i >= |handles| || key in contents[handles[i]] || load(key).None? then this
        else this.(contents := contents[handles[i] := contents[handles[i]][key := load(key).value]])
      case DoForget(i, keys) =>
        if i >= |handles| then this
        else
          var c := handles[i];
          this.(contents := contents[c := map k | k in contents[c] && Boxed(types[c].0, k) !in keys :: contents[c][k]])
    }

    /** What the caller sees of it. */
    ghost function Answer(op: Op): Outcome
      requires Closed()
    {
      match op
      case DoGet(i, key) => if i >= |handles| then Done else Found(contents[handles[i]], key, Miss)
      case DoLoad(i, key, load) =>
        if i >= |handles| then Done
        else Found(contents[handles[i]], key, if load(key).Some? then Hit(load(key).value) else LoadError)
      case _ => Done
    }

    ghost function AfterAll(ops: seq<Op>): (w: World)
      requires Closed()
      ensures w.Closed()
    {
      if ops == [] then this else AfterAll(ops[..|ops| - 1]).After(ops[|ops| - 1])
    }

    /** What the caller sees of a sequence of operations; never a failed type assertion. */
    ghost function Answers(ops: seq<Op>): (outcomes: seq<Outcome>)
      requires Closed()
      ensures |outcomes| == |ops| && CastPanic !in outcomes
    {
      if ops == [] then []
      else
        var n := |ops| - 1;
        Answers(ops[..n]) + [AfterAll(ops[..n]).Answer(ops[n])]
    }
  }

  ghost function Found(held: map<int, int>, key: int, otherwise: Outcome): Outcome {
    if key in held then Hit(held[key]) else otherwise
  }

  /** The cache holds these data, boxed in these types. */
  ghost predicate Holds(contents: map<Boxed, Boxed>, types: (TypeId, TypeId), data: map<int, int>) {
    && (forall k :: k in contents <==> k.typ == types.0 && k.data in data)
    && forall k :: k in contents ==> contents[k] == Boxed(types.1, data[k.data])
  }

  /** A caller's registry, the handles it was given so far, and the boxes in the order they
      were built. */
  class Client {
    const registry: Registry
    var handles: seq<Handle>
    var boxes: seq<Box>
    ghost var world: World

    /** Every handle ever given out matches its box, also after its name was dropped or
        declared again, and all is as in the world of values. */
    ghost predicate Valid()
      reads this, registry, boxes
    {
      && registry.Valid() && world.Closed() && ShowsBoxes(world.types, world.contents)
      && ShowsHandles(handles, world.handles) && ShowsEntries(registry.entries, world.names)
    }

    ghost predicate ShowsBoxes(types: seq<(TypeId, TypeId)>, contents: seq<map<int, int>>)
      reads this`boxes, boxes
    {
      && |boxes| == |types| == |contents| && Distinct(boxes)
      && forall b :: 0 <= b < |boxes| ==> ShowsBox(b, types[b], contents[b])
    }

    ghost predicate ShowsBox(b: nat, types: (TypeId, TypeId), data: map<int, int>)
      requires b < |boxes|
      reads this`boxes, boxes
    {
      (boxes[b].keyType, boxes[b].valType) == types && Holds(boxes[b].oc.contents, types, data)
    }

    ghost predicate IsHandle(h: Handle, b: nat)
      reads this`boxes
    {
      b < |boxes| && h == Handle(boxes[b].keyType, boxes[b].valType, boxes[b])
    }

    ghost predicate ShowsHandles(handles: seq<Handle>, ids: seq<nat>)
      reads this`boxes
    {
      |handles| == |ids| && forall i :: 0 <= i < |handles| ==> IsHandle(handles[i], ids[i])
    }

    ghost predicate ShowsEntries(entries: map<string, Entry>, names: map<string, Option<nat>>)
      reads this`boxes
    {
      entries.Keys == names.Keys && forall n :: n in names ==> n in entries && ShowsEntry(entries[n], names[n])
    }

    ghost predicate ShowsEntry(e: Entry, b: Option<nat>)
      reads this`boxes
    {
      if b.None? then e == Unbound else e.Bound? && IsHandle(e.typed, b.value)
    }

    constructor ()
      ensures Valid() && fresh(registry) && boxes == [] && handles == [] && world == World(map[], [], [], [])
    {
      registry := new Registry();
      handles, boxes, world := [], [], World(map[], [], [], []);
    }

    /** The box behind a handle, and what is known of it. */
    lemma HandleMeans(i: nat)
      requires Valid() && i < |handles|
      ensures i < |world.handles| && world.handles[i] < |boxes| == |world.types| == |world.contents|
      ensures
        var c := world.handles[i];
        IsHandle(handles[i], c) && ShowsBox(c, world.types[c], world.contents[c])
      ensures handles[i].Matches() && handles[i].box.Typed()
    {
      var c := world.handles[i];
      assert IsHandle(handles[i], c);
      assert ShowsBox(c, world.types[c], world.contents[c]);
    }

    method SetAt(i: nat, key: int, value: int)
      requires Valid() && i < |handles|
      modifies this`world, boxes
      ensures Valid() && world == old(world).After(DoSet(i, key, value))
    {
      HandleMeans(i);
      ghost var c, before := world.handles[i], world;
      handles[i].Set(key, value);
      world := world.After(DoSet(i, key, value));
      assert ShowsBoxes(world.types, world.contents) by {
        forall b: nat | b < |boxes| ensures ShowsBox(b, world.types[b], world.contents[b]) {
          assert b != c ==> boxes[b] != boxes[c] && old(ShowsBox(b, world.types[b], world.contents[b]));
          HoldsMore(old(boxes[c].oc.contents), before.types[c], before.contents[c], key, value);
        }
      }
    }

    method LoadAt(i: nat, key: int, load: int -> Option<int>) returns (o: Outcome)
      requires Valid() && i < |handles|
      modifies this`world, boxes
      ensures Valid() && world == old(world).After(DoLoad(i, key, load)) && o == old(world).Answer(DoLoad(i, key, load))
    {
      HandleMeans(i);
      ghost var c, before := world.handles[i], world;
      HoldsAt(boxes[c].oc.contents, before.types[c], before.contents[c], key);
      o := handles[i].GetOrLoad(key, load);
      world := world.After(DoLoad(i, key, load));
      assert ShowsBoxes(world.types, world.contents) by {
        forall b: nat | b < |boxes| ensures ShowsBox(b, world.types[b], world.contents[b]) {
          assert b != c ==> boxes[b] != boxes[c] && old(ShowsBox(b, world.types[b], world.contents[b]));
          if load(key).Some? {
            HoldsMore(old(boxes[c].oc.contents), before.types[c], before.contents[c], key, load(key).value);
          }
        }
      }
    }

    method GetAt(i: nat, key: int) returns (o: Outcome)
      requires Valid() && i < |handles|
      ensures o == world.Answer(DoGet(i, key))
    {
      HandleMeans(i);
      ghost var c := world.handles[i];
      HoldsAt(boxes[c].oc.contents, world.types[c], world.contents[c], key);
      o := handles[i].Get(key);
    }

    method ForgetAt(i: nat, keys: set<Boxed>)
      requires Valid() && i < |handles|
      modifies this`world, boxes
      ensures Valid() && world == old(world).After(DoForget(i, keys))
    {
      HandleMeans(i);
      ghost var c, before := world.handles[i], world;
      handles[i].box.Forget(keys);
      world := world.After(DoForget(i, keys));
      assert ShowsBoxes(world.types, world.contents) by {
        forall b: nat | b < |boxes| ensures ShowsBox(b, world.types[b], world.contents[b]) {
          assert b != c ==> boxes[b] != boxes[c] && old(ShowsBox(b, world.types[b], world.contents[b]));
          HoldsLess(old(boxes[c].oc.contents), before.types[c], before.contents[c], keys);
        }
      }
    }

    /** Named, for a caller whose builds succeed or fail as told. */
    method NamedAs(name: string, keyType: TypeId, valType: TypeId, builds: bool)
      requires Valid()
      modifies this, registry
      ensures Valid() && world == old(world).After(DoNamed(name, keyType, valType, builds))
      ensures old(boxes) <= boxes && forall b :: |old(boxes)| <= b < |boxes| ==> fresh(boxes[b])
    {
      hide ShowsBoxes, ShowsHandles, ShowsEntries;
      if registry.NeedsBuild(name) && builds {
        FirstUse(name, keyType, valType);
      } else {
        LaterUse(name, keyType, valType, builds);
      }
    }

    /** What the registry knows of a name. */
    lemma NameMeans(name: string)
      requires Valid()
      ensures name in registry.entries <==> name in world.names
      ensures registry.NeedsBuild(name) <==> name in world.names && world.names[name].None?
      ensures registry.IsBound(name) <==> name in world.names && world.names[name].Some?
      ensures registry.IsBound(name) ==> IsHandle(registry.entries[name].typed, world.names[name].value)
      ensures registry.IsBound(name) ==>
        var h, b := registry.entries[name].typed, world.names[name].value;
        b < |world.types| && (h.keyType, h.valType) == world.types[b]
    {
      if registry.IsBound(name) {
        var b := world.names[name].value;
        assert ShowsEntry(registry.entries[name], world.names[name]);
        assert ShowsBox(b, world.types[b], world.contents[b]);
      }
    }

    method LaterUse(name: string, keyType: TypeId, valType: TypeId, builds: bool)
      requires Valid() && !(registry.NeedsBuild(name) && builds)
      modifies this`handles, this`world, registry
      ensures Valid() && world == old(world).After(DoNamed(name, keyType, valType, builds))
    {
      NameMeans(name);
      var r := registry.Named(name, keyType, valType, None);
      assert registry.entries == old(registry.entries);
      if r.Ok? {
        handles := handles + [r.value];
        world := world.(handles := world.handles + [world.names[name].value]);
      }
      hide Registry.Valid, ShowsBoxes;
    }

    /** A new box, which nothing is bound to yet. */
    method NewBox(keyType: TypeId, valType: TypeId) returns (box: Box)
      requires Valid()
      modifies this`boxes, this`world
      ensures Valid() && fresh(box) && boxes == old(boxes) + [box] && box.keyType == keyType && box.valType == valType
      ensures world == old(world).(
                types := old(world).types + [(keyType, valType)], contents := old(world).contents + [map[]])
      ensures registry.entries == old(registry.entries)
      ensures forall n :: registry.IsBound(n) ==> registry.entries[n].typed.box != box
    {
      forall n | registry.IsBound(n) ensures registry.entries[n].typed.box in boxes {
        NameMeans(n);
      }
      box := new Box(Spec(0, 0, 0, false), keyType, valType);
      boxes := boxes + [box];
      world := world.(types := world.types + [(keyType, valType)], contents := world.contents + [map[]]);
      assert ShowsBoxes(world.types, world.contents) by {
        hide Registry.Valid;
        forall b: nat | b < |boxes| ensures ShowsBox(b, world.types[b], world.contents[b]) {
          assert b < |old(boxes)| ==>
            old(ShowsBox(b, world.types[b], world.contents[b])) && boxes[b] == old(boxes)[b];
        }
      }
    }

    method FirstUse(name: string, keyType: TypeId, valType: TypeId)
      requires Valid() && registry.NeedsBuild(name)
      modifies this, registry
      ensures Valid() && world == old(world).After(DoNamed(name, keyType, valType, true))
      ensures old(boxes) <= boxes && forall b :: |old(boxes)| <= b < |boxes| ==> fresh(boxes[b])
    {
      NameMeans(name);
      ghost var before := world;
      var box := NewBox(keyType, valType);
      BoxCount();
      hide Valid, Registry.Valid;
      BindTo(name, box);
      assert before.Fits(name, keyType, valType);
    }

    /** The first use of a name, given the box just built. */
    method BindTo(name: string, box: Box)
      requires Valid() && registry.NeedsBuild(name) && |boxes| > 0 && boxes[|boxes| - 1] == box
      requires forall n :: registry.IsBound(n) ==> registry.entries[n].typed.box != box
      modifies this`handles, this`world, registry
      ensures Valid()
      ensures world == old(world).(
                names := old(world).names[name := Some(|boxes| - 1)], handles := old(world).handles + [|boxes| - 1])
    {
      ghost var c := |boxes| - 1;
      NameMeans(name);
      BoxCount();
      hide ShowsBoxes, ShowsHandles, ShowsEntries, Registry.Valid;
      var r := registry.Named(name, box.keyType, box.valType, Some(box));
      assert IsHandle(r.value, c);
      OneHandleMore(handles, world.handles, r.value, c);
      OneEntryMore(old(registry.entries), world.names, name, r.value, c);
      handles := handles + [r.value];
      world := world.(names := world.names[name := Some(c)], handles := world.handles + [c]);
    }

    lemma BoxCount()
      requires Valid()
      ensures |handles| == |world.handles| && |boxes| == |world.types|
    {
    }

    lemma OneHandleMore(handles: seq<Handle>, ids: seq<nat>, h: Handle, b: nat)
      requires ShowsHandles(handles, ids) && IsHandle(h, b)
      ensures ShowsHandles(handles + [h], ids + [b])
    {
    }

    lemma OneEntryMore(entries: map<string, Entry>, names: map<string, Option<nat>>, name: string, h: Handle, b: nat)
      requires ShowsEntries(entries, names) && IsHandle(h, b)
      ensures ShowsEntries(entries[name := Bound(h)], names[name := Some(b)])
    {
    }

    method RegisterName(name: string)
      requires Valid()
      modifies this`world, registry
      ensures Valid() && world == old(world).After(DoRegister(name))
    {
      assert forall n :: n in world.names && world.names[n].Some? ==> registry.IsBound(n);
      registry.Register(name);
      world := world.After(DoRegister(name));
    }

    method UnregisterName(name: string)
      requires Valid()
      modifies this`world, registry
      ensures Valid() && world == old(world).After(DoUnregister(name))
    {
      assert forall n :: n in world.names && world.names[n].Some? ==> registry.IsBound(n);
      registry.Unregister(name);
      world := world.After(DoUnregister(name));
    }

    /** An operation on the registry. */
    method StepName(op: Op)
      requires Valid() && (op.DoRegister? || op.DoUnregister? || op.DoNamed?)
      modifies this, registry
      ensures Valid() && world == old(world).After(op)
      ensures old(boxes) <= boxes && forall b :: |old(boxes)| <= b < |boxes| ==> fresh(boxes[b])
    {
      hide Valid, World.After;
      match op {
        case DoRegister(name) => RegisterName(name);
        case DoUnregister(name) => UnregisterName(name);
        case DoNamed(name, keyType, valType, builds) => NamedAs(name, keyType, valType, builds);
      }
    }

    /** An operation through a handle. */
    method StepHandle(i: nat, op: Op) returns (o: Outcome)
      requires Valid() && i < |handles|
      requires (op.DoGet? || op.DoSet? || op.DoLoad? || op.DoForget?) && op.handle == i
      modifies this`world, boxes
      ensures Valid() && world == old(world).After(op) && o == old(world).Answer(op)
    {
      BoxCount();
      hide Valid;
      o := Done;
      match op {
        case DoGet(_, key) => o := GetAt(i, key);
        case DoSet(_, key, value) => SetAt(i, key, value);
        case DoLoad(_, key, load) => o := LoadAt(i, key, load);
        case DoForget(_, keys) => ForgetAt(i, keys);
      }
    }

    /** One operation. */
    method Step(op: Op) returns (o: Outcome)
      requires Valid()
      modifies this, registry, boxes
      ensures Valid() && world == old(world).After(op) && o == old(world).Answer(op)
      ensures old(boxes) <= boxes && forall b :: |old(boxes)| <= b < |boxes| ==> fresh(boxes[b])
    {
      BoxCount();
      hide Valid;
      o := Done;
      if op.DoRegister? || op.DoUnregister? || op.DoNamed? {
        StepName(op);
      } else if op.handle < |handles| {
        o := StepHandle(op.handle, op);
      }
    }

    lemma OneHandle()
      requires Valid()
      ensures forall i, j :: 0 <= i < |handles| && 0 <= j < |handles| && handles[i].box == handles[j].box ==>
        handles[i] == handles[j]
    {
      forall i, j | 0 <= i < |handles| && 0 <= j < |handles| && handles[i].box == handles[j].box
        ensures handles[i] == handles[j]
      {
        assert IsHandle(handles[i], world.handles[i]) && IsHandle(handles[j], world.handles[j]);
      }
    }

    /** Whatever is registered, dropped, named and stored, in any order: the caller sees what
        the world of values says, so that no type assertion fails, and a box has one handle. */
    method Run(ops: seq<Op>) returns (outcomes: seq<Outcome>)
      requires Valid()
      modifies this, registry, boxes
      ensures Valid() && world == old(world).AfterAll(ops)
      ensures outcomes == old(world).Answers(ops) && CastPanic !in outcomes
      ensures forall i, j :: 0 <= i < |handles| && 0 <= j < |handles| && handles[i].box == handles[j].box ==>
        handles[i] == handles[j]
    {
      ghost var first := world;
      assert first.Closed();
      hide Valid, World.After, World.Answer, World.Closed;
      outcomes := RunSteps(ops);
      assert CastPanic !in first.Answers(ops);
      OneHandle();
    }

    method RunSteps(ops: seq<Op>) returns (outcomes: seq<Outcome>)
      requires Valid()
      modifies this, registry, boxes
      ensures Valid() && world == old(world).AfterAll(ops) && outcomes == old(world).Answers(ops)
      ensures old(boxes) <= boxes && forall b :: |old(boxes)| <= b < |boxes| ==> fresh(boxes[b])
    {
      assert world.Closed();
      hide Valid, World.After, World.Answer, World.Closed;
      if ops == [] {
        return [];
      }
      var n := |ops| - 1;
      outcomes := RunSteps(ops[..n]);
      var o := Step(ops[n]);
      outcomes := outcomes + [o];
    }
  }

  lemma HoldsLess(contents: map<Boxed, Boxed>, types: (TypeId, TypeId), data: map<int, int>, keys: set<Boxed>)
    requires Holds(contents, types, data)
    ensures Holds(contents - keys, types, map k | k in data && Boxed(types.0, k) !in keys :: data[k])
  {
    forall k: Boxed | k.typ == types.0 ensures k == Boxed(types.0, k.data) {
    }
  }

  /** What a key finds. */
  lemma HoldsAt(contents: map<Boxed, Boxed>, types: (TypeId, TypeId), data: map<int, int>, key: int)
    requires Holds(contents, types, data)
    ensures Boxed(types.0, key) in contents <==> key in data
    ensures key in data ==> contents[Boxed(types.0, key)] == Boxed(types.1, data[key])
  {
  }

  lemma HoldsMore(contents: map<Boxed, Boxed>, types: (TypeId, TypeId), data: map<int, int>, key: int, value: int)
    requires Holds(contents, types, data)
    ensures Holds(contents[Boxed(types.0, key) := Boxed(types.1, value)], types, data[key := value])
  {
  }
}
