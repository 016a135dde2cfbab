/** Reloading the configuration (pkg/config/module.go) and the bindings that follow it
    (pkg/config/bind.go). */
module ConfigReload {
  import opened Common

  type Koanf = map<string, string>

  // ----- loading -----

  /** What one source yields: its keys, or an error. */
  type Load = Option<Koanf>

  /** All sources merged in order, unless one fails. */
  function Merged(loads: seq<Load>): Option<Koanf> {
    if loads == [] then Some(map[])
    else
      var before := Merged(loads[..|loads| - 1]);
      var last := loads[|loads| - 1];
      if before.None? || last.None? then None else Some(before.value + last.value)
  }

  /** The i-th source is the last that has the key. */
  ghost predicate LastWith(loads: seq<Load>, key: string, i: int) {
    && 0 <= i < |loads| && loads[i].Some? && key in loads[i].value
    && forall j :: i < j < |loads| ==> loads[j].Some? ==> key !in loads[j].value
  }

  lemma {:induction false} LoadsIff(loads: seq<Load>)
    ensures Merged(loads).Some? <==> forall i :: 0 <= i < |loads| ==> loads[i].Some?
  {
    if loads != [] {
      LoadsIff(loads[..|loads| - 1]);
    }
  }

  /** A key has a value exactly when that is what the last source with the key says: files
      in order, then the environment, then flags. */
  lemma {:induction false} LastSourceWins(loads: seq<Load>, key: string, value: string)
    requires Merged(loads).Some?
    ensures key in Merged(loads).value && Merged(loads).value[key] == value
       <==> exists i :: LastWith(loads, key, i) && loads[i].value[key] == value
  {
    if loads != [] {
      var n := |loads| - 1;
      var before := loads[..n];
      LastSourceWins(before, key, value);
      if key in loads[n].value {
        assert LastWith(loads, key, n);
        assert forall i :: LastWith(loads, key, i) ==> i == n;
      } else {
        assert forall i :: LastWith(loads, key, i) <==> LastWith(before, key, i);
      }
    }
  }

  // ----- bindings -----

  /** A callback of a binding panics on some values. */
  datatype Change<!T> = Change(panics: T -> bool)

  datatype Notice<T> = Notice(callback: int, value: T)

  /** The callbacks that hear of a value: all in order, up to the first that panics. */
  ghost function Notices<T>(onChange: seq<Change<T>>, value: T, k: nat): seq<Notice<T>>
    requires k <= |onChange|
  {
    if k == 0 then []
    else if exists j :: 0 <= j < k - 1 && onChange[j].panics(value) then Notices(onChange, value, k - 1)
    else Notices(onChange, value, k - 1) + [Notice(k - 1, value)]
  }

  lemma {:induction false} NoticesUpToPanic<T>(onChange: seq<Change<T>>, value: T, p: nat, k: nat)
    requires p < k <= |onChange| && onChange[p].panics(value)
    requires forall j :: 0 <= j < p ==> !onChange[j].panics(value)
    ensures Notices(onChange, value, k) == seq(p + 1, i => Notice(i, value))
  {
    if k > p + 1 {
      NoticesUpToPanic(onChange, value, p, k - 1);
    } else {
      NoticesBelow(onChange, value, p);
    }
  }

  lemma {:induction false} NoticesBelow<T>(onChange: seq<Change<T>>, value: T, k: nat)
    requires k <= |onChange| && forall j :: 0 <= j < k ==> !onChange[j].panics(value)
    ensures Notices(onChange, value, k) == seq(k, i => Notice(i, value))
  {
    if k > 0 {
      NoticesBelow(onChange, value, k - 1);
    }
  }

  class Binding<T> {
    var cached: Option<T>
    var onChange: seq<Change<T>>
    var notified: seq<Notice<T>>

    constructor ()
      ensures cached == None && onChange == [] && notified == []
    {
      cached, onChange, notified := None, [], [];
    }

    method OnChange(fn: Change<T>)
      modifies this`onChange
      ensures onChange == old(onChange) + [fn]
    {
      onChange := onChange + [fn];
    }

    /** Binding.update: the value is stored before the callbacks run, so a callback that
        panics stops the later ones but not the value. */
    method Update(value: T) returns (panicked: bool)
      modifies this`cached, this`notified
      ensures cached == Some(value)
      ensures notified == old(notified) + Notices(onChange, value, |onChange|)
      ensures panicked <==> exists j :: 0 <= j < |onChange| && onChange[j].panics(value)
    {
      cached := Some(value);
      var callbacks := onChange;
      for i := 0 to |callbacks|
        invariant cached == Some(value)
        invariant forall j :: 0 <= j < i ==> !callbacks[j].panics(value)
        invariant notified == old(notified) + Notices(onChange, value, i)
      {
        notified := notified + [Notice(i, value)];
        if callbacks[i].panics(value) {
          NoticesUpToPanic(onChange, value, i, |onChange|);
          NoticesUpToPanic(onChange, value, i, i + 1);
          return true;
        }
      }
      panicked := false;
    }
  }

  /** A module that binds the part of the configuration that `decode` reads, if it
      validates. */
  datatype BindModule<!T> = BindModule(binding: Binding<T>, decode: Koanf -> Option<T>, valid: T -> bool) {
    /** unmarshalAndValidate */
    function Read(k: Koanf): (r: Option<T>)
      ensures r.Some? ==> decode(k) == r && valid(r.value)
      ensures r.None? ==> decode(k).None? || !valid(decode(k).value)
    {
      if decode(k).Some? && valid(decode(k).value) then decode(k) else None
    }
  }

  /** What a configuration leaves in a binding that is given it. */
  ghost function Rebound<T>(m: BindModule<T>, before: Option<T>, k: Koanf): Option<T> {
    if m.Read(k).Some? then m.Read(k) else before
  }

  /** bindModule.LoadConfig: a value that does not validate is reported and not stored. */
  method LoadConfig<T>(m: BindModule<T>, k: Koanf) returns (ok: bool)
    modifies m.binding`cached, m.binding`notified
    ensures ok <==> m.Read(k).Some?
    ensures m.binding.cached == Rebound(m, old(m.binding.cached), k)
    ensures !ok ==> unchanged(m.binding)
  {
    var value := m.Read(k);
    if value.None? {
      return false;
    }
    var _ := m.binding.Update(value.value);
    ok := true;
  }

  // ----- the config module -----

  /** A reload callback: one of a bind module, or another, which may panic. */
  datatype Callback<!T> = Rebind(bound: BindModule<T>) | Other(panics: Koanf -> bool)

  datatype Call = Call(callback: int, k: Koanf)

  datatype Outcome = Reloaded | LoadFailed | RejectedBy(validator: nat)

  function CallsTo(n: nat, k: Koanf): seq<Call> {
    seq(n, i => Call(i, k))
  }

  /** The calls, one for each flag, whose flag is set. */
  function Panicking(flags: seq<bool>, k: Koanf): seq<Call> {
    if flags == [] then []
    else
      var n := |flags| - 1;
      Panicking(flags[..n], k) + if flags[n] then [Call(n, k)] else []
  }

  lemma OneFlagMore(flags: seq<bool>, i: nat, k: Koanf)
    requires i < |flags|
    ensures Panicking(flags[..i + 1], k) == Panicking(flags[..i], k) + if flags[i] then [Call(i, k)] else []
  {
    assert flags[..i + 1][..i] == flags[..i];
  }

  ghost predicate Accepts(validators: seq<Koanf -> bool>, k: Koanf) {
    forall i :: 0 <= i < |validators| ==> validators[i](k)
  }

  /** The bindings that a list of callbacks serves. */
  ghost function BindingsOf<T>(callbacks: seq<Callback<T>>): set<Binding<T>> {
    set i | 0 <= i < |callbacks| && callbacks[i].Rebind? :: callbacks[i].bound.binding
  }

  ghost function BoundTo<T>(c: Callback<T>): set<Binding<T>> {
    if c.Rebind? then {c.bound.binding} else {}
  }

  lemma MoreBindings<T>(callbacks: seq<Callback<T>>, c: Callback<T>)
    ensures BindingsOf(callbacks + [c]) == BindingsOf(callbacks) + if c.Rebind? then {c.bound.binding} else {}
  {
    var more := callbacks + [c];
    forall b | b in BindingsOf(callbacks) ensures b in BindingsOf(more) {
      var i :| 0 <= i < |callbacks| && callbacks[i].Rebind? && b == callbacks[i].bound.binding;
      assert more[i] == callbacks[i];
    }
    if c.Rebind? {
      assert more[|callbacks|] == c;
    }
  }

  ghost function HeldBy<T>(c: Callback<T>): Option<T>
    reads BoundTo(c)
  {
    if c.Rebind? then c.bound.binding.cached else None
  }

  /** What the binding of each callback holds. */
  ghost function Held<T>(callbacks: seq<Callback<T>>): (held: seq<Option<T>>)
    reads BindingsOf(callbacks)
    ensures |held| == |callbacks| && forall i :: 0 <= i < |held| ==> held[i] == HeldBy(callbacks[i])
  {
    seq(|callbacks|, i requires 0 <= i < |callbacks| reads BindingsOf(callbacks) =>
      assert callbacks[i].Rebind? ==> callbacks[i].bound.binding in BindingsOf(callbacks);
      HeldBy(callbacks[i]))
  }

  /** What one callback leaves in its binding. */
  ghost function HeldAfterOne<T>(c: Callback<T>, before: Option<T>, k: Koanf): Option<T> {
    if c.Rebind? then Rebound(c.bound, before, k) else None
  }

  /** What a commit leaves in every binding. */
  ghost function HeldAfter<T>(callbacks: seq<Callback<T>>, held: seq<Option<T>>, k: Koanf): (after: seq<Option<T>>)
    ensures |after| == |held|
  {
    seq(|held|, i requires 0 <= i < |held| =>
      if i < |callbacks| then HeldAfterOne(callbacks[i], held[i], k) else held[i])
  }

  lemma OneHeldMore<T>(callbacks: seq<Callback<T>>, held: seq<Option<T>>, i: nat, k: Koanf)
    requires i < |callbacks| == |held|
    ensures var before := HeldAfter(callbacks[..i], held, k);
            before[i] == held[i]
            && HeldAfter(callbacks[..i + 1], held, k) == before[i := HeldAfterOne(callbacks[i], held[i], k)]
  {
    hide HeldAfterOne;
  }

  /** Every binding holds a value that validates. */
  ghost predicate HeldValid<T>(callbacks: seq<Callback<T>>, held: seq<Option<T>>) {
    && |held| == |callbacks|
    && forall i :: 0 <= i < |callbacks| && callbacks[i].Rebind? ==>
         held[i].Some? && callbacks[i].bound.valid(held[i].value)
  }

  lemma HeldAfterIsValid<T>(callbacks: seq<Callback<T>>, held: seq<Option<T>>, k: Koanf)
    requires HeldValid(callbacks, held)
    ensures HeldValid(callbacks, HeldAfter(callbacks, held, k))
  {
  }

  /** No two callbacks share a binding. */
  ghost predicate OwnBindings<T>(callbacks: seq<Callback<T>>) {
    forall i, j :: 0 <= i < j < |callbacks| && callbacks[i].Rebind? && callbacks[j].Rebind? ==>
      callbacks[i].bound.binding != callbacks[j].bound.binding
  }

  /** What a configuration is told to, and what the bindings held before. */
  datatype Round<!T> = Round(callbacks: seq<Callback<T>>, flags: seq<bool>, k: Koanf, held: seq<Option<T>>)

  /** The first `i` callbacks have been called: the calls made, the panics among them, and
      what the bindings hold now. */
  ghost predicate Called<T>(r: Round<T>, i: nat, calls: seq<Call>, panics: seq<Call>, held: seq<Option<T>>) {
    && i <= |r.callbacks| == |r.flags| == |r.held|
    && calls == CallsTo(i, r.k) && panics == Panicking(r.flags[..i], r.k)
    && held == HeldAfter(r.callbacks[..i], r.held, r.k)
  }

  lemma NoneCalled<T>(r: Round<T>)
    requires |r.callbacks| == |r.flags| == |r.held|
    ensures Called(r, 0, [], [], r.held)
  {
  }

  lemma OneCalled<T>(r: Round<T>, i: nat, calls: seq<Call>, panics: seq<Call>, held: seq<Option<T>>)
    requires Called(r, i, calls, panics, held) && i < |r.callbacks|
    ensures held[i] == r.held[i]
    ensures Called(r, i + 1, calls + [Call(i, r.k)], panics + if r.flags[i] then [Call(i, r.k)] else [],
                   held[i := HeldAfterOne(r.callbacks[i], r.held[i], r.k)])
  {
    hide HeldAfter, HeldAfterOne, Panicking;
    OneFlagMore(r.flags, i, r.k);
    OneHeldMore(r.callbacks, r.held, i, r.k);
    assert CallsTo(i + 1, r.k) == CallsTo(i, r.k) + [Call(i, r.k)];
  }

  lemma Grouped(a: seq<Call>, b: seq<Call>, c: seq<Call>)
    ensures (a + b) + c == a + (b + c)
  {
  }

  lemma AllCalled<T>(r: Round<T>, calls: seq<Call>, panics: seq<Call>, held: seq<Option<T>>)
    requires Called(r, |r.callbacks|, calls, panics, held)
    ensures calls == CallsTo(|r.callbacks|, r.k) && panics == Panicking(r.flags, r.k)
    ensures held == HeldAfter(r.callbacks, r.held, r.k)
  {
    assert r.flags[..|r.flags|] == r.flags && r.callbacks[..|r.callbacks|] == r.callbacks;
  }

  class ConfigModule<T> {
    const initial: Koanf
    var koanf: Koanf
    var onValidate: seq<Koanf -> bool>
    var onReload: seq<Callback<T>>
    /** Every invocation of a reload callback. */
    var calls: seq<Call>
    /** Those that ended in a panic. */
    var recovered: seq<Call>
    /** How many validators had been registered at the last commit, if there was one. */
    ghost var atCommit: Option<nat>

    ghost predicate IsBound(i: int)
      reads this
    {
      0 <= i < |onReload| && onReload[i].Rebind?
    }

    ghost function Bindings(): set<Binding<T>>
      reads this`onReload
    {
      BindingsOf(onReload)
    }

    /** The configuration in force is the first one or was accepted by every validator
        registered when it was committed; every binding holds a value that validates; no
        two callbacks share a binding. */
    ghost predicate Valid()
      reads this, Bindings()
    {
      && (atCommit.None? ==> koanf == initial)
      && (atCommit.Some? ==> atCommit.value <= |onValidate| && Accepts(onValidate[..atCommit.value], koanf))
      && HeldValid(onReload, Held(onReload))
      && OwnBindings(onReload)
    }

    constructor (initial: Koanf)
      ensures Valid() && this.initial == koanf == initial && atCommit == None
      ensures onReload == [] && onValidate == [] && calls == [] && recovered == []
    {
      this.initial, koanf := initial, initial;
      onValidate, onReload, calls, recovered, atCommit := [], [], [], [], None;
    }

    method OnValidate(fn: Koanf -> bool)
      requires Valid()
      modifies this`onValidate
      ensures Valid() && onValidate == old(onValidate) + [fn] && Bindings() == old(Bindings())
    {
      onValidate := onValidate + [fn];
      assert atCommit.Some? ==> onValidate[..atCommit.value] == old(onValidate)[..atCommit.value];
    }

    method OnReload(panics: Koanf -> bool)
      requires Valid()
      modifies this`onReload
      ensures Valid() && onReload == old(onReload) + [Other(panics)] && Bindings() == old(Bindings())
    {
      onReload := onReload + [Other(panics)];
      MoreBindings(old(onReload), Other(panics));
      assert forall i :: IsBound(i) ==> old(IsBound(i)) && onReload[i] == old(onReload[i]);
    }

    /** bindModule.Init: bind to the configuration that was provided when the config module
        started, which no reload replaces, and follow the reloads from now on. */
    method InitBinding(m: BindModule<T>) returns (ok: bool)
      requires Valid() && m.binding !in Bindings()
      modifies this`onReload, m.binding`cached
      ensures Valid()
      ensures ok <==> m.Read(initial).Some?
      ensures ok ==> m.binding.cached == m.Read(initial) && onReload == old(onReload) + [Rebind(m)]
      ensures !ok ==> m.binding.cached == old(m.binding.cached) && onReload == old(onReload)
      ensures Bindings() == old(Bindings()) + if ok then {m.binding} else {}
    {
      var value := m.Read(initial);
      if value.None? {
        return false;
      }
      forall i | IsBound(i) ensures onReload[i].bound.binding != m.binding {
        assert onReload[i].bound.binding in Bindings();
      }
      m.binding.cached := value;
      onReload := onReload + [Rebind(m)];
      MoreBindings(old(onReload), Rebind(m));
      assert forall i :: IsBound(i) ==> i == old(|onReload|) || (old(IsBound(i)) && onReload[i] == old(onReload[i]));
      ok := true;
    }

    /** The callback panics on this configuration. */
    ghost predicate Panics(i: int, k: Koanf)
      requires 0 <= i < |onReload|
      reads this`onReload, Bindings()`onChange
    {
      match onReload[i]
      case Rebind(m) =>
        assert m.binding in Bindings();
        m.Read(k).Some? && exists j :: 0 <= j < |m.binding.onChange| && m.binding.onChange[j].panics(m.Read(k).value)
      case Other(panics) => panics(k)
    }

    /** Which of the first `n` callbacks panic on this configuration. */
    ghost function PanicsOn(n: nat, k: Koanf): (flags: seq<bool>)
      requires n <= |onReload|
      reads this`onReload, Bindings()`onChange
      ensures |flags| == n && forall i :: 0 <= i < n ==> flags[i] == Panics(i, k)
    {
      if n == 0 then [] else PanicsOn(n - 1, k) + [Panics(n - 1, k)]
    }

    /** One call of a callback, with the panic it may end in. */
    method Invoke(i: nat, k: Koanf) returns (panicked: bool)
      requires i < |onReload|
      modifies this`calls, BoundTo(onReload[i])`cached, BoundTo(onReload[i])`notified
      ensures calls == old(calls) + [Call(i, k)]
      ensures onReload[i].Rebind? ==>
        onReload[i].bound.binding.cached == Rebound(onReload[i].bound, old(onReload[i].bound.binding.cached), k)
      ensures panicked <==> Panics(i, k)
    {
      calls := calls + [Call(i, k)];
      match onReload[i] {
        case Rebind(m) =>
          var value := m.Read(k);
          panicked := false;
          if value.Some? {
            panicked := m.binding.Update(value.value);
          }
        case Other(panics) => panicked := panics(k);
      }
    }

    /** safeCallback: a panic is recorded and goes no further. */
    method SafeCallback(i: nat, k: Koanf)
      requires i < |onReload| && OwnBindings(onReload)
      modifies this`calls, this`recovered, BoundTo(onReload[i])`cached, BoundTo(onReload[i])`notified
      ensures calls == old(calls) + [Call(i, k)]
      ensures Held(onReload) == old(Held(onReload))[i := HeldAfterOne(onReload[i], old(Held(onReload))[i], k)]
      ensures recovered == old(recovered) + if Panics(i, k) then [Call(i, k)] else []
    {
      ghost var before := Held(onReload);
      var panicked := Invoke(i, k);
      if panicked {
        recovered := recovered + [Call(i, k)];
      }
      hide Rebound, Panics;
      forall j | 0 <= j < |onReload| && j != i ensures HeldBy(onReload[j]) == before[j] {
        assert onReload[j].Rebind? && onReload[i].Rebind? ==> onReload[j].bound.binding != onReload[i].bound.binding;
      }
    }

    /** loading a candidate */
    method LoadAll(loads: seq<Load>) returns (candidate: Option<Koanf>)
      ensures candidate == Merged(loads)
    {
      var k: Koanf := map[];
      for i := 0 to |loads|
        invariant Merged(loads[..i]) == Some(k)
      {
        assert loads[..i + 1][..i] == loads[..i];
        if loads[i].None? {
          LoadsIff(loads);
          return None;
        }
        k := k + loads[i].value;
      }
      assert loads[..|loads|] == loads;
      candidate := Some(k);
    }

    /** The first validator that rejects the candidate. */
    method FirstRejection(k: Koanf) returns (r: Option<nat>)
      ensures r.None? ==> Accepts(onValidate, k)
      ensures r.Some? ==> r.value < |onValidate| && !onValidate[r.value](k) && Accepts(onValidate[..r.value], k)
    {
      for i := 0 to |onValidate|
        invariant Accepts(onValidate[..i], k)
      {
        if !onValidate[i](k) {
          return Some(i);
        }
      }
      assert onValidate[..|onValidate|] == onValidate;
      r := None;
    }

    /** Every callback in turn. */
    method CallAll(k: Koanf)
      requires OwnBindings(onReload)
      modifies this`calls, this`recovered, Bindings()`cached, Bindings()`notified
      ensures calls == old(calls) + CallsTo(|onReload|, k)
      ensures recovered == old(recovered) + Panicking(PanicsOn(|onReload|, k), k)
      ensures Held(onReload) == HeldAfter(onReload, old(Held(onReload)), k)
    {
      hide Held, HeldAfter, HeldAfterOne, Rebound, Panics, Panicking, OwnBindings, CallsTo, Called, IsBound;
      ghost var r := Round(onReload, PanicsOn(|onReload|, k), k, Held(onReload));
      ghost var made, panics := [], [];
      NoneCalled(r);
      for i := 0 to |onReload|
        invariant calls == old(calls) + made && recovered == old(recovered) + panics
        invariant PanicsOn(|onReload|, k) == r.flags && Called(r, i, made, panics, Held(onReload))
      {
        assert onReload[i].Rebind? ==> onReload[i].bound.binding in Bindings();
        assert BoundTo(onReload[i]) <= Bindings();
        hide BindingsOf, BoundTo;
        OneCalled(r, i, made, panics, Held(onReload));
        ghost var all, some := calls, recovered;
        ghost var one := if r.flags[i] then [Call(i, k)] else [];
        SafeCallback(i, k);
        assert calls == all + [Call(i, k)] && recovered == some + one;
        Grouped(old(calls), made, [Call(i, k)]);
        Grouped(old(recovered), panics, one);
        made, panics := made + [Call(i, k)], panics + one;
      }
      AllCalled(r, made, panics, Held(onReload));
    }

    /** The last part of reload: install an accepted candidate, then tell everyone. */
    method Commit(k: Koanf)
      requires Valid() && Accepts(onValidate, k)
      modifies this`koanf, this`calls, this`recovered, this`atCommit, Bindings()`cached, Bindings()`notified
      ensures Valid() && koanf == k && atCommit == Some(|onValidate|)
      ensures calls == old(calls) + CallsTo(|onReload|, k)
      ensures recovered == old(recovered) + Panicking(PanicsOn(|onReload|, k), k)
      ensures Held(onReload) == HeldAfter(onReload, old(Held(onReload)), k)
    {
      hide Held, HeldAfter, HeldValid, Panicking, CallsTo, OwnBindings, Accepts;
      HeldAfterIsValid(onReload, Held(onReload), k);
      koanf := k;
      atCommit := Some(|onValidate|);
      assert onValidate[..|onValidate|] == onValidate;
      CallAll(k);
    }

    /** reload: a candidate that does not load or that a validator rejects changes nothing
        and calls nothing; one that is committed reaches every callback once, in order,
        whatever panics, and every binding that can read it. */
    method Reload(loads: seq<Load>) returns (outcome: Outcome)
      requires Valid()
      modifies this`koanf, this`calls, this`recovered, this`atCommit, Bindings()`cached, Bindings()`notified
      ensures Valid()
      ensures outcome == LoadFailed <==> Merged(loads).None?
      ensures outcome.RejectedBy? ==>
        && outcome.validator < |onValidate| && !onValidate[outcome.validator](Merged(loads).value)
        && Accepts(onValidate[..outcome.validator], Merged(loads).value) && !Accepts(onValidate, Merged(loads).value)
      ensures outcome == Reloaded ==>
        && koanf == Merged(loads).value && Accepts(onValidate, koanf) && atCommit == Some(|onValidate|)
        && calls == old(calls) + CallsTo(|onReload|, koanf)
        && recovered == old(recovered) + Panicking(PanicsOn(|onReload|, koanf), koanf)
        && Held(onReload) == HeldAfter(onReload, old(Held(onReload)), koanf)
      ensures outcome != Reloaded ==>
        && koanf == old(koanf) && calls == old(calls) && recovered == old(recovered) && atCommit == old(atCommit)
        && Held(onReload) == old(Held(onReload)) && forall b :: b in Bindings() ==> unchanged(b)
    {
      hide Valid, Held, HeldAfter, Panicking, PanicsOn, CallsTo, Merged;
      var candidate := LoadAll(loads);
      if candidate.None? {
        return LoadFailed;
      }
      var rejection := FirstRejection(candidate.value);
      if rejection.Some? {
        return RejectedBy(rejection.value);
      }
      Commit(candidate.value);
      outcome := Reloaded;
    }
  }

  // ----- any sequence of reloads -----

  /** What the configuration is after reloads that load these candidates, with the
      validators registered all along. */
  ghost function Live(initial: Koanf, validators: seq<Koanf -> bool>, runs: seq<seq<Load>>): Koanf {
    if runs == [] then initial
    else
      var last := Merged(runs[|runs| - 1]);
      if last.Some? && Accepts(validators, last.value) then last.value
      else Live(initial, validators, runs[..|runs| - 1])
  }

  /** A binding after the same reloads: it follows every committed configuration it can
      read and keeps its value otherwise. */
  ghost function Following<T>(m: BindModule<T>, first: Option<T>, validators: seq<Koanf -> bool>, runs: seq<seq<Load>>)
    : Option<T>
  {
    if runs == [] then first
    else
      var before := Following(m, first, validators, runs[..|runs| - 1]);
      var last := Merged(runs[|runs| - 1]);
      if last.Some? && Accepts(validators, last.value) then Rebound(m, before, last.value) else before
  }

  ghost function FollowingAll<T>(
      callbacks: seq<Callback<T>>, first: seq<Option<T>>, validators: seq<Koanf -> bool>, runs: seq<seq<Load>>)
    : (held: seq<Option<T>>)
    ensures |held| == |first|
    ensures forall i :: 0 <= i < |first| && i < |callbacks| && callbacks[i].Rebind? ==>
      held[i] == Following(callbacks[i].bound, first[i], validators, runs)
    ensures runs == [] ==> held == first
  {
    seq(|first|, i requires 0 <= i < |first| =>
      if i < |callbacks| && callbacks[i].Rebind? then Following(callbacks[i].bound, first[i], validators, runs) else first[i])
  }

  lemma OneRunMore<T>(
      callbacks: seq<Callback<T>>, first: seq<Option<T>>, validators: seq<Koanf -> bool>, runs: seq<seq<Load>>, n: nat)
    requires n < |runs| && |first| == |callbacks|
    requires forall i :: 0 <= i < |callbacks| && !callbacks[i].Rebind? ==> first[i] == None
    ensures
      var before, k := FollowingAll(callbacks, first, validators, runs[..n]), Merged(runs[n]);
      FollowingAll(callbacks, first, validators, runs[..n + 1])
      == if k.Some? && Accepts(validators, k.value) then HeldAfter(callbacks, before, k.value) else before
  {
    assert runs[..n + 1][..n] == runs[..n];
    hide Rebound, Accepts, Merged;
  }

  lemma LiveOneMore(initial: Koanf, validators: seq<Koanf -> bool>, runs: seq<seq<Load>>, n: nat)
    requires n < |runs|
    ensures
      var k := Merged(runs[n]);
      Live(initial, validators, runs[..n + 1])
      == if k.Some? && Accepts(validators, k.value) then k.value else Live(initial, validators, runs[..n])
  {
    assert runs[..n + 1][..n] == runs[..n];
  }

  /** Any number of reloads. */
  method ReloadMany<T>(c: ConfigModule<T>, runs: seq<seq<Load>>)
    requires c.Valid()
    modifies c`koanf, c`calls, c`recovered, c`atCommit, c.Bindings()`cached, c.Bindings()`notified
    ensures c.Valid() && c.koanf == Live(old(c.koanf), c.onValidate, runs)
    ensures forall i :: c.IsBound(i) ==>
      var m := c.onReload[i].bound;
      m.binding.cached == Following(m, old(m.binding.cached), c.onValidate, runs)
  {
    hide ConfigModule.Valid, Rebound, Merged, Following, HeldAfter, FollowingAll, CallsTo, Panicking, Accepts;
    ghost var was := Held(c.onReload);
    for n := 0 to |runs|
      invariant c.Valid() && c.koanf == Live(old(c.koanf), c.onValidate, runs[..n])
      invariant Held(c.onReload) == FollowingAll(c.onReload, was, c.onValidate, runs[..n])
    {
      var outcome := c.Reload(runs[n]);
      OneRunMore(c.onReload, was, c.onValidate, runs, n);
      LiveOneMore(old(c.koanf), c.onValidate, runs, n);
    }
    assert runs[..|runs|] == runs;
  }

  /** The configuration after any reloads is the first one or one that every validator
      accepted. */
  lemma {:induction false} LiveIsAccepted(initial: Koanf, validators: seq<Koanf -> bool>, runs: seq<seq<Load>>)
    ensures Live(initial, validators, runs) == initial || Accepts(validators, Live(initial, validators, runs))
  {
    if runs != [] {
      LiveIsAccepted(initial, validators, runs[..|runs| - 1]);
    }
  }

  /** A binding that held a valid value holds one after any reloads. */
  lemma {:induction false} FollowingIsValid<T>(
      m: BindModule<T>, first: Option<T>, validators: seq<Koanf -> bool>, runs: seq<seq<Load>>)
    requires first.Some? && m.valid(first.value)
    ensures
      var v := Following(m, first, validators, runs);
      v.Some? && m.valid(v.value)
  {
    if runs != [] {
      FollowingIsValid(m, first, validators, runs[..|runs| - 1]);
    }
  }

  // ----- any use of the module -----

  datatype Op<!T> =
    | AddValidator(fn: Koanf -> bool)
    | AddCallback(panics: Koanf -> bool)
    | AddChange(b: Binding<T>, change: Change<T>)
    | Bind(m: BindModule<T>)
    | DoReload(loads: seq<Load>)

  /** The module as a value: `held` is what each callback's binding holds, `commit` how many
      validators had been registered at the last commit. */
  datatype Replay<!T> = Replay(
    initial: Koanf, koanf: Koanf, validators: seq<Koanf -> bool>, callbacks: seq<Callback<T>>,
    held: seq<Option<T>>, commit: Option<nat>, calls: seq<Call>)

  /** The binding an operation is given. */
  ghost function TouchedBy<T>(op: Op<T>): set<Binding<T>> {
    match op
    case Bind(m) => {m.binding}
    case AddChange(b, _) => {b}
    case _ => {}
  }

  ghost predicate Commits<T>(s: Replay<T>, op: Op<T>) {
    op.DoReload? && Merged(op.loads).Some? && Accepts(s.validators, Merged(op.loads).value)
  }

  ghost function After<T>(s: Replay<T>, op: Op<T>): Replay<T> {
    match op
    case AddValidator(fn) => s.(validators := s.validators + [fn])
    case AddChange(_, _) => s
    case AddCallback(panics) => s.(callbacks := s.callbacks + [Other(panics)], held := s.held + [None])
    case Bind(m) =>
      if m.Read(s.initial).None? then s
      else s.(callbacks := s.callbacks + [Rebind(m)], held := s.held + [m.Read(s.initial)])
    case DoReload(loads) =>
      if !Commits(s, op) then s
      else
        var k := Merged(loads).value;
        s.(koanf := k, held := HeldAfter(s.callbacks, s.held, k), commit := Some(|s.validators|),
           calls := s.calls + CallsTo(|s.callbacks|, k))
  }

  ghost function ReplayOf<T>(s: Replay<T>, ops: seq<Op<T>>): Replay<T> {
    if ops == [] then s else After(ReplayOf(s, ops[..|ops| - 1]), ops[|ops| - 1])
  }

  ghost function View<T>(c: ConfigModule<T>): Replay<T>
    reads c, c.Bindings()
  {
    Replay(c.initial, c.koanf, c.onValidate, c.onReload, Held(c.onReload), c.atCommit, c.calls)
  }

  /** Registering a change callback leaves what bindings hold alone. */
  method AddOnChange<T>(c: ConfigModule<T>, b: Binding<T>, change: Change<T>)
    requires c.Valid()
    modifies b`onChange
    ensures c.Valid() && View(c) == old(View(c)) && b.onChange == old(b.onChange) + [change]
  {
    ghost var held := Held(c.onReload);
    b.OnChange(change);
    assert forall i :: 0 <= i < |held| ==> held[i] == HeldBy(c.onReload[i]);
    assert Held(c.onReload) == held;
    hide Held;
  }

  method OperateBind<T>(c: ConfigModule<T>, m: BindModule<T>)
    requires c.Valid() && m.binding !in c.Bindings()
    modifies c, m.binding
    ensures c.Valid() && View(c) == After(old(View(c)), Bind(m))
    ensures c.Bindings() <= old(c.Bindings()) + {m.binding}
  {
    hide ConfigModule.Valid;
    ghost var held := Held(c.onReload);
    assert forall i :: c.IsBound(i) ==> c.onReload[i].bound.binding in c.Bindings();
    var ok := c.InitBinding(m);
    assert forall i :: 0 <= i < |held| && c.onReload[i].Rebind? ==> old(c.IsBound(i));
    assert Held(c.onReload) == if ok then held + [m.Read(c.initial)] else held;
  }

  method OperateReload<T>(c: ConfigModule<T>, loads: seq<Load>)
    requires c.Valid()
    modifies c, c.Bindings()
    ensures c.Valid() && View(c) == After(old(View(c)), DoReload(loads)) && c.onReload == old(c.onReload)
  {
    hide ConfigModule.Valid, Merged, HeldAfter, Panicking, CallsTo;
    hide Held;
    var outcome := c.Reload(loads);
    assert outcome.RejectedBy? ==> !Accepts(c.onValidate, Merged(loads).value);
  }

  /** One operation on the module. */
  method OperateOne<T>(c: ConfigModule<T>, op: Op<T>)
    requires c.Valid() && (op.Bind? ==> op.m.binding !in c.Bindings())
    modifies c, c.Bindings(), TouchedBy(op)
    ensures c.Valid() && View(c) == After(old(View(c)), op)
    ensures c.Bindings() <= old(c.Bindings()) + TouchedBy(op)
  {
    hide ConfigModule.Valid;
    ghost var held := Held(c.onReload);
    match op {
      case AddValidator(fn) =>
        c.OnValidate(fn);
        assert Held(c.onReload) == held;
      case AddCallback(panics) =>
        c.OnReload(panics);
        assert Held(c.onReload) == held + [None];
      case AddChange(binding, change) =>
        AddOnChange(c, binding, change);
      case Bind(m) => OperateBind(c, m);
      case DoReload(loads) => OperateReload(c, loads);
    }
  }

  /** Validators, callbacks, bindings and reloads in any order: the module is what replaying
      the operations gives. */
  method Operate<T>(c: ConfigModule<T>, ops: seq<Op<T>>, ghost bindings: set<Binding<T>>)
    requires c.Valid() && c.Bindings() <= bindings
    requires forall i :: 0 <= i < |ops| ==> TouchedBy(ops[i]) <= bindings
    requires forall i :: 0 <= i < |ops| && ops[i].Bind? ==> ops[i].m.binding !in c.Bindings()
    requires forall i, j :: 0 <= i < j < |ops| && ops[i].Bind? && ops[j].Bind? ==> ops[i].m.binding != ops[j].m.binding
    modifies c, bindings
    ensures c.Valid() && View(c) == ReplayOf(old(View(c)), ops)
  {
    for k := 0 to |ops|
      invariant c.Valid() && c.Bindings() <= bindings
      invariant View(c) == ReplayOf(old(View(c)), ops[..k])
      invariant forall i :: k <= i < |ops| && ops[i].Bind? ==> ops[i].m.binding !in c.Bindings()
    {
      hide ConfigModule.Valid, View, After;
      OperateOne(c, ops[k]);
      assert ops[..k + 1][..k] == ops[..k];
    }
    assert ops[..|ops|] == ops;
  }

  // ----- what a replay means -----

  /** The validators registered by these operations. */
  function Registered<T>(ops: seq<Op<T>>): seq<Koanf -> bool> {
    if ops == [] then []
    else
      var last := ops[|ops| - 1];
      Registered(ops[..|ops| - 1]) + if last.AddValidator? then [last.fn] else []
  }

  /** The place of the last reload that committed, or -1. */
  ghost function LastCommit<T>(s: Replay<T>, ops: seq<Op<T>>): (j: int)
    ensures -1 <= j < |ops|
  {
    if ops == [] then -1
    else
      var n := |ops| - 1;
      if Commits(ReplayOf(s, ops[..n]), ops[n]) then n else LastCommit(s, ops[..n])
  }

  /** The reload at that place committed, and none after it did. */
  lemma {:induction false} LastCommitIsLast<T>(s: Replay<T>, ops: seq<Op<T>>, i: nat)
    requires LastCommit(s, ops) <= i < |ops|
    ensures Commits(ReplayOf(s, ops[..i]), ops[i]) <==> i == LastCommit(s, ops)
  {
    var n := |ops| - 1;
    if i < n {
      assert ops[..n][..i] == ops[..i];
      if LastCommit(s, ops) < n {
        LastCommitIsLast(s, ops[..n], i);
      }
    }
  }

  lemma {:induction false} ReplayedValidators<T>(s: Replay<T>, ops: seq<Op<T>>)
    ensures ReplayOf(s, ops).validators == s.validators + Registered(ops)
  {
    if ops != [] {
      ReplayedValidators(s, ops[..|ops| - 1]);
    }
  }

  lemma OtherOpKeeps<T>(s: Replay<T>, op: Op<T>)
    requires !Commits(s, op)
    ensures After(s, op).koanf == s.koanf && After(s, op).commit == s.commit && s.validators <= After(s, op).validators
  {
  }

  /** Whatever is registered in between: the configuration in force is the first one or the
      one last committed, and that one was accepted by every validator registered before
      its reload, which is what the recorded count says. */
  lemma {:induction false} CommitMeans<T>(s: Replay<T>, ops: seq<Op<T>>)
    ensures
      var j, r := LastCommit(s, ops), ReplayOf(s, ops);
      if j == -1 then r.koanf == s.koanf && r.commit == s.commit
      else
        var registered := s.validators + Registered(ops[..j]);
        && ops[j].DoReload? && Merged(ops[j].loads) == Some(r.koanf)
        && r.commit == Some(|registered|) && registered <= r.validators && Accepts(registered, r.koanf)
  {
    if ops != [] {
      var n, j := |ops| - 1, LastCommit(s, ops);
      ReplayedValidators(s, ops[..n]);
      hide Registered, Accepts, Merged, HeldAfter;
      if j < n {
        CommitMeans(s, ops[..n]);
        OtherOpKeeps(ReplayOf(s, ops[..n]), ops[n]);
        hide After, Commits;
        if j >= 0 {
          assert ops[..n][..j] == ops[..j];
        }
      }
    }
  }

  /** Callback `i` is the one of bind module `m`. */
  ghost predicate Follows<T>(s: Replay<T>, i: nat, m: BindModule<T>) {
    i < |s.callbacks| && |s.held| == |s.callbacks| && s.callbacks[i] == Rebind(m)
  }

  /** A bound value stays one that validates, whatever is reloaded. */
  lemma {:induction false} HeldStaysValid<T>(s: Replay<T>, ops: seq<Op<T>>, i: nat, m: BindModule<T>)
    requires Follows(s, i, m) && s.held[i].Some? && m.valid(s.held[i].value)
    ensures Follows(ReplayOf(s, ops), i, m)
    ensures ReplayOf(s, ops).held[i].Some? && m.valid(ReplayOf(s, ops).held[i].value)
  {
    if ops != [] {
      HeldStaysValid(s, ops[..|ops| - 1], i, m);
    }
  }

  /** A binding made now agrees with the configuration in force after more operations exactly
      when it reads the first configuration alike, as long as nothing was committed since,
      and when it can read the configuration in force, once something was. */
  lemma {:induction false} NewBindingAgreesIff<T>(s: Replay<T>, m: BindModule<T>, ops: seq<Op<T>>)
    requires |s.held| == |s.callbacks| && m.Read(s.initial).Some?
    ensures
      var i, first := |s.callbacks|, After(s, Bind(m));
      var r := ReplayOf(first, ops);
      && Follows(r, i, m) && r.held[i].Some?
      && (r.held[i] == m.Read(r.koanf) <==>
          if LastCommit(first, ops) >= 0 then m.Read(r.koanf).Some? else m.Read(s.initial) == m.Read(s.koanf))
      && (LastCommit(first, ops) == -1 ==> r.held[i] == m.Read(s.initial) && r.koanf == s.koanf)
  {
    if ops != [] {
      NewBindingAgreesIff(s, m, ops[..|ops| - 1]);
    }
  }

  /** Bound after a reload that changed what it reads, a module does not agree with the
      configuration in force. */
  lemma LateBindingDisagrees<T>(m: BindModule<T>, k0: Koanf, k1: Koanf)
    requires m.Read(k0).Some? && m.Read(k1) != m.Read(k0)
    ensures
      var r := ReplayOf(Replay(k0, k0, [], [], [], None, []), [DoReload([Some(k1)]), Bind(m)]);
      r.koanf == k1 && r.callbacks == [Rebind(m)] && r.held == [m.Read(k0)] && r.held[0] != m.Read(r.koanf)
  {
    var s, reload := Replay(k0, k0, [], [], [], None, []), DoReload([Some(k1)]);
    OnlyLoad(k1);
    var once := After(s, reload);
    assert once.koanf == k1 && once.callbacks == [] && once.held == [] && once.initial == k0;
    hide After, Merged;
    assert [reload, Bind(m)][..1] == [reload] && [reload][..0] == [];
    assert ReplayOf(s, [reload]) == once;
    BindTo(once, m);
  }

  lemma BindTo<T>(s: Replay<T>, m: BindModule<T>)
    requires m.Read(s.initial).Some?
    ensures After(s, Bind(m)).koanf == s.koanf && After(s, Bind(m)).callbacks == s.callbacks + [Rebind(m)]
    ensures After(s, Bind(m)).held == s.held + [m.Read(s.initial)]
  {
  }

  lemma OnlyLoad(k: Koanf)
    ensures Merged([Some(k)]) == Some(k)
  {
    var load, none: Koanf := Some(k), map[];
    assert [load][..0] == [] && Merged([]) == Some(none) && none + k == k;
  }

  /** The port moves from 80 to 81 before the module that uses it is bound, to 80. */
  method PortBoundLate() returns (inForce: Koanf, bound: Option<string>)
    ensures inForce == map["port" := "81"] && bound == Some("80")
  {
    var k0: Koanf, k1: Koanf := map["port" := "80"], map["port" := "81"];
    var c := new ConfigModule<string>(k0);
    var binding := new Binding<string>();
    var m := BindModule(binding, (k: Koanf) => if "port" in k then Some(k["port"]) else None, value => true);
    assert m.Read(k0) == Some("80") && m.Read(k1) == Some("81");
    assert View(c) == Replay(k0, k0, [], [], [], None, []);
    LateBindingDisagrees(m, k0, k1);
    Operate(c, [DoReload([Some(k1)]), Bind(m)], {binding});
    assert View(c).callbacks == [Rebind(m)] && View(c).held == [m.Read(k0)];
    assert c.onReload[0] == Rebind(m) && Held(c.onReload)[0] == HeldBy(c.onReload[0]);
    inForce, bound := c.koanf, binding.cached;
  }
}
