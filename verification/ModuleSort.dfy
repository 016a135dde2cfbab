/** Dependency ordering of modules: the graph built from provider and dependent
    declarations, and Kahn's queue over it (pkg/lakta/runtime.go). */
module ModuleSort {
  import opened Common
  import opened Graphs

  /** Identity of a reflected type. */
  type TypeKey = nat

  /** What one module declares. A module that is not a Provider provides nothing;
      one that is not a Dependent requires and wants nothing. */
  datatype ModuleDecl = ModuleDecl(
    name: string, provided: seq<TypeKey>, required: seq<TypeKey>, optional: seq<TypeKey>)

  datatype ModuleMeta = ModuleMeta(provided: seq<TypeKey>, required: seq<TypeKey>, optional: seq<TypeKey>)

  datatype SortResult =
    | Sorted(modules: seq<ModuleDecl>, meta: seq<ModuleMeta>)
    | UnmetDependency(name: string, missing: TypeKey)
    | CycleDetected

  // ----- what the declarations mean -----

  ghost predicate Provides(mods: seq<ModuleDecl>, i: nat, t: TypeKey) {
    i < |mods| && t in mods[i].provided
  }

  ghost predicate HasProvider(mods: seq<ModuleDecl>, t: TypeKey) {
    exists i: nat :: Provides(mods, i, t)
  }

  /** The owner of a type is the last module that provides it. */
  ghost predicate IsOwner(mods: seq<ModuleDecl>, t: TypeKey, o: nat) {
    Provides(mods, o, t) && forall j: nat :: Provides(mods, j, t) ==> j <= o
  }

  /** Module `i` must come after module `o`: it declares a type that another module owns. */
  ghost predicate DependsOn(mods: seq<ModuleDecl>, i: nat, o: nat) {
    i < |mods| && o != i && exists t :: t in mods[i].required + mods[i].optional && IsOwner(mods, t, o)
  }

  ghost predicate IsMissing(mods: seq<ModuleDecl>, i: nat, t: TypeKey) {
    i < |mods| && t in mods[i].required && !HasProvider(mods, t)
  }

  /** The owner-to-dependent graph. */
  ghost function DependencyEdges(mods: seq<ModuleDecl>): Edges {
    set o, i | o in Below(|mods|) && i in Below(|mods|) && DependsOn(mods, i, o) :: (o, i)
  }

  // ----- what a result must be -----

  /** Every owner comes before its dependents. */
  ghost predicate Respects(mods: seq<ModuleDecl>, order: seq<nat>) {
    forall a, b :: 0 <= a < |order| && 0 <= b < |order| && DependsOn(mods, order[b], order[a]) ==> a < b
  }

  /** Longest-path depth never decreases along the order. */
  ghost predicate ByDepth(mods: seq<ModuleDecl>, order: seq<nat>) {
    forall a, b, da: nat, db: nat ::
      0 <= a < b < |order|
      && IsDepth(DependencyEdges(mods), order[a], da) && IsDepth(DependencyEdges(mods), order[b], db)
      ==> da <= db
  }

  /** Modules that wait for nobody form a prefix, in their original order. */
  ghost predicate RootsFirst(mods: seq<ModuleDecl>, order: seq<nat>) {
    exists m: nat :: IsRootPrefix(mods, order, m)
  }

  ghost predicate IsRootPrefix(mods: seq<ModuleDecl>, order: seq<nat>, m: nat) {
    && m <= |order|
    && (forall a, b :: 0 <= a < b < m ==> order[a] < order[b])
    && (forall a :: 0 <= a < |order| ==> (a < m <==> !HasIncoming(DependencyEdges(mods), order[a])))
  }

  ghost predicate IsInitOrder(mods: seq<ModuleDecl>, order: seq<nat>) {
    && IsPermutation(order, |mods|)
    && Respects(mods, order)
    && ByDepth(mods, order)
    && RootsFirst(mods, order)
  }

  /** Among the modules it depends on, the one at place `p` comes last. */
  ghost predicate LastOwnerAt(mods: seq<ModuleDecl>, order: seq<nat>, b: nat, p: nat) {
    && b < |order| && p < |order| && DependsOn(mods, order[b], order[p])
    && forall q :: p < q < |order| ==> !DependsOn(mods, order[b], order[q])
  }

  /** Modules come in the order in which the last of their owners come, and behind the same
      last owner in their original order. */
  ghost predicate ByLastOwner(mods: seq<ModuleDecl>, order: seq<nat>) {
    forall a: nat, b: nat, p: nat, q: nat ::
      a < b && LastOwnerAt(mods, order, a, p) && LastOwnerAt(mods, order, b, q) ==>
        p < q || (p == q && order[a] < order[b])
  }

  /** An initialization order by last owners; there is only one. */
  ghost predicate IsTheOrder(mods: seq<ModuleDecl>, order: seq<nat>) {
    IsInitOrder(mods, order) && ByLastOwner(mods, order)
  }

  function MetaOf(m: ModuleDecl): ModuleMeta {
    ModuleMeta(m.provided, m.required, m.optional)
  }

  /** The two result slices list the modules and their declarations in `order`. */
  ghost predicate Lists(mods: seq<ModuleDecl>, order: seq<nat>, sorted: seq<ModuleDecl>, meta: seq<ModuleMeta>) {
    && AllBelow(order, |mods|)
    && |sorted| == |meta| == |order|
    && forall k :: 0 <= k < |order| ==> sorted[k] == mods[order[k]] && meta[k] == MetaOf(mods[order[k]])
  }

  // ----- counting edge occurrences -----

  ghost function Occurs(s: seq<nat>, v: nat): nat {
    multiset(s)[v]
  }

  /** Edge occurrences into `v` from the first `k` nodes, leaving out those in `done`. */
  ghost function PendingTo(edges: seq<seq<nat>>, done: set<nat>, v: nat, k: nat): nat
    requires k <= |edges|
  {
    if k == 0 then 0
    else PendingTo(edges, done, v, k - 1) + if k - 1 in done then 0 else Occurs(edges[k - 1], v)
  }

  ghost function Pending(edges: seq<seq<nat>>, done: set<nat>, v: nat): nat {
    PendingTo(edges, done, v, |edges|)
  }

  lemma {:induction false} PendingAppend(edges: seq<seq<nat>>, o: nat, i: nat, v: nat, k: nat)
    requires o < |edges| && k <= |edges|
    ensures PendingTo(edges[o := edges[o] + [i]], {}, v, k)
         == PendingTo(edges, {}, v, k) + if o < k && v == i then 1 else 0
  {
    if k > 0 {
      PendingAppend(edges, o, i, v, k - 1);
    }
  }

  lemma {:induction false} PendingFinish(edges: seq<seq<nat>>, done: set<nat>, u: nat, v: nat, k: nat)
    requires u < |edges| && u !in done && k <= |edges|
    ensures PendingTo(edges, done, v, k)
         == PendingTo(edges, done + {u}, v, k) + if u < k then Occurs(edges[u], v) else 0
  {
    if k > 0 {
      PendingFinish(edges, done, u, v, k - 1);
    }
  }

  lemma {:induction false} PendingZero(edges: seq<seq<nat>>, done: set<nat>, v: nat, k: nat)
    requires k <= |edges|
    ensures PendingTo(edges, done, v, k) == 0 <==> forall u: nat :: u < k && v in edges[u] ==> u in done
  {
    if k > 0 {
      PendingZero(edges, done, v, k - 1);
    }
  }

  // ----- the owner table -----

  /** `owner` is the owner table of the first `n` modules. */
  ghost predicate OwnersUpTo(mods: seq<ModuleDecl>, n: nat, owner: map<TypeKey, nat>) {
    && (forall t :: t in owner ==> owner[t] < n && Provides(mods, owner[t], t))
    && (forall t, i: nat :: i < n && Provides(mods, i, t) ==> t in owner && i <= owner[t])
  }

  method BuildOwners(mods: seq<ModuleDecl>) returns (owner: map<TypeKey, nat>, metaByIdx: seq<ModuleMeta>)
    ensures forall t :: t in owner <==> HasProvider(mods, t)
    ensures forall t, o: nat :: IsOwner(mods, t, o) <==> t in owner && owner[t] == o
    ensures |metaByIdx| == |mods| && forall i :: 0 <= i < |mods| ==> metaByIdx[i].provided == mods[i].provided
  {
    owner := map[];
    metaByIdx := seq(|mods|, _ => ModuleMeta([], [], []));
    for i := 0 to |mods|
      invariant OwnersUpTo(mods, i, owner)
      invariant |metaByIdx| == |mods| && forall k :: 0 <= k < i ==> metaByIdx[k].provided == mods[k].provided
    {
      metaByIdx := metaByIdx[i := metaByIdx[i].(provided := mods[i].provided)];
      ghost var before := owner;
      for j := 0 to |mods[i].provided|
        invariant forall t :: t in owner <==> t in before || t in mods[i].provided[..j]
        invariant forall t :: t in owner ==>
          owner[t] == if t in mods[i].provided[..j] then i else before[t]
      {
        owner := owner[mods[i].provided[j] := i];
      }
      assert mods[i].provided[..|mods[i].provided|] == mods[i].provided;
    }
    forall t | HasProvider(mods, t) ensures t in owner {
      var i: nat :| Provides(mods, i, t);
    }
  }

  // ----- the adjacency lists -----

  /** Module `v` declares, among `ts`, a type owned by `o`. */
  ghost predicate Wants(owner: map<TypeKey, nat>, ts: seq<TypeKey>, v: nat, o: nat) {
    o != v && exists t :: t in ts && t in owner && owner[t] == o
  }

  /** Edges present once modules before `i`, and the types `ts` of module `i`, were read. */
  ghost predicate EdgesUpTo(
    mods: seq<ModuleDecl>, owner: map<TypeKey, nat>, i: nat, ts: seq<TypeKey>, edges: seq<seq<nat>>)
  {
    && |edges| == |mods|
    && forall o: nat, v: nat :: o < |mods| ==> (v in edges[o] <==> IsKnown(mods, owner, i, ts, o, v))
  }

  ghost predicate IsKnown(
    mods: seq<ModuleDecl>, owner: map<TypeKey, nat>, i: nat, ts: seq<TypeKey>, o: nat, v: nat)
  {
    || (v < i && v < |mods| && Wants(owner, mods[v].required + mods[v].optional, v, o))
    || (v == i && Wants(owner, ts, i, o))
  }

  /** The adjacency lists ascend, and lead no further than to module `i`. */
  ghost predicate Ascending(edges: seq<seq<nat>>, i: nat) {
    forall o :: 0 <= o < |edges| ==> AscendsTo(edges[o], i)
  }

  ghost predicate AscendsTo(targets: seq<nat>, i: nat) {
    && (forall x, y :: 0 <= x < y < |targets| ==> targets[x] <= targets[y])
    && forall x :: 0 <= x < |targets| ==> targets[x] <= i
  }

  lemma AscendsOn(targets: seq<nat>, i: nat)
    requires AscendsTo(targets, i)
    ensures AscendsTo(targets + [i], i) && AscendsTo(targets, i + 1)
  {
  }

  ghost predicate Counted(edges: seq<seq<nat>>, inDegree: seq<nat>) {
    && |inDegree| == |edges|
    && forall v :: 0 <= v < |edges| ==> inDegree[v] == Pending(edges, {}, v)
  }

  method AddDependency(
    mods: seq<ModuleDecl>, owner: map<TypeKey, nat>, i: nat, ghost ts: seq<TypeKey>, t: TypeKey,
    edges0: seq<seq<nat>>, inDegree0: seq<nat>)
    returns (edges: seq<seq<nat>>, inDegree: seq<nat>)
    requires i < |mods| && t in owner && owner[t] < |mods|
    requires EdgesUpTo(mods, owner, i, ts, edges0) && Counted(edges0, inDegree0) && Ascending(edges0, i)
    ensures EdgesUpTo(mods, owner, i, ts + [t], edges) && Counted(edges, inDegree) && Ascending(edges, i)
  {
    var o := owner[t];
    AscendsOn(edges0[o], i);
    hide AscendsTo;
    edges, inDegree := edges0, inDegree0;
    if o != i {
      edges := edges[o := edges[o] + [i]];
      inDegree := inDegree[i := inDegree[i] + 1];
      forall v | 0 <= v < |edges| ensures inDegree[v] == Pending(edges, {}, v) {
        PendingAppend(edges0, o, i, v, |edges0|);
      }
    }
    forall u | 0 <= u < |mods| ensures Wants(owner, ts + [t], i, u) <==> Wants(owner, ts, i, u) || (u == o && o != i) {
      if u == o && o != i {
        assert t in ts + [t];
      }
    }
  }

  /** `t` stands in the list before any other type without an owner. */
  ghost predicate IsFirstUnowned(owner: map<TypeKey, nat>, ts: seq<TypeKey>, t: TypeKey) {
    exists j :: 0 <= j < |ts| && ts[j] == t && forall k :: 0 <= k < j ==> ts[k] in owner
  }

  method BuildEdges(mods: seq<ModuleDecl>, owner: map<TypeKey, nat>, meta0: seq<ModuleMeta>)
    returns (edges: seq<seq<nat>>, inDegree: seq<nat>, metaByIdx: seq<ModuleMeta>, unmet: Option<(nat, TypeKey)>)
    requires forall t :: t in owner ==> owner[t] < |mods|
    requires |meta0| == |mods| && forall i :: 0 <= i < |mods| ==> meta0[i].provided == mods[i].provided
    ensures unmet.None? ==> forall i: nat, t :: i < |mods| && t in mods[i].required ==> t in owner
    ensures unmet.None? ==>
      EdgesUpTo(mods, owner, |mods|, [], edges) && Counted(edges, inDegree) && Ascending(edges, |mods|)
    ensures unmet.None? ==> metaByIdx == seq(|mods|, i requires 0 <= i < |mods| => MetaOf(mods[i]))
    ensures unmet.Some? ==>
      var (i, t) := unmet.value;
      && i < |mods| && t in mods[i].required && t !in owner && IsFirstUnowned(owner, mods[i].required, t)
      && forall k: nat, s :: k < i && s in mods[k].required ==> s in owner
  {
    edges := seq(|mods|, _ => []);
    inDegree := seq(|mods|, _ => 0);
    metaByIdx := meta0;
    unmet := None;
    forall v | 0 <= v < |edges| ensures Pending(edges, {}, v) == 0 {
      PendingZero(edges, {}, v, |edges|);
    }
    for i := 0 to |mods|
      invariant EdgesUpTo(mods, owner, i, [], edges) && Counted(edges, inDegree) && Ascending(edges, i)
      invariant forall k: nat, s :: k < i && s in mods[k].required ==> s in owner
      invariant |metaByIdx| == |mods|
      invariant forall k :: 0 <= k < |mods| ==> metaByIdx[k].provided == mods[k].provided
      invariant forall k :: 0 <= k < i ==> metaByIdx[k] == MetaOf(mods[k])
    {
      var required, optional := mods[i].required, mods[i].optional;
      metaByIdx := metaByIdx[i := metaByIdx[i].(required := required, optional := optional)];
      for j := 0 to |required|
        invariant EdgesUpTo(mods, owner, i, required[..j], edges) && Counted(edges, inDegree) && Ascending(edges, i)
        invariant forall s :: s in required[..j] ==> s in owner
      {
        if required[j] !in owner {
          assert forall k :: 0 <= k < j ==> required[k] == required[..j][k];
          unmet := Some((i, required[j]));
          return;
        }
        assert required[..j + 1] == required[..j] + [required[j]];
        edges, inDegree := AddDependency(mods, owner, i, required[..j], required[j], edges, inDegree);
      }
      assert required[..|required|] == required;
      assert required + optional[..0] == required;
      for j := 0 to |optional|
        invariant EdgesUpTo(mods, owner, i, required + optional[..j], edges)
        invariant Counted(edges, inDegree) && Ascending(edges, i)
      {
        assert required + optional[..j + 1] == (required + optional[..j]) + [optional[j]];
        if optional[j] in owner {
          edges, inDegree := AddDependency(mods, owner, i, required + optional[..j], optional[j], edges, inDegree);
        } else {
          SkipUnowned(mods, owner, i, required + optional[..j], optional[j], edges);
        }
      }
      assert required + optional[..|optional|] == required + optional;
      NextModule(mods, owner, i, edges);
      AscendingOn(edges, i);
    }
  }

  lemma AscendingOn(edges: seq<seq<nat>>, i: nat)
    requires Ascending(edges, i)
    ensures Ascending(edges, i + 1)
  {
    forall o | 0 <= o < |edges| ensures AscendsTo(edges[o], i + 1) {
      AscendsOn(edges[o], i);
    }
  }

  lemma SkipUnowned(
    mods: seq<ModuleDecl>, owner: map<TypeKey, nat>, i: nat, ts: seq<TypeKey>, t: TypeKey, edges: seq<seq<nat>>)
    requires t !in owner && EdgesUpTo(mods, owner, i, ts, edges)
    ensures EdgesUpTo(mods, owner, i, ts + [t], edges)
  {
    forall o: nat ensures Wants(owner, ts + [t], i, o) <==> Wants(owner, ts, i, o) {
      if Wants(owner, ts, i, o) {
        var s :| s in ts && s in owner && owner[s] == o;
        assert s in ts + [t];
      }
    }
  }

  lemma NextModule(mods: seq<ModuleDecl>, owner: map<TypeKey, nat>, i: nat, edges: seq<seq<nat>>)
    requires i < |mods| && EdgesUpTo(mods, owner, i, mods[i].required + mods[i].optional, edges)
    ensures EdgesUpTo(mods, owner, i + 1, [], edges)
  {
    forall o: nat, v: nat | o < |mods|
      ensures IsKnown(mods, owner, i + 1, [], o, v) <==>
              IsKnown(mods, owner, i, mods[i].required + mods[i].optional, o, v)
    {
    }
  }

  // ----- Kahn's queue -----
  //
  // `seen` lists the nodes that ever entered the queue. Its first `k` entries are
  // the ordered ones, the others are still queued.

  ghost predicate HasList(edges: seq<seq<nat>>, u: nat, v: nat) {
    u < |edges| && v in edges[u]
  }

  /** The counters while `rest`, the tail of the last ordered node's adjacency
      list, is still to be relaxed. */
  ghost predicate Counters(edges: seq<seq<nat>>, inDegree: seq<nat>, seen: seq<nat>, k: nat, rest: seq<nat>) {
    && |inDegree| == |edges| && k <= |seen|
    && AllBelow(seen, |edges|) && Distinct(seen) && AllBelow(rest, |edges|)
    && (forall v :: 0 <= v < |edges| ==> inDegree[v] == Pending(edges, Elems(seen[..k]), v) + Occurs(rest, v))
    && (forall v :: 0 <= v < |edges| ==> (v in seen <==> inDegree[v] == 0))
  }

  ghost predicate HasTightPredecessor(edges: seq<seq<nat>>, level: seq<nat>, v: nat)
    requires |level| == |edges| && v < |edges|
  {
    exists u: nat :: HasList(edges, u, v) && level[u] + 1 == level[v]
  }

  /** Depth labels grow along edges and along the queue, by at most one ahead of
      the last ordered node. */
  ghost predicate Layers(edges: seq<seq<nat>>, seen: seq<nat>, k: nat, level: seq<nat>) {
    && |level| == |edges| && AllBelow(seen, |edges|) && k <= |seen|
    && (forall a, b :: 0 <= a < b < |seen| ==> level[seen[a]] <= level[seen[b]])
    && (forall u: nat, b :: 0 <= b < |seen| && HasList(edges, u, seen[b]) ==>
          u in seen[..k] && level[u] < level[seen[b]])
    && (forall b {:trigger HasTightPredecessor(edges, level, seen[b])} ::
          0 <= b < |seen| && level[seen[b]] > 0 ==> HasTightPredecessor(edges, level, seen[b]))
    && (forall b :: 0 <= b < |seen| ==> level[seen[b]] <= if k == 0 then 0 else level[seen[k - 1]] + 1)
  }

  /** Predecessors of an ordered node stand before it. */
  ghost predicate Forward(edges: seq<seq<nat>>, seen: seq<nat>, k: nat)
    requires k <= |seen|
  {
    forall u: nat, b :: 0 <= b < k && HasList(edges, u, seen[b]) ==> u in seen[..b]
  }

  /** Nodes that wait for nobody appear in their original order. */
  ghost predicate RootsAscend(seen: seq<nat>, level: seq<nat>) {
    && AllBelow(seen, |level|)
    && forall a, b :: 0 <= a < b < |seen| && level[seen[b]] == 0 ==> seen[a] < seen[b]
  }

  /** `waker[b]` is the place of the node whose ordering put the b-th one into the queue, the
      last of those with an edge to it, or -1 if there is none. */
  ghost predicate Queued(edges: seq<seq<nat>>, seen: seq<nat>, k: nat, waker: seq<int>) {
    && |waker| == |seen| && k <= |seen| && WakersAscend(seen, waker)
    && WakersLead(edges, seen, k, waker) && NoLaterWaker(edges, seen, waker)
  }

  ghost predicate WakersAscend(seen: seq<nat>, waker: seq<int>)
    requires |waker| == |seen|
  {
    forall a, b :: 0 <= a < b < |seen| ==> waker[a] < waker[b] || (waker[a] == waker[b] && seen[a] < seen[b])
  }

  ghost predicate WakersLead(edges: seq<seq<nat>>, seen: seq<nat>, k: nat, waker: seq<int>)
    requires |waker| == |seen| && k <= |seen|
  {
    forall b :: 0 <= b < |seen| ==> -1 <= waker[b] < k && (waker[b] >= 0 ==> HasList(edges, seen[waker[b]], seen[b]))
  }

  ghost predicate NoLaterWaker(edges: seq<seq<nat>>, seen: seq<nat>, waker: seq<int>)
    requires |waker| == |seen|
  {
    forall b, q :: 0 <= b < |seen| && waker[b] < q < |seen| && 0 <= q ==> !HasList(edges, seen[q], seen[b])
  }

  lemma StartQueued(edges: seq<seq<nat>>, queue: seq<nat>)
    requires forall a, b :: 0 <= a < b < |queue| ==> queue[a] < queue[b]
    requires forall u: nat, b :: 0 <= b < |queue| ==> !HasList(edges, u, queue[b])
    ensures Queued(edges, queue, 0, seq(|queue|, _ => -1))
  {
  }

  /** The nodes put into the queue by the last ordered one stand in its list up to `j`. */
  ghost predicate QueuedFrom(seen: seq<nat>, k: nat, waker: seq<int>, targets: seq<nat>)
    requires |waker| == |seen|
  {
    forall b :: 0 <= b < |seen| && waker[b] == k - 1 ==> seen[b] in targets
  }

  lemma EnqueueQueued(
    edges: seq<seq<nat>>, seen: seq<nat>, k: nat, level: seq<nat>, waker: seq<int>, targets: seq<nat>, j: nat)
    requires Queued(edges, seen, k, waker) && Distinct(seen) && Layers(edges, seen, k, level)
    requires AscendsTo(targets, |edges|) && j < |targets|
    requires QueuedFrom(seen, k, waker, targets[..j]) && IsReady(edges, seen, k, targets[j])
    ensures Queued(edges, seen + [targets[j]], k, waker + [k - 1])
    ensures QueuedFrom(seen + [targets[j]], k, waker + [k - 1], targets[..j + 1])
  {
    var next := targets[j];
    hide Queued, QueuedFrom, Layers, IsReady, AscendsTo, HasList;
    WokenBelow(edges, seen, k, waker, targets, j);
    NoEdgeBack(edges, seen, k, level, next);
    QueuedOn(edges, seen, k, waker, next);
  }

  lemma WokenBelow(edges: seq<seq<nat>>, seen: seq<nat>, k: nat, waker: seq<int>, targets: seq<nat>, j: nat)
    requires |waker| == |seen| && AscendsTo(targets, |edges|) && j < |targets|
    requires QueuedFrom(seen, k, waker, targets[..j]) && IsReady(edges, seen, k, targets[j])
    ensures forall b :: 0 <= b < |seen| && waker[b] == k - 1 ==> seen[b] < targets[j]
    ensures QueuedFrom(seen + [targets[j]], k, waker + [k - 1], targets[..j + 1])
  {
    var next := targets[j];
    assert targets[..j + 1] == targets[..j] + [next];
    hide HasList;
    forall b | 0 <= b < |seen| && waker[b] == k - 1 ensures seen[b] < next {
      assert seen[b] in targets[..j];
      assert seen[b] in seen;
    }
  }

  /** The node to be enqueued leads to none in the queue, and none of the queue to it. */
  lemma NoEdgeBack(edges: seq<seq<nat>>, seen: seq<nat>, k: nat, level: seq<nat>, next: nat)
    requires Distinct(seen) && Layers(edges, seen, k, level) && IsReady(edges, seen, k, next)
    ensures 0 < k && HasList(edges, seen[k - 1], next) && !HasList(edges, next, next)
    ensures forall b :: 0 <= b < |seen| ==> !HasList(edges, next, seen[b])
    ensures forall q :: k <= q < |seen| ==> !HasList(edges, seen[q], next)
  {
    hide HasList, HasTightPredecessor;
    assert next !in seen[..k];
    forall q | k <= q < |seen| ensures seen[q] !in seen[..k] {
    }
  }

  lemma QueuedOn(edges: seq<seq<nat>>, seen: seq<nat>, k: nat, waker: seq<int>, next: nat)
    requires Queued(edges, seen, k, waker) && 0 < k
    requires forall b :: 0 <= b < |seen| && waker[b] == k - 1 ==> seen[b] < next
    requires HasList(edges, seen[k - 1], next) && !HasList(edges, next, next)
    requires forall b :: 0 <= b < |seen| ==> !HasList(edges, next, seen[b])
    requires forall q :: k <= q < |seen| ==> !HasList(edges, seen[q], next)
    ensures Queued(edges, seen + [next], k, waker + [k - 1])
  {
    hide HasList;
    assert WakersAscend(seen + [next], waker + [k - 1]) by {
      hide NoLaterWaker;
      assert forall b :: 0 <= b < |seen| ==> waker[b] < k;
      hide WakersLead;
    }
    assert WakersLead(edges, seen + [next], k, waker + [k - 1]) by {
      hide WakersAscend, NoLaterWaker;
    }
    assert NoLaterWaker(edges, seen + [next], waker + [k - 1]) by {
      hide WakersAscend, WakersLead;
    }
  }

  lemma StartKahn(edges: seq<seq<nat>>, inDegree: seq<nat>, queue: seq<nat>, level: seq<nat>)
    requires Counted(edges, inDegree) && level == seq(|edges|, _ => 0)
    requires AllBelow(queue, |edges|) && forall a, b :: 0 <= a < b < |queue| ==> queue[a] < queue[b]
    requires forall v :: 0 <= v < |edges| ==> (v in queue <==> inDegree[v] == 0)
    ensures Counters(edges, inDegree, queue, 0, []) && Layers(edges, queue, 0, level)
    ensures Forward(edges, queue, 0) && RootsAscend(queue, level)
    ensures forall u: nat, b :: 0 <= b < |queue| ==> !HasList(edges, u, queue[b])
  {
    assert Elems(queue[..0]) == {};
    forall u: nat, b | 0 <= b < |queue| && HasList(edges, u, queue[b]) ensures false {
      assert queue[b] in queue;
      PendingZero(edges, {}, queue[b], |edges|);
    }
  }

  lemma PopCounters(edges: seq<seq<nat>>, inDegree: seq<nat>, seen: seq<nat>, k: nat)
    requires Counters(edges, inDegree, seen, k, []) && k < |seen|
    requires forall u :: 0 <= u < |edges| ==> AllBelow(edges[u], |edges|)
    ensures Counters(edges, inDegree, seen, k + 1, edges[seen[k]])
  {
    var idx := seen[k];
    assert seen[..k + 1] == seen[..k] + [idx];
    assert Elems(seen[..k + 1]) == Elems(seen[..k]) + {idx};
    forall v | 0 <= v < |edges|
      ensures inDegree[v] == Pending(edges, Elems(seen[..k + 1]), v) + Occurs(edges[idx], v)
    {
      PendingFinish(edges, Elems(seen[..k]), idx, v, |edges|);
    }
  }

  lemma PopLayers(edges: seq<seq<nat>>, seen: seq<nat>, k: nat, level: seq<nat>)
    requires k < |seen| && Layers(edges, seen, k, level) && Forward(edges, seen, k)
    ensures Layers(edges, seen, k + 1, level) && Forward(edges, seen, k + 1)
  {
    assert seen[..k + 1] == seen[..k] + [seen[k]];
    forall b | 0 <= b < |seen| ensures level[seen[b]] <= level[seen[k]] + 1 {
      if k > 0 {
        assert level[seen[b]] <= level[seen[k - 1]] + 1;
        assert level[seen[k - 1]] <= level[seen[k]];
      } else if level[seen[b]] > 0 {
        assert false;
      }
    }
  }

  /** One pass of the inner loop: the counter drops by one, and reaches zero
      exactly when the node was not seen before and has no pending owner left. */
  lemma RelaxCounters(edges: seq<seq<nat>>, inDegree: seq<nat>, seen: seq<nat>, k: nat, rest: seq<nat>)
    requires Counters(edges, inDegree, seen, k, rest) && |rest| > 0
    ensures rest[0] < |edges| == |inDegree| && inDegree[rest[0]] > 0 && rest[0] !in seen
    ensures inDegree[rest[0]] > 1 ==>
      Counters(edges, inDegree[rest[0] := inDegree[rest[0]] - 1], seen, k, rest[1..])
    ensures inDegree[rest[0]] == 1 ==>
      Counters(edges, inDegree[rest[0] := 0], seen + [rest[0]], k, rest[1..])
    ensures inDegree[rest[0]] == 1 ==> forall u: nat :: HasList(edges, u, rest[0]) ==> u in seen[..k]
  {
    var next := rest[0];
    assert rest == [next] + rest[1..];
    assert forall v :: Occurs(rest, v) == Occurs(rest[1..], v) + if v == next then 1 else 0;
    PendingZero(edges, Elems(seen[..k]), next, |edges|);
    assert (seen + [next])[..k] == seen[..k];
  }

  /** A node about to be enqueued: its counter reached zero when the node at `k - 1` was
      ordered. */
  ghost predicate IsReady(edges: seq<seq<nat>>, seen: seq<nat>, k: nat, next: nat) {
    && 0 < k <= |seen| && next < |edges| && next !in seen && HasList(edges, seen[k - 1], next)
    && forall u: nat :: HasList(edges, u, next) ==> u in seen[..k]
  }

  /** A node whose counter reached zero sits one level below the node just ordered. */
  lemma EnqueueLayers(edges: seq<seq<nat>>, seen: seq<nat>, k: nat, level: seq<nat>, next: nat)
    requires Layers(edges, seen, k, level) && IsReady(edges, seen, k, next)
    ensures Layers(edges, seen + [next], k, level[next := level[seen[k - 1]] + 1])
  {
    var level', seen' := level[next := level[seen[k - 1]] + 1], seen + [next];
    EnqueueGrows(edges, seen, k, level, next);
    EnqueueTight(edges, seen, k, level, next);
    assert seen'[..k] == seen[..k] && AllBelow(seen', |edges|);
    forall b | 0 <= b < |seen| ensures level'[seen'[b]] == level[seen[b]] {
      assert seen[b] in seen;
    }
    hide HasTightPredecessor, HasList;
  }

  lemma EnqueueGrows(edges: seq<seq<nat>>, seen: seq<nat>, k: nat, level: seq<nat>, next: nat)
    requires Layers(edges, seen, k, level) && IsReady(edges, seen, k, next)
    ensures
      var level', seen' := level[next := level[seen[k - 1]] + 1], seen + [next];
      forall u: nat, b :: 0 <= b < |seen'| && HasList(edges, u, seen'[b]) ==>
        u in seen[..k] && u < |level'| && level'[u] < level'[seen'[b]]
  {
    var level', seen' := level[next := level[seen[k - 1]] + 1], seen + [next];
    forall u: nat, b | 0 <= b < |seen'| && HasList(edges, u, seen'[b])
      ensures u in seen[..k] && u < |level'| && level'[u] < level'[seen'[b]]
    {
      PredecessorBelow(edges, seen, k, level, u, b, next);
    }
  }

  lemma EnqueueTight(edges: seq<seq<nat>>, seen: seq<nat>, k: nat, level: seq<nat>, next: nat)
    requires Layers(edges, seen, k, level) && IsReady(edges, seen, k, next)
    ensures
      var level', seen' := level[next := level[seen[k - 1]] + 1], seen + [next];
      forall b {:trigger HasTightPredecessor(edges, level', seen'[b])} ::
        0 <= b < |seen'| && level'[seen'[b]] > 0 ==> HasTightPredecessor(edges, level', seen'[b])
  {
    var l := level[seen[k - 1]] + 1;
    var level', seen' := level[next := l], seen + [next];
    forall b | 0 <= b < |seen'| && level'[seen'[b]] > 0 ensures HasTightPredecessor(edges, level', seen'[b]) {
      if b < |seen| {
        assert seen[b] in seen;
        hide HasTightPredecessor, HasList;
        TightStays(edges, seen, k, level, next, l, seen[b]);
      } else {
        hide HasTightPredecessor, HasList;
        IsTight(edges, level', seen[k - 1], next);
      }
    }
  }

  lemma PredecessorBelow(edges: seq<seq<nat>>, seen: seq<nat>, k: nat, level: seq<nat>, u: nat, b: nat, next: nat)
    requires Layers(edges, seen, k, level) && 0 < k && next < |edges| && next !in seen && b <= |seen|
    requires if b < |seen| then HasList(edges, u, seen[b]) else u in seen[..k]
    ensures u in seen[..k] && u < |level|
    ensures var level' := level[next := level[seen[k - 1]] + 1];
            level'[u] < level'[(seen + [next])[b]]
  {
    assert u in seen[..k];
    var c :| 0 <= c < k && seen[c] == u;
    assert c == k - 1 || level[seen[c]] <= level[seen[k - 1]];
    assert b < |seen| ==> seen[b] in seen;
  }

  lemma IsTight(edges: seq<seq<nat>>, level: seq<nat>, u: nat, v: nat)
    requires |level| == |edges| && v < |edges| && HasList(edges, u, v) && level[u] + 1 == level[v]
    ensures HasTightPredecessor(edges, level, v)
  {
  }

  /** Levels of nodes already seen do not depend on the level given to a new one. */
  lemma TightStays(edges: seq<seq<nat>>, seen: seq<nat>, k: nat, level: seq<nat>, next: nat, l: nat, v: nat)
    requires k <= |seen| && |level| == |edges| && next < |edges| && next !in seen && v in seen && v < |edges|
    requires HasTightPredecessor(edges, level, v) && forall u: nat :: HasList(edges, u, v) ==> u in seen[..k]
    ensures HasTightPredecessor(edges, level[next := l], v)
  {
    var u: nat :| HasList(edges, u, v) && level[u] + 1 == level[v];
    assert u in seen[..k];
    assert HasList(edges, u, v) && level[next := l][u] + 1 == level[next := l][v];
  }

  /** A node that still waits for a node which was never ordered. */
  ghost predicate IsWaiting(edges: seq<seq<nat>>, order: seq<nat>, v: nat) {
    exists u: nat :: HasList(edges, u, v) && u !in order
  }

  ghost predicate AllWait(edges: seq<seq<nat>>, order: seq<nat>) {
    forall v: nat {:trigger IsWaiting(edges, order, v)} ::
      v < |edges| && v !in order ==> IsWaiting(edges, order, v)
  }

  lemma DrainedQueue(edges: seq<seq<nat>>, inDegree: seq<nat>, order: seq<nat>)
    requires Counters(edges, inDegree, order, |order|, [])
    ensures AllWait(edges, order)
  {
    assert order[..|order|] == order;
    forall v: nat | v < |edges| && v !in order ensures IsWaiting(edges, order, v) {
      PendingZero(edges, Elems(order), v, |edges|);
    }
  }

  method SeedQueue(inDegree: seq<nat>) returns (queue: seq<nat>)
    ensures AllBelow(queue, |inDegree|)
    ensures forall a, b :: 0 <= a < b < |queue| ==> queue[a] < queue[b]
    ensures forall v :: 0 <= v < |inDegree| ==> (v in queue <==> inDegree[v] == 0)
  {
    queue := [];
    for i := 0 to |inDegree|
      invariant AllBelow(queue, i)
      invariant forall a, b :: 0 <= a < b < |queue| ==> queue[a] < queue[b]
      invariant forall v :: 0 <= v < i ==> (v in queue <==> inDegree[v] == 0)
    {
      if inDegree[i] == 0 {
        queue := queue + [i];
      }
    }
  }

  /** Every counter is down by the occurrences of its node among the targets. */
  ghost predicate IsRelaxed(before: seq<nat>, targets: seq<nat>, after: seq<nat>) {
    |after| == |before| && forall v :: 0 <= v < |before| ==> after[v] == before[v] - Occurs(targets, v)
  }

  lemma CountersRelaxed(
    edges: seq<seq<nat>>, before: seq<nat>, seen0: seq<nat>, after: seq<nat>, seen: seq<nat>, k: nat, targets: seq<nat>)
    requires Counters(edges, before, seen0, k, targets) && Counters(edges, after, seen, k, []) && seen0 <= seen
    ensures IsRelaxed(before, targets, after)
  {
    assert seen[..k] == seen0[..k];
  }

  /** The loop over the adjacency list of the node just taken from the queue. */
  method RelaxAll(
    edges: seq<seq<nat>>, inDegree0: seq<nat>, queue0: seq<nat>,
    ghost seen0: seq<nat>, ghost k: nat, ghost level0: seq<nat>, ghost waker0: seq<int>, targets: seq<nat>)
    returns (inDegree: seq<nat>, queue: seq<nat>, ghost seen: seq<nat>, ghost level: seq<nat>, ghost waker: seq<int>)
    requires Counters(edges, inDegree0, seen0, k, targets) && queue0 == seen0[k..]
    requires Layers(edges, seen0, k, level0) && RootsAscend(seen0, level0)
    requires k > 0 && targets == edges[seen0[k - 1]] && AscendsTo(targets, |edges|)
    requires Queued(edges, seen0, k - 1, waker0)
    ensures IsRelaxed(inDegree0, targets, inDegree) && queue0 <= queue
    ensures k <= |seen| && Counters(edges, inDegree, seen, k, []) && queue == seen[k..] && seen0 <= seen
    ensures AllBelow(seen, |edges|)
    ensures Layers(edges, seen, k, level) && RootsAscend(seen, level) && Queued(edges, seen, k, waker)
  {
    inDegree, queue, seen, level, waker := inDegree0, queue0, seen0, level0, waker0;
    assert targets[0..] == targets;
    assert targets[..0] == [];
    StartWaking(edges, inDegree, seen, k, level, waker, targets);
    hide Counters, Layers, RootsAscend, Queued, EnqueueInv, AscendsTo;
    for j := 0 to |targets|
      invariant Counters(edges, inDegree, seen, k, targets[j..]) && queue == seen[k..] && k <= |seen| && seen0 <= seen
      invariant EnqueueInv(edges, seen, k, level, waker, targets[..j])
    {
      var next := targets[j];
      assert targets[j..][0] == next && targets[j..][1..] == targets[j + 1..];
      RelaxCounters(edges, inDegree, seen, k, targets[j..]);
      EnqueueNone(edges, seen, k, level, waker, targets, j);
      assert HasList(edges, seen[k - 1], next);
      hide HasList;
      inDegree := inDegree[next := inDegree[next] - 1];
      if inDegree[next] == 0 {
        EnqueueKeeps(edges, seen, k, level, waker, targets, j);
        SuffixOn(seen, k, next);
        level, waker := level[next := level[seen[k - 1]] + 1], waker + [k - 1];
        queue := queue + [next];
        seen := seen + [next];
      }
    }
    assert targets[|targets|..] == [];
    EnqueueEnds(edges, inDegree, seen, k, level, waker, targets[..|targets|]);
    CountersRelaxed(edges, inDegree0, seen0, inDegree, seen, k, targets);
  }

  /** What the loop over one adjacency list keeps, besides the counters. */
  ghost predicate EnqueueInv(
    edges: seq<seq<nat>>, seen: seq<nat>, k: nat, level: seq<nat>, waker: seq<int>, done: seq<nat>)
  {
    && Distinct(seen) && |waker| == |seen| && Layers(edges, seen, k, level) && RootsAscend(seen, level)
    && Queued(edges, seen, k, waker) && QueuedFrom(seen, k, waker, done)
  }

  lemma SuffixOn(seen: seq<nat>, k: nat, next: nat)
    requires k <= |seen|
    ensures (seen + [next])[k..] == seen[k..] + [next]
  {
  }

  lemma EnqueueNone(
    edges: seq<seq<nat>>, seen: seq<nat>, k: nat, level: seq<nat>, waker: seq<int>, targets: seq<nat>, j: nat)
    requires j < |targets| && EnqueueInv(edges, seen, k, level, waker, targets[..j])
    ensures EnqueueInv(edges, seen, k, level, waker, targets[..j + 1])
    ensures |level| == |edges| && AllBelow(seen, |level|)
  {
    hide Queued, RootsAscend;
    QueuedFurther(seen, k, waker, targets, j);
  }

  lemma EnqueueKeeps(
    edges: seq<seq<nat>>, seen: seq<nat>, k: nat, level: seq<nat>, waker: seq<int>, targets: seq<nat>, j: nat)
    requires j < |targets| && EnqueueInv(edges, seen, k, level, waker, targets[..j])
    requires AscendsTo(targets, |edges|) && IsReady(edges, seen, k, targets[j])
    requires |level| == |edges| && AllBelow(seen, |level|)
    ensures EnqueueInv(
              edges, seen + [targets[j]], k, level[targets[j] := level[seen[k - 1]] + 1], waker + [k - 1], targets[..j + 1])
  {
    var next := targets[j];
    assert 0 < k <= |seen| && next < |level| && next !in seen;
    hide Layers, RootsAscend, Queued, QueuedFrom, AscendsTo, IsReady;
    EnqueueQueued(edges, seen, k, level, waker, targets, j);
    EnqueueLayers(edges, seen, k, level, next);
    EnqueueRoots(seen, level, next, level[seen[k - 1]] + 1);
  }

  lemma StartWaking(
    edges: seq<seq<nat>>, inDegree: seq<nat>, seen: seq<nat>, k: nat, level: seq<nat>, waker: seq<int>, rest: seq<nat>)
    requires 0 < k && Counters(edges, inDegree, seen, k, rest) && Queued(edges, seen, k - 1, waker)
    requires Layers(edges, seen, k, level) && RootsAscend(seen, level)
    ensures k <= |seen| && EnqueueInv(edges, seen, k, level, waker, [])
  {
    hide Layers, RootsAscend;
  }

  lemma EnqueueEnds(
    edges: seq<seq<nat>>, inDegree: seq<nat>, seen: seq<nat>, k: nat, level: seq<nat>, waker: seq<int>, done: seq<nat>)
    requires Counters(edges, inDegree, seen, k, []) && EnqueueInv(edges, seen, k, level, waker, done)
    ensures AllBelow(seen, |edges|)
    ensures Layers(edges, seen, k, level) && RootsAscend(seen, level) && Queued(edges, seen, k, waker)
  {
    hide Layers, RootsAscend, Queued;
  }

  lemma QueuedFurther(seen: seq<nat>, k: nat, waker: seq<int>, targets: seq<nat>, j: nat)
    requires |waker| == |seen| && j < |targets| && QueuedFrom(seen, k, waker, targets[..j])
    ensures QueuedFrom(seen, k, waker, targets[..j + 1])
  {
    assert targets[..j + 1] == targets[..j] + [targets[j]];
  }

  lemma EnqueueRoots(seen: seq<nat>, level: seq<nat>, next: nat, d: nat)
    requires RootsAscend(seen, level) && next < |level| && next !in seen && d > 0
    ensures RootsAscend(seen + [next], level[next := d])
  {
    assert forall b :: 0 <= b < |seen| ==> seen[b] in seen;
  }

  /** Everything the outer loop keeps. */
  ghost predicate KahnInv(
    edges: seq<seq<nat>>, inDegree: seq<nat>, seen: seq<nat>, k: nat, level: seq<nat>, waker: seq<int>)
  {
    && Counters(edges, inDegree, seen, k, [])
    && Layers(edges, seen, k, level) && Forward(edges, seen, k) && RootsAscend(seen, level)
    && Queued(edges, seen, k, waker)
  }

  lemma CountersBound(edges: seq<seq<nat>>, inDegree: seq<nat>, seen: seq<nat>, k: nat)
    requires Counters(edges, inDegree, seen, k, [])
    ensures k <= |seen| <= |edges| && AllBelow(seen, |edges|)
    ensures k < |seen| ==> seen[k] < |edges|
  {
    DistinctBound(seen, |edges|);
  }

  /** One turn of the outer loop. */
  method KahnStep(
    edges: seq<seq<nat>>, inDegree0: seq<nat>, queue0: seq<nat>,
    ghost seen0: seq<nat>, ghost k: nat, ghost level0: seq<nat>, ghost waker0: seq<int>)
    returns (inDegree: seq<nat>, queue: seq<nat>, ghost seen: seq<nat>, ghost level: seq<nat>, ghost waker: seq<int>)
    requires KahnInv(edges, inDegree0, seen0, k, level0, waker0) && Ascending(edges, |edges|)
    requires |queue0| > 0 && queue0 == seen0[k..]
    requires forall u :: 0 <= u < |edges| ==> AllBelow(edges[u], |edges|)
    ensures queue0[0] < |edges| && IsRelaxed(inDegree0, edges[queue0[0]], inDegree) && queue0[1..] <= queue
    ensures k < |edges| && k < |seen0| && seen0 <= seen && AllBelow(seen, |edges|)
    ensures KahnInv(edges, inDegree, seen, k + 1, level, waker) && queue == seen[k + 1..]
  {
    hide Counters, Layers, Forward, RootsAscend, Queued, AscendsTo, AllBelow;
    CountersBound(edges, inDegree0, seen0, k);
    assert queue0[0] == seen0[k] && queue0[1..] == seen0[k + 1..];
    assert AscendsTo(edges[queue0[0]], |edges|);
    hide Ascending;
    PopCounters(edges, inDegree0, seen0, k);
    PopLayers(edges, seen0, k, level0);
    inDegree, queue, seen, level, waker :=
      RelaxAll(edges, inDegree0, queue0[1..], seen0, k + 1, level0, waker0, edges[queue0[0]]);
    KeepForward(edges, seen0, seen, k + 1);
  }

  method Kahn(mods: seq<ModuleDecl>, metaByIdx: seq<ModuleMeta>, edges: seq<seq<nat>>, inDegree0: seq<nat>)
    returns (
      sorted: seq<ModuleDecl>, meta: seq<ModuleMeta>,
      ghost order: seq<nat>, ghost level: seq<nat>, ghost waker: seq<int>)
    requires |edges| == |mods| == |metaByIdx|
    requires forall i :: 0 <= i < |mods| ==> metaByIdx[i] == MetaOf(mods[i])
    requires forall u :: 0 <= u < |edges| ==> AllBelow(edges[u], |edges|)
    requires Counted(edges, inDegree0) && Ascending(edges, |edges|)
    ensures |meta| == |sorted| && forall j :: 0 <= j < |sorted| ==> sorted[j] in mods && meta[j] == MetaOf(sorted[j])
    ensures Lists(mods, order, sorted, meta)
    ensures Distinct(order) && Forward(edges, order, |order|) && Layers(edges, order, |order|, level)
    ensures AllWait(edges, order)
    ensures RootsAscend(order, level) && Queued(edges, order, |order|, waker)
  {
    var inDegree := inDegree0;
    var queue := SeedQueue(inDegree);
    sorted, meta := [], [];
    ghost var seen := queue;
    level, waker := KahnStarts(mods, edges, inDegree, queue);
    hide KahnInv, Lists, MetaOf, Counters, Layers, Forward, RootsAscend, Queued, Ascending, Counted;
    while |queue| > 0
      invariant |sorted| <= |seen| && AllBelow(seen, |edges|)
      invariant KahnInv(edges, inDegree, seen, |sorted|, level, waker)
      invariant queue == seen[|sorted|..]
      invariant Lists(mods, seen[..|sorted|], sorted, meta) && |meta| == |sorted|
      decreases |edges| - |sorted|
    {
      var idx := queue[0];
      ghost var before, k := seen, |sorted|;
      inDegree, queue, seen, level, waker := KahnStep(edges, inDegree, queue, seen, k, level, waker);
      NextOrdered(before, seen, k, |edges|);
      hide AllBelow;
      ListsOn(mods, before[..k], sorted, meta, idx);
      sorted := sorted + [mods[idx]];
      meta := meta + [metaByIdx[idx]];
    }
    order := seen;
    assert seen[..|sorted|] == seen;
    KahnDone(edges, inDegree, order, |sorted|, level, waker);
    ListedAreModules(mods, order, sorted, meta);
  }

  lemma ListedAreModules(mods: seq<ModuleDecl>, order: seq<nat>, sorted: seq<ModuleDecl>, meta: seq<ModuleMeta>)
    requires Lists(mods, order, sorted, meta)
    ensures |meta| == |sorted| && forall j :: 0 <= j < |sorted| ==> sorted[j] in mods && meta[j] == MetaOf(sorted[j])
  {
  }

  lemma KahnStarts(mods: seq<ModuleDecl>, edges: seq<seq<nat>>, inDegree: seq<nat>, queue: seq<nat>)
    returns (level: seq<nat>, waker: seq<int>)
    requires Counted(edges, inDegree)
    requires AllBelow(queue, |edges|) && forall a, b :: 0 <= a < b < |queue| ==> queue[a] < queue[b]
    requires forall v :: 0 <= v < |edges| ==> (v in queue <==> inDegree[v] == 0)
    ensures KahnInv(edges, inDegree, queue, 0, level, waker) && Lists(mods, queue[..0], [], [])
  {
    level, waker := seq(|edges|, _ => 0), seq(|queue|, _ => -1);
    StartKahn(edges, inDegree, queue, level);
    StartQueued(edges, queue);
  }

  lemma NextOrdered(before: seq<nat>, seen: seq<nat>, k: nat, n: nat)
    requires k < |before| && before <= seen && AllBelow(before, n)
    ensures seen[..k + 1] == before[..k] + [before[k]] && before[k..][0] == before[k] < n
  {
  }

  lemma ListsOn(
    mods: seq<ModuleDecl>, order: seq<nat>, sorted: seq<ModuleDecl>, meta: seq<ModuleMeta>, idx: nat)
    requires Lists(mods, order, sorted, meta) && idx < |mods|
    ensures Lists(mods, order + [idx], sorted + [mods[idx]], meta + [MetaOf(mods[idx])])
  {
  }

  lemma KahnDone(
    edges: seq<seq<nat>>, inDegree: seq<nat>, order: seq<nat>, k: nat, level: seq<nat>, waker: seq<int>)
    requires KahnInv(edges, inDegree, order, k, level, waker) && k == |order|
    ensures Distinct(order) && Forward(edges, order, |order|) && Layers(edges, order, |order|, level)
    ensures AllWait(edges, order) && RootsAscend(order, level) && Queued(edges, order, |order|, waker)
  {
    hide Layers, Forward, RootsAscend, Queued, AllWait;
    DrainedQueue(edges, inDegree, order);
  }

  lemma KeepForward(edges: seq<seq<nat>>, before: seq<nat>, seen: seq<nat>, k: nat)
    requires k <= |before| && before <= seen && Forward(edges, before, k)
    ensures Forward(edges, seen, k)
  {
    forall u: nat, b | 0 <= b < k && HasList(edges, u, seen[b]) ensures u in seen[..b] {
      assert before[b] == seen[b] && before[..b] == seen[..b];
    }
  }

  // ----- sortModules -----

  lemma EdgesAreDependencies(
    mods: seq<ModuleDecl>, owner: map<TypeKey, nat>, edges: seq<seq<nat>>, u: nat, v: nat)
    requires forall t, o: nat :: IsOwner(mods, t, o) <==> t in owner && owner[t] == o
    requires EdgesUpTo(mods, owner, |mods|, [], edges)
    ensures HasList(edges, u, v) <==> (u, v) in DependencyEdges(mods)
  {
    if u < |mods| {
      assert HasList(edges, u, v) <==> IsKnown(mods, owner, |mods|, [], u, v);
      assert v < |mods| ==> (DependsOn(mods, v, u) <==> Wants(owner, mods[v].required + mods[v].optional, v, u));
      assert u in Below(|mods|);
    }
  }

  /** The graph that the adjacency lists stand for. */
  ghost predicate Represents(edges: seq<seq<nat>>, e: Edges) {
    forall u: nat, v: nat :: HasList(edges, u, v) <==> (u, v) in e
  }

  lemma CompleteIsLayering(e: Edges, edges: seq<seq<nat>>, order: seq<nat>, level: seq<nat>)
    requires Represents(edges, e)
    requires IsPermutation(order, |edges|) && Layers(edges, order, |order|, level)
    requires Within(e, |edges|)
    ensures IsLayering(e, |edges|, level)
  {
    PermutationCovers(order, |edges|);
    forall u, v | (u, v) in e ensures level[u] < level[v] {
      assert v in order && HasList(edges, u, v);
    }
    forall v: nat | v < |edges| && level[v] > 0 ensures exists u :: (u, v) in e && level[u] + 1 == level[v] {
      assert v in order;
      assert HasTightPredecessor(edges, level, v);
      var u: nat :| HasList(edges, u, v) && level[u] + 1 == level[v];
      assert (u, v) in e;
    }
  }

  lemma CompleteRespects(mods: seq<ModuleDecl>, edges: seq<seq<nat>>, order: seq<nat>)
    requires Represents(edges, DependencyEdges(mods))
    requires IsPermutation(order, |mods|) && Forward(edges, order, |order|)
    ensures Respects(mods, order)
  {
    forall a, b | 0 <= a < |order| && 0 <= b < |order| && DependsOn(mods, order[b], order[a]) ensures a < b {
      assert order[a] in Below(|mods|) && order[b] in Below(|mods|);
      assert (order[a], order[b]) in DependencyEdges(mods);
      assert HasList(edges, order[a], order[b]);
      var c :| 0 <= c < b && order[c] == order[a];
    }
  }

  lemma CompleteByDepth(mods: seq<ModuleDecl>, order: seq<nat>, level: seq<nat>)
    requires IsLayering(DependencyEdges(mods), |mods|, level) && AllBelow(order, |mods|)
    requires forall a, b :: 0 <= a < b < |order| ==> level[order[a]] <= level[order[b]]
    ensures ByDepth(mods, order)
  {
    var e := DependencyEdges(mods);
    forall a, b, da: nat, db: nat | 0 <= a < b < |order| && IsDepth(e, order[a], da) && IsDepth(e, order[b], db)
      ensures da <= db
    {
      LevelIsDepth(e, |mods|, level, order[a]);
      LevelIsDepth(e, |mods|, level, order[b]);
      DepthUnique(e, order[a], da, level[order[a]]);
      DepthUnique(e, order[b], db, level[order[b]]);
    }
  }

  /** Who put a node into the queue is the last of its owners. */
  lemma CompleteByLastOwner(mods: seq<ModuleDecl>, edges: seq<seq<nat>>, order: seq<nat>, waker: seq<int>)
    requires Represents(edges, DependencyEdges(mods)) && AllBelow(order, |mods|)
    requires Queued(edges, order, |order|, waker)
    ensures ByLastOwner(mods, order)
  {
    forall b, p | 0 <= b < |order| && 0 <= p < |order|
      ensures DependsOn(mods, order[b], order[p]) <==> HasList(edges, order[p], order[b])
    {
      assert order[b] in Below(|mods|) && order[p] in Below(|mods|);
      assert (order[p], order[b]) in DependencyEdges(mods) <==> DependsOn(mods, order[b], order[p]);
    }
    hide DependsOn, HasList, Represents;
    forall b: nat, p: nat | LastOwnerAt(mods, order, b, p) ensures waker[b] == p {
      assert HasList(edges, order[p], order[b]);
      assert waker[b] >= 0;
    }
  }

  lemma RootIsLevelZero(e: Edges, n: nat, level: seq<nat>, v: nat)
    requires IsLayering(e, n, level) && v < n
    ensures level[v] == 0 <==> !HasIncoming(e, v)
  {
  }

  /** The nodes of level zero come first, ascending. */
  lemma ZeroPrefix(order: seq<nat>, level: seq<nat>) returns (m: nat)
    requires RootsAscend(order, level)
    requires forall a, b :: 0 <= a < b < |order| ==> level[order[a]] <= level[order[b]]
    ensures m <= |order| && forall a :: 0 <= a < |order| ==> (a < m <==> level[order[a]] == 0)
    ensures forall a, b :: 0 <= a < b < m ==> order[a] < order[b]
  {
    m := 0;
    while m < |order| && level[order[m]] == 0
      invariant m <= |order| && forall a :: 0 <= a < m ==> level[order[a]] == 0
    {
      m := m + 1;
    }
  }

  lemma RootsArePrefix(mods: seq<ModuleDecl>, order: seq<nat>, level: seq<nat>)
    requires IsLayering(DependencyEdges(mods), |mods|, level) && AllBelow(order, |mods|) && RootsAscend(order, level)
    requires forall a, b :: 0 <= a < b < |order| ==> level[order[a]] <= level[order[b]]
    ensures RootsFirst(mods, order)
  {
    var e := DependencyEdges(mods);
    var m := ZeroPrefix(order, level);
    hide IsLayering, HasIncoming, DependencyEdges, RootsAscend;
    forall a | 0 <= a < |order| ensures a < m <==> !HasIncoming(e, order[a]) {
      RootIsLevelZero(e, |mods|, level, order[a]);
    }
    assert IsRootPrefix(mods, order, m);
  }

  /** A queue run that reaches every module is an initialization order. */
  lemma CompleteRun(mods: seq<ModuleDecl>, edges: seq<seq<nat>>, order: seq<nat>, level: seq<nat>, waker: seq<int>)
    requires |edges| == |mods| && Represents(edges, DependencyEdges(mods))
    requires IsPermutation(order, |mods|)
    requires Forward(edges, order, |order|) && Layers(edges, order, |order|, level) && RootsAscend(order, level)
    requires Queued(edges, order, |order|, waker)
    ensures IsInitOrder(mods, order) && ByLastOwner(mods, order) && !Cyclic(DependencyEdges(mods))
  {
    CompleteByLastOwner(mods, edges, order, waker);
    hide Queued, ByLastOwner;
    CompleteIsLayering(DependencyEdges(mods), edges, order, level);
    CompleteRespects(mods, edges, order);
    CompleteByDepth(mods, order, level);
    RootsArePrefix(mods, order, level);
    LayeredIsAcyclic(DependencyEdges(mods), |mods|, level);
  }

  lemma LeftOver(order: seq<nat>, n: nat)
    requires AllBelow(order, n) && Distinct(order) && |order| != n
    ensures Below(n) - Elems(order) != {}
  {
    DistinctCard(order);
    DistinctBound(order, n);
    if Below(n) - Elems(order) == {} {
      SubsetCard(Below(n), Elems(order));
    }
  }

  /** A queue run that stops early leaves nodes that wait for one another. */
  lemma StuckRun(e: Edges, edges: seq<seq<nat>>, order: seq<nat>)
    requires Represents(edges, e)
    requires |edges| != |order| && AllBelow(order, |edges|) && Distinct(order)
    requires AllWait(edges, order)
    ensures Cyclic(e)
  {
    LeftOver(order, |edges|);
    var left := Below(|edges|) - Elems(order);
    forall v | v in left ensures HasPredecessorIn(e, left, v) {
      assert IsWaiting(edges, order, v);
      var u: nat :| HasList(edges, u, v) && u !in order;
      assert (u, v) in e && u in left;
    }
    hide AllWait, IsWaiting, HasList, Represents, HasPredecessorIn;
    StuckNodesHoldCycle(e, |edges|, left);
  }

  /** The first module with a required type that nobody provides, and the first such type
      in its list. */
  ghost predicate IsFirstMissing(mods: seq<ModuleDecl>, i: nat, t: TypeKey) {
    && IsMissing(mods, i, t) && (forall k: nat, s :: IsMissing(mods, k, s) ==> i <= k)
    && exists j: nat :: IsMissingAt(mods, i, t, j)
  }

  ghost predicate IsMissingAt(mods: seq<ModuleDecl>, i: nat, t: TypeKey, j: nat) {
    && i < |mods| && j < |mods[i].required| && mods[i].required[j] == t
    && forall k :: 0 <= k < j ==> HasProvider(mods, mods[i].required[k])
  }

  /** The two declaration passes: they stop at an unmet requirement, or leave the
      adjacency lists and in-degree counters of the dependency graph. */
  method BuildGraph(mods: seq<ModuleDecl>)
    returns (edges: seq<seq<nat>>, inDegree: seq<nat>, metaByIdx: seq<ModuleMeta>, unmet: Option<(nat, TypeKey)>)
    ensures unmet.Some? ==> IsFirstMissing(mods, unmet.value.0, unmet.value.1)
    ensures unmet.None? ==> forall i: nat, t :: !IsMissing(mods, i, t)
    ensures unmet.None? ==>
      && |edges| == |mods| == |metaByIdx|
      && Represents(edges, DependencyEdges(mods)) && Counted(edges, inDegree) && Ascending(edges, |mods|)
      && forall i :: 0 <= i < |mods| ==> metaByIdx[i] == MetaOf(mods[i])
  {
    var owner, provided := BuildOwners(mods);
    forall t | t in owner ensures owner[t] < |mods| {
      assert IsOwner(mods, t, owner[t]);
    }
    edges, inDegree, metaByIdx, unmet := BuildEdges(mods, owner, provided);
    if unmet.Some? {
      var (i, t) := unmet.value;
      ghost var ts := mods[i].required;
      ghost var j :| 0 <= j < |ts| && ts[j] == t && forall k :: 0 <= k < j ==> ts[k] in owner;
      assert IsMissingAt(mods, i, t, j);
    }
    if unmet.None? {
      forall u: nat, v: nat ensures HasList(edges, u, v) <==> (u, v) in DependencyEdges(mods) {
        EdgesAreDependencies(mods, owner, edges, u, v);
      }
    }
  }

  /** sortModules: an order when the declarations admit one, otherwise the reason why not. */
  method SortModules(mods: seq<ModuleDecl>) returns (r: SortResult)
    ensures r.UnmetDependency? <==> exists i: nat, t :: IsMissing(mods, i, t)
    ensures r.UnmetDependency? ==>
      exists i: nat :: IsFirstMissing(mods, i, r.missing) && mods[i].name == r.name
    ensures r.CycleDetected? <==>
      (forall i: nat, t :: !IsMissing(mods, i, t)) && Cyclic(DependencyEdges(mods))
    ensures r.Sorted? ==> exists order :: IsTheOrder(mods, order) && Lists(mods, order, r.modules, r.meta)
  {
    var edges, inDegree, metaByIdx, unmet := BuildGraph(mods);
    if unmet.Some? {
      return UnmetDependency(mods[unmet.value.0].name, unmet.value.1);
    }
    EdgesStayBelow(mods, edges);
    ghost var order, level, waker;
    var sorted, meta;
    sorted, meta, order, level, waker := Kahn(mods, metaByIdx, edges, inDegree);
    if |sorted| != |mods| {
      StuckRun(DependencyEdges(mods), edges, order);
      return CycleDetected;
    }
    CompleteRun(mods, edges, order, level, waker);
    assert IsTheOrder(mods, order);
    return Sorted(sorted, meta);
  }

  lemma EdgesStayBelow(mods: seq<ModuleDecl>, edges: seq<seq<nat>>)
    requires |edges| == |mods| && Represents(edges, DependencyEdges(mods))
    ensures forall u :: 0 <= u < |edges| ==> AllBelow(edges[u], |edges|)
  {
    forall u, k | 0 <= u < |edges| && 0 <= k < |edges[u]| ensures edges[u][k] < |edges| {
      assert HasList(edges, u, edges[u][k]);
      assert (u, edges[u][k]) in DependencyEdges(mods);
    }
  }

  // ----- the order is the only one -----

  ghost predicate IsRoot(mods: seq<ModuleDecl>, v: nat) {
    !HasIncoming(DependencyEdges(mods), v)
  }

  lemma RootMeans(mods: seq<ModuleDecl>, order: seq<nat>, b: nat)
    requires IsPermutation(order, |mods|) && b < |order|
    ensures IsRoot(mods, order[b]) <==> forall p :: 0 <= p < |order| ==> !DependsOn(mods, order[b], order[p])
  {
    var e := DependencyEdges(mods);
    PermutationCovers(order, |mods|);
    hide DependsOn, IsPermutation;
    assert forall u: nat :: (u, order[b]) in e <==> u < |mods| && order[b] < |mods| && DependsOn(mods, order[b], u);
    if !IsRoot(mods, order[b]) {
      var u :| (u, order[b]) in e;
      assert u in order;
    }
    assert order[b] < |mods|;
    forall p | 0 <= p < |order| && DependsOn(mods, order[b], order[p]) ensures !IsRoot(mods, order[b]) {
      assert order[p] < |mods|;
      assert (order[p], order[b]) in e;
    }
  }

  /** A module that waits for somebody has a last owner, before it. */
  lemma LastOwner(mods: seq<ModuleDecl>, order: seq<nat>, b: nat) returns (p: nat)
    requires IsPermutation(order, |mods|) && Respects(mods, order) && b < |order| && !IsRoot(mods, order[b])
    ensures p < b && LastOwnerAt(mods, order, b, p)
  {
    RootMeans(mods, order, b);
    hide DependsOn, IsRoot;
    var i := |order| - 1;
    while i >= 0 && !DependsOn(mods, order[b], order[i])
      invariant -1 <= i < |order| && forall q :: i < q < |order| ==> !DependsOn(mods, order[b], order[q])
    {
      i := i - 1;
    }
    p := i;
  }

  /** Where two orders agree up to a module, its last owner is at the same place in both. */
  lemma SameLastOwner(mods: seq<ModuleDecl>, x: seq<nat>, y: seq<nat>, n: nat, m: nat, p: nat)
    requires IsPermutation(x, |mods|) && Respects(mods, x) && IsPermutation(y, |mods|)
    requires n < |x| && m < |y| && x[..n] == y[..n] && x[n] == y[m] && p < n && LastOwnerAt(mods, x, n, p)
    ensures LastOwnerAt(mods, y, m, p)
  {
    assert forall c :: 0 <= c < n ==> x[c] == x[..n][c] == y[c];
    PermutationCovers(x, |mods|);
    hide DependsOn;
    forall q | p < q < |y| ensures !DependsOn(mods, y[m], y[q]) {
      assert y[q] in x;
      var c :| 0 <= c < |x| && x[c] == y[q];
      assert c > p;
    }
  }

  lemma Elsewhere(x: seq<nat>, y: seq<nat>, n: nat, size: nat) returns (m: nat)
    requires IsPermutation(x, size) && IsPermutation(y, size) && n < size && x[..n] == y[..n] && x[n] != y[n]
    ensures n < m < |y| && y[m] == x[n]
  {
    PermutationCovers(y, size);
    assert x[n] in y;
    m :| 0 <= m < |y| && y[m] == x[n];
    assert forall c :: 0 <= c < n ==> x[c] == x[..n][c] == y[c];
  }

  /** Of two orders that agree so far, the one goes on with a module that waits for nobody
      exactly if the other does. */
  lemma RootsTogether(mods: seq<ModuleDecl>, x: seq<nat>, y: seq<nat>, n: nat)
    requires IsInitOrder(mods, x) && IsInitOrder(mods, y) && n < |mods| && x[..n] == y[..n]
    requires IsRoot(mods, x[n]) && x[n] != y[n]
    ensures IsRoot(mods, y[n]) && y[n] < x[n]
  {
    var m := Elsewhere(x, y, n, |mods|);
    var k: nat :| IsRootPrefix(mods, y, k);
    assert m < k;
  }

  lemma NextIsRoot(mods: seq<ModuleDecl>, x: seq<nat>, y: seq<nat>, n: nat)
    requires IsInitOrder(mods, x) && IsInitOrder(mods, y) && n < |mods| && x[..n] == y[..n]
    requires IsRoot(mods, x[n]) || IsRoot(mods, y[n])
    ensures x[n] == y[n]
  {
    hide IsRoot, IsRootPrefix, Respects, ByDepth, RootsFirst;
    if x[n] != y[n] {
      if IsRoot(mods, x[n]) {
        RootsTogether(mods, x, y, n);
        RootsTogether(mods, y, x, n);
      } else {
        RootsTogether(mods, y, x, n);
      }
    }
  }

  lemma NextIsSame(mods: seq<ModuleDecl>, x: seq<nat>, y: seq<nat>, n: nat)
    requires IsTheOrder(mods, x) && IsTheOrder(mods, y) && n < |mods| && x[..n] == y[..n]
    ensures x[n] == y[n]
  {
    hide ByLastOwner, Respects, ByDepth, RootsFirst, IsRoot, IsRootPrefix;
    if IsRoot(mods, x[n]) || IsRoot(mods, y[n]) {
      NextIsRoot(mods, x, y, n);
    } else {
      NextWaits(mods, x, y, n);
    }
  }

  /** Both go on with a module that waits for somebody: with the one whose last owner comes
      first, or behind the same owner with the one declared first. */
  lemma NextWaits(mods: seq<ModuleDecl>, x: seq<nat>, y: seq<nat>, n: nat)
    requires IsTheOrder(mods, x) && IsTheOrder(mods, y) && n < |mods| && x[..n] == y[..n]
    requires !IsRoot(mods, x[n]) && !IsRoot(mods, y[n])
    ensures x[n] == y[n]
  {
    if x[n] == y[n] {
      return;
    }
    hide ByLastOwner, Respects, ByDepth, RootsFirst, IsRoot, LastOwnerAt, IsPermutation;
    assert IsPermutation(x, |mods|) && IsPermutation(y, |mods|);
    Sizes(mods, x, y);
    var p := LastOwner(mods, x, n);
    var q := LastOwner(mods, y, n);
    var m := Elsewhere(x, y, n, |mods|);
    var k := Elsewhere(y, x, n, |mods|);
    SameLastOwner(mods, x, y, n, m, p);
    SameLastOwner(mods, y, x, n, k, q);
    LastOwnersAscend(mods, x, n, k, p, q);
    LastOwnersAscend(mods, y, n, m, q, p);
  }

  lemma Sizes(mods: seq<ModuleDecl>, x: seq<nat>, y: seq<nat>)
    requires IsPermutation(x, |mods|) && IsPermutation(y, |mods|)
    ensures |x| == |y| == |mods|
  {
  }

  lemma LastOwnersAscend(mods: seq<ModuleDecl>, order: seq<nat>, a: nat, b: nat, p: nat, q: nat)
    requires ByLastOwner(mods, order) && a < b < |order|
    requires LastOwnerAt(mods, order, a, p) && LastOwnerAt(mods, order, b, q)
    ensures p < q || (p == q && order[a] < order[b])
  {
  }

  /** The declarations determine the order. */
  lemma OrderUnique(mods: seq<ModuleDecl>, x: seq<nat>, y: seq<nat>)
    requires IsTheOrder(mods, x) && IsTheOrder(mods, y)
    ensures x == y
  {
    hide ByLastOwner, Respects, ByDepth, RootsFirst;
    var n := 0;
    while n < |mods|
      invariant n <= |mods| && x[..n] == y[..n]
    {
      NextIsSame(mods, x, y, n);
      assert x[..n + 1] == x[..n] + [x[n]] && y[..n + 1] == y[..n] + [y[n]];
      n := n + 1;
    }
    assert x == x[..n] && y == y[..n];
  }
}
