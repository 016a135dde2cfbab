/** Directed graphs over the nodes `0..n-1`, given by a finite set of edges. */
module Graphs {
  import opened Common

  type Edges = set<(nat, nat)>

  ghost predicate Within(e: Edges, n: nat) {
    forall u, v :: (u, v) in e ==> u < n && v < n
  }

  ghost predicate IsPath(e: Edges, p: seq<nat>) {
    |p| > 0 && forall k :: 0 <= k < |p| - 1 ==> (p[k], p[k + 1]) in e
  }

  ghost predicate IsCycle(e: Edges, p: seq<nat>) {
    IsPath(e, p) && |p| > 1 && p[0] == p[|p| - 1]
  }

  ghost predicate Cyclic(e: Edges) {
    exists p :: IsCycle(e, p)
  }

  ghost predicate HasPredecessorIn(e: Edges, s: set<nat>, v: nat) {
    exists u :: u in s && (u, v) in e
  }

  ghost predicate HasIncoming(e: Edges, v: nat) {
    exists u :: (u, v) in e
  }

  /** `d` is the number of edges of a longest path ending in `v`. */
  ghost predicate IsDepth(e: Edges, v: nat, d: nat) {
    && (exists p :: IsPathOfLength(e, p, v, d))
    && (forall p, k: nat :: IsPathOfLength(e, p, v, k) ==> k <= d)
  }

  ghost predicate IsPathOfLength(e: Edges, p: seq<nat>, v: nat, d: nat) {
    IsPath(e, p) && |p| == d + 1 && p[d] == v
  }

  /** A labelling that grows along every edge and is attained by some predecessor. */
  ghost predicate IsLayering(e: Edges, n: nat, level: seq<nat>) {
    && |level| == n
    && Within(e, n)
    && (forall u, v :: (u, v) in e ==> level[u] < level[v])
    && (forall v: nat :: v < n && level[v] > 0 ==> exists u :: (u, v) in e && level[u] + 1 == level[v])
  }

  lemma {:induction false} LevelsGrowAlongPaths(e: Edges, n: nat, level: seq<nat>, p: seq<nat>)
    requires IsLayering(e, n, level)
    requires IsPath(e, p) && AllBelow(p, n)
    ensures level[p[0]] + |p| - 1 <= level[p[|p| - 1]]
  {
    if |p| > 1 {
      LevelsGrowAlongPaths(e, n, level, p[..|p| - 1]);
      assert (p[|p| - 2], p[|p| - 1]) in e;
    }
  }

  lemma PathStaysWithin(e: Edges, n: nat, p: seq<nat>)
    requires Within(e, n) && IsPath(e, p) && (|p| > 1 || p[0] < n)
    ensures AllBelow(p, n)
  {
    forall k | 0 <= k < |p| ensures p[k] < n {
      if k + 1 < |p| {
        assert (p[k], p[k + 1]) in e;
      } else if k > 0 {
        assert (p[k - 1], p[k]) in e;
      }
    }
  }

  lemma LayeredIsAcyclic(e: Edges, n: nat, level: seq<nat>)
    requires IsLayering(e, n, level)
    ensures !Cyclic(e)
  {
    forall p | IsCycle(e, p) ensures false {
      PathStaysWithin(e, n, p);
      LevelsGrowAlongPaths(e, n, level, p);
    }
  }

  lemma {:induction false} LevelIsAttained(e: Edges, n: nat, level: seq<nat>, v: nat) returns (p: seq<nat>)
    requires IsLayering(e, n, level) && v < n
    ensures IsPathOfLength(e, p, v, level[v])
    decreases level[v]
  {
    if level[v] == 0 {
      p := [v];
    } else {
      var u :| (u, v) in e && level[u] + 1 == level[v];
      var q := LevelIsAttained(e, n, level, u);
      p := q + [v];
    }
  }

  /** The levels of a layering are exactly the longest-path depths. */
  lemma LevelIsDepth(e: Edges, n: nat, level: seq<nat>, v: nat)
    requires IsLayering(e, n, level) && v < n
    ensures IsDepth(e, v, level[v])
  {
    var p := LevelIsAttained(e, n, level, v);
    forall q, k: nat | IsPathOfLength(e, q, v, k) ensures k <= level[v] {
      assert |q| == 1 ==> q[0] == v;
      PathStaysWithin(e, n, q);
      LevelsGrowAlongPaths(e, n, level, q);
    }
  }

  lemma DepthUnique(e: Edges, v: nat, a: nat, b: nat)
    requires IsDepth(e, v, a) && IsDepth(e, v, b)
    ensures a == b
  {
    var p :| IsPathOfLength(e, p, v, a);
    var q :| IsPathOfLength(e, q, v, b);
    assert a <= b && b <= a;
  }

  /** Walk backwards inside a set in which every node has a predecessor. */
  lemma {:induction false} BackwardWalk(e: Edges, s: set<nat>, len: nat) returns (p: seq<nat>)
    requires s != {}
    requires forall v :: v in s ==> HasPredecessorIn(e, s, v)
    ensures |p| == len + 1 && IsPath(e, p) && forall k :: 0 <= k < |p| ==> p[k] in s
  {
    if len == 0 {
      var v :| v in s;
      p := [v];
    } else {
      var q := BackwardWalk(e, s, len - 1);
      assert HasPredecessorIn(e, s, q[0]);
      var u :| u in s && (u, q[0]) in e;
      p := [u] + q;
    }
  }

  /** Nodes that all wait for one another contain a real cycle. */
  lemma StuckNodesHoldCycle(e: Edges, n: nat, s: set<nat>)
    requires s != {} && forall v :: v in s ==> v < n
    requires forall v :: v in s ==> HasPredecessorIn(e, s, v)
    ensures Cyclic(e)
  {
    var p := BackwardWalk(e, s, n);
    Pigeonhole(p, n);
    var a, b :| 0 <= a < b < |p| && p[a] == p[b];
    var c := p[a..b + 1];
    assert IsCycle(e, c) by {
      forall k | 0 <= k < |c| - 1 ensures (c[k], c[k + 1]) in e {
        assert c[k] == p[a + k] && c[k + 1] == p[a + k + 1];
      }
    }
  }
}
