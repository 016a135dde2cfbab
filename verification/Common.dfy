/** Small definitions shared by every component: optional values, results, and
    finite sequences of distinct indices. */
module Common {

  datatype Option<+T> = None | Some(value: T)

  datatype Result<+T, +E> = Ok(value: T) | Err(error: E)

  ghost predicate Distinct<T>(s: seq<T>) {
    forall a, b :: 0 <= a < b < |s| ==> s[a] != s[b]
  }

  ghost predicate AllBelow(s: seq<nat>, n: nat) {
    forall k :: 0 <= k < |s| ==> s[k] < n
  }

  ghost function Elems<T>(s: seq<T>): set<T> {
    set x | x in s
  }

  ghost function Below(n: nat): (r: set<nat>)
    ensures forall x: nat :: x in r <==> x < n
    ensures |r| == n
  {
    if n == 0 then {} else Below(n - 1) + {n - 1}
  }

  /** `order` lists every index below `n` exactly once. */
  ghost predicate IsPermutation(order: seq<nat>, n: nat) {
    |order| == n && AllBelow(order, n) && Distinct(order)
  }

  lemma {:induction false} DistinctCard<T>(s: seq<T>)
    requires Distinct(s)
    ensures |Elems(s)| == |s|
  {
    if |s| > 0 {
      var rest := s[..|s| - 1];
      DistinctCard(rest);
      assert Elems(s) == Elems(rest) + {s[|s| - 1]};
    }
  }

  lemma SubsetCard<T>(a: set<T>, b: set<T>)
    requires a <= b
    ensures |a| <= |b|
    ensures |a| == |b| ==> a == b
  {
    assert b == a + (b - a);
  }

  /** More indices than values: two positions agree. */
  lemma Pigeonhole(s: seq<nat>, n: nat)
    requires AllBelow(s, n) && |s| > n
    ensures exists a, b :: 0 <= a < b < |s| && s[a] == s[b]
  {
    if Distinct(s) {
      DistinctCard(s);
      SubsetCard(Elems(s), Below(n));
      assert false;
    }
  }

  /** A permutation of the first `n` indices misses none of them. */
  lemma PermutationCovers(order: seq<nat>, n: nat)
    requires IsPermutation(order, n)
    ensures forall v: nat :: v < n ==> v in order
  {
    DistinctCard(order);
    SubsetCard(Elems(order), Below(n));
    forall v: nat | v < n ensures v in order {
      assert v in Below(n);
    }
  }

  /** The arithmetic of a prefix: distinct indices never outnumber the range. */
  lemma DistinctBound(order: seq<nat>, n: nat)
    requires AllBelow(order, n) && Distinct(order)
    ensures |order| <= n
  {
    if |order| > n {
      Pigeonhole(order, n);
      assert false;
    }
  }
}
