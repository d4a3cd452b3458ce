/** Initial segments of the naturals, and sequences without repetition: the pool
    of slots, the layers and experts of a model, the ranks of a group, and the
    targets of an event. */
module FiniteSets {
  predicate Distinct<T(==)>(s: seq<T>) {
    forall i, j | 0 <= i < j < |s| :: s[i] != s[j]
  }

  function Range(n: nat): (r: set<nat>)
    ensures |r| == n && forall x: nat :: x in r <==> x < n
  {
    if n == 0 then {} else Range(n - 1) + {n - 1}
  }

  lemma {:induction false} SizeBound(s: set<nat>, n: nat)
    requires forall x | x in s :: x < n
    ensures |s| <= n
  {
    if n == 0 {
      assert s == {};
    } else {
      SizeBound(s - {n - 1}, n - 1);
    }
  }
}
