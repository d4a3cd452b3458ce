/** The per-layer check that expert-parallel ranks partition the experts. Each
    rank reports the experts it owns; the check walks over the ranks, refuses a
    rank number or an expert it has seen, and finally compares what it has seen
    with all ranks and all experts. */
module ExpertOwnership {
  import opened FiniteSets

  /** What one rank reports for a layer. */
  datatype Module = Module(rank: nat, experts: seq<nat>)

  function Owned(m: Module): set<nat> {
    set e | e in m.experts
  }

  /** How many ranks own expert `e`. */
  function Owners(modules: seq<Module>, e: nat): nat {
    if modules == [] then 0
    else Owners(modules[..|modules| - 1], e) + if e in modules[|modules| - 1].experts then 1 else 0
  }

  /** How many modules report rank number `r`. */
  function Reports(modules: seq<Module>, r: nat): nat {
    if modules == [] then 0
    else Reports(modules[..|modules| - 1], r) + if modules[|modules| - 1].rank == r then 1 else 0
  }

  ghost predicate OwnedOnce(modules: seq<Module>, experts: nat) {
    forall e: nat :: Owners(modules, e) == if e < experts then 1 else 0
  }

  /** Every expert has exactly one owner, nothing else is owned, and the rank
      numbers are 0 to n - 1, once each. */
  ghost predicate Partition(modules: seq<Module>, experts: nat) {
    && OwnedOnce(modules, experts)
    && (forall r: nat :: Reports(modules, r) == if r < |modules| then 1 else 0)
  }

  lemma {:induction false} CountsGrow(modules: seq<Module>, i: nat, x: nat)
    requires i <= |modules|
    ensures Owners(modules[..i], x) <= Owners(modules, x)
    ensures Reports(modules[..i], x) <= Reports(modules, x)
  {
    if i < |modules| {
      CountsGrow(modules[..|modules| - 1], i, x);
      assert modules[..|modules| - 1][..i] == modules[..i];
    } else {
      assert modules[..i] == modules;
    }
  }

  /** Both counts of the first `i` modules are the indicators of these sets. */
  ghost predicate SeenOnce(modules: seq<Module>, i: nat, seen: set<nat>, ranks: set<nat>)
    requires i <= |modules|
  {
    && (forall e: nat :: Owners(modules[..i], e) == if e in seen then 1 else 0)
    && (forall r: nat :: Reports(modules[..i], r) == if r in ranks then 1 else 0)
  }

  lemma SeenStep(modules: seq<Module>, i: nat, seen: set<nat>, ranks: set<nat>, x: nat)
    requires i < |modules| && SeenOnce(modules, i, seen, ranks)
    ensures Owners(modules[..i + 1], x) == (if x in seen then 1 else 0) + if x in Owned(modules[i]) then 1 else 0
    ensures Reports(modules[..i + 1], x) == (if x in ranks then 1 else 0) + if x == modules[i].rank then 1 else 0
    ensures Owners(modules[..i + 1], x) <= Owners(modules, x)
    ensures Reports(modules[..i + 1], x) <= Reports(modules, x)
  {
    assert modules[..i + 1][..i] == modules[..i];
    CountsGrow(modules, i + 1, x);
  }

  lemma SeenGrows(modules: seq<Module>, i: nat, seen: set<nat>, ranks: set<nat>)
    requires i < |modules| && SeenOnce(modules, i, seen, ranks)
    requires modules[i].rank !in ranks && seen * Owned(modules[i]) == {}
    ensures SeenOnce(modules, i + 1, seen + Owned(modules[i]), ranks + {modules[i].rank})
  {
    forall x: nat
      ensures Owners(modules[..i + 1], x) == if x in seen + Owned(modules[i]) then 1 else 0
      ensures Reports(modules[..i + 1], x) == if x in ranks + {modules[i].rank} then 1 else 0
    {
      SeenStep(modules, i, seen, ranks, x);
      assert x !in seen * Owned(modules[i]);
    }
  }

  lemma SeenExact(modules: seq<Module>, experts: nat, seen: set<nat>, ranks: set<nat>)
    requires SeenOnce(modules, |modules|, seen, ranks)
    ensures Partition(modules, experts) <==> ranks == Range(|modules|) && seen == Range(experts)
  {
    assert modules[..|modules|] == modules;
    if Partition(modules, experts) {
      assert forall r: nat :: r in ranks <==> Reports(modules, r) == 1;
      assert forall e: nat :: e in seen <==> Owners(modules, e) == 1;
    }
  }

  /** The incremental check accepts exactly the partitions. */
  method ValidateLayer(modules: seq<Module>, experts: nat) returns (ok: bool)
    ensures ok <==> Partition(modules, experts)
  {
    var seen: set<nat>, ranks: set<nat> := {}, {};
    var i := 0;
    while i < |modules|
      invariant 0 <= i <= |modules|
      invariant SeenOnce(modules, i, seen, ranks)
    {
      var m := modules[i];
      if m.rank in ranks {
        SeenStep(modules, i, seen, ranks, m.rank);
        return false;
      }
      var owned := Owned(m);
      if seen * owned != {} {
        var e :| e in seen * owned;
        SeenStep(modules, i, seen, ranks, e);
        return false;
      }
      SeenGrows(modules, i, seen, ranks);
      seen, ranks := seen + owned, ranks + {m.rank};
      i := i + 1;
    }
    SeenExact(modules, experts, seen, ranks);
    ok := ranks == Range(|modules|) && seen == Range(experts);
  }

  lemma {:induction false} CountsConcat(a: seq<Module>, b: seq<Module>, x: nat)
    ensures Owners(a + b, x) == Owners(a, x) + Owners(b, x)
    ensures Reports(a + b, x) == Reports(a, x) + Reports(b, x)
  {
    if b == [] {
      assert a + b == a;
    } else {
      CountsConcat(a, b[..|b| - 1], x);
      assert (a + b)[..|a + b| - 1] == a + b[..|b| - 1];
    }
  }

  lemma {:induction false} RemoveModule(b: seq<Module>, k: nat, x: nat)
    requires k < |b|
    ensures var rest := b[..k] + b[k + 1..];
            && Owners(b, x) == Owners(rest, x) + (if x in b[k].experts then 1 else 0)
            && Reports(b, x) == Reports(rest, x) + (if b[k].rank == x then 1 else 0)
            && multiset(b) == multiset(rest) + multiset{b[k]}
  {
    assert b == b[..k] + [b[k]] + b[k + 1..];
    CountsConcat(b[..k], b[k + 1..], x);
    CountsConcat(b[..k] + [b[k]], b[k + 1..], x);
    CountsConcat(b[..k], [b[k]], x);
    assert [b[k]][..0] == [];
  }

  lemma {:induction false} CountsPermute(a: seq<Module>, b: seq<Module>, x: nat)
    requires multiset(a) == multiset(b)
    ensures |a| == |b| && Owners(a, x) == Owners(b, x) && Reports(a, x) == Reports(b, x)
  {
    if a == [] {
      assert |multiset(b)| == 0;
    } else {
      var n := |a| - 1;
      assert a[n] in multiset(b);
      var k :| 0 <= k < |b| && b[k] == a[n];
      RemoveModule(a, n, x);
      RemoveModule(b, k, x);
      var ra, rb := a[..n] + a[n + 1..], b[..k] + b[k + 1..];
      assert multiset(ra) == multiset(a) - multiset{a[n]} == multiset(b) - multiset{b[k]} == multiset(rb);
      CountsPermute(ra, rb, x);
    }
  }

  /** The answer does not depend on the order of the ranks. */
  lemma OrderIndependent(a: seq<Module>, b: seq<Module>, experts: nat)
    requires multiset(a) == multiset(b)
    ensures Partition(a, experts) <==> Partition(b, experts)
  {
    forall x: nat ensures |a| == |b| && Owners(a, x) == Owners(b, x) && Reports(a, x) == Reports(b, x) {
      CountsPermute(a, b, x);
    }
  }

  /** For two ranks, exact ownership is the pairwise check: disjoint and
      complete. */
  lemma TwoRanks(a: Module, b: Module, experts: nat)
    ensures OwnedOnce([a, b], experts) <==> Owned(a) * Owned(b) == {} && Owned(a) + Owned(b) == Range(experts)
  {
    var left, right := Owned(a), Owned(b);
    forall e: nat ensures Owners([a, b], e) == (if e in left then 1 else 0) + (if e in right then 1 else 0) {
      assert [a, b][..1] == [a] && [a][..0] == [];
      assert Owners([a], e) == if e in left then 1 else 0;
    }
    if OwnedOnce([a, b], experts) {
      assert forall e: nat :: e in left + right <==> Owners([a, b], e) >= 1;
      assert forall e: nat | e in left * right :: Owners([a, b], e) == 2;
      assert left * right == {};
      assert left + right == Range(experts);
    }
    if left * right == {} && left + right == Range(experts) {
      forall e: nat ensures Owners([a, b], e) == if e < experts then 1 else 0 {
        assert e !in left * right && (e in left + right <==> e in Range(experts));
      }
      assert OwnedOnce([a, b], experts);
    }
  }
}
