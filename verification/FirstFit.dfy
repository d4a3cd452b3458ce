/** The health-only scheduler: each request takes its GPUs from the first ready
    node that has enough. Requests are integers as in the source, so a negative
    one is possible and gives GPUs back. A refused request changes nothing, and
    nodes that are not ready are never chosen. The clamp of free GPUs at zero
    is part of the model, and is proved never to bite. */
module FirstFit {
  import opened Wrappers

  datatype Node = Node(ready: bool, free: int)

  /** The first ready node with at least `gpus` free. */
  function FirstReady(nodes: seq<Node>, gpus: int): (r: Option<nat>)
    ensures r.Some? ==>
              && r.value < |nodes| && nodes[r.value].ready && nodes[r.value].free >= gpus
              && forall i | 0 <= i < r.value :: !(nodes[i].ready && nodes[i].free >= gpus)
    ensures r.None? <==> forall i | 0 <= i < |nodes| :: !(nodes[i].ready && nodes[i].free >= gpus)
  {
    FirstReadyFrom(nodes, gpus, 0)
  }

  function FirstReadyFrom(nodes: seq<Node>, gpus: int, from: nat): (r: Option<nat>)
    requires from <= |nodes|
    ensures r.Some? ==>
              && from <= r.value < |nodes| && nodes[r.value].ready && nodes[r.value].free >= gpus
              && forall i | from <= i < r.value :: !(nodes[i].ready && nodes[i].free >= gpus)
    ensures r.None? <==> forall i | from <= i < |nodes| :: !(nodes[i].ready && nodes[i].free >= gpus)
    decreases |nodes| - from
  {
    if from == |nodes| then None
    else if nodes[from].ready && nodes[from].free >= gpus then Some(from)
    else FirstReadyFrom(nodes, gpus, from + 1)
  }

  function Consume(nodes: seq<Node>, at: Option<nat>, gpus: int): seq<Node>
    requires at.Some? ==> at.value < |nodes|
  {
    if at.None? then nodes
    else
      var left := nodes[at.value].free - gpus;
      nodes[at.value := nodes[at.value].(free := if left < 0 then 0 else left)]
  }

  function After(nodes: seq<Node>, requests: seq<int>): (r: seq<Node>)
    ensures |r| == |nodes|
  {
    if requests == [] then nodes
    else
      var now := After(nodes, requests[..|requests| - 1]);
      var gpus := requests[|requests| - 1];
      Consume(now, FirstReady(now, gpus), gpus)
  }

  function TotalFree(nodes: seq<Node>): int {
    if nodes == [] then 0 else TotalFree(nodes[..|nodes| - 1]) + nodes[|nodes| - 1].free
  }

  function Granted(nodes: seq<Node>, requests: seq<int>): int {
    if requests == [] then 0
    else
      var front := requests[..|requests| - 1];
      Granted(nodes, front)
        + if FirstReady(After(nodes, front), requests[|requests| - 1]).Some? then requests[|requests| - 1] else 0
  }

  lemma {:induction false} TotalFreeUpdate(nodes: seq<Node>, i: nat, free: int)
    requires i < |nodes|
    ensures TotalFree(nodes[i := nodes[i].(free := free)])
         == TotalFree(nodes) - nodes[i].free + free
  {
    var n := |nodes| - 1;
    var updated := nodes[i := nodes[i].(free := free)];
    if i == n {
      assert updated[..n] == nodes[..n];
    } else {
      TotalFreeUpdate(nodes[..n], i, free);
      assert updated[..n] == nodes[..n][i := nodes[..n][i].(free := free)];
    }
  }

  lemma {:induction false} ConsumeConserves(nodes: seq<Node>, gpus: int)
    ensures var at := FirstReady(nodes, gpus);
            var left := Consume(nodes, at, gpus);
            && TotalFree(left) == TotalFree(nodes) - (if at.Some? then gpus else 0)
            && forall i | 0 <= i < |nodes| :: left[i].ready == nodes[i].ready && (!nodes[i].ready ==> left[i] == nodes[i])
  {
    var at := FirstReady(nodes, gpus);
    if at.Some? {
      var k := at.value;
      TotalFreeUpdate(nodes, k, nodes[k].free - gpus);
      assert Consume(nodes, at, gpus) == nodes[k := nodes[k].(free := nodes[k].free - gpus)];
    } else {
      assert Consume(nodes, at, gpus) == nodes;
    }
  }

  /** Conservation over whole runs: the free GPUs lost are exactly the GPUs
      granted, so the clamp at zero never bites; nodes that are not ready never
      change. */
  lemma {:induction false} GpusConserved(nodes: seq<Node>, requests: seq<int>)
    ensures TotalFree(After(nodes, requests))
         == TotalFree(nodes) - Granted(nodes, requests)
    ensures forall i | 0 <= i < |nodes| ::
              After(nodes, requests)[i].ready == nodes[i].ready
              && (!nodes[i].ready ==> After(nodes, requests)[i] == nodes[i])
  {
    if requests != [] {
      var front, gpus := requests[..|requests| - 1], requests[|requests| - 1];
      GpusConserved(nodes, front);
      var now := After(nodes, front);
      ConsumeConserves(now, gpus);
      assert After(nodes, requests) == Consume(now, FirstReady(now, gpus), gpus);
    }
  }

  /** A request takes its GPUs from the first ready node that has enough, and
      leaves every other node as it is; a refused one leaves all. */
  lemma {:induction false} OnlySelectedChanges(nodes: seq<Node>, requests: seq<int>, g: int, i: nat)
    requires i < |nodes|
    ensures var now := After(nodes, requests);
            After(nodes, requests + [g])[i]
            == if Fits(now[i], g) && forall j | 0 <= j < i :: !Fits(now[j], g) then now[i].(free := now[i].free - g) else now[i]
  {
    var now := After(nodes, requests);
    assert (requests + [g])[..|requests|] == requests;
    var at := FirstReady(now, g);
    assert After(nodes, requests + [g]) == Consume(now, at, g);
    if at.Some? {
      assert Fits(now[at.value], g) && forall j | 0 <= j < at.value :: !Fits(now[j], g);
    } else {
      assert !Fits(now[i], g);
    }
  }

  predicate Fits(node: Node, gpus: int) {
    node.ready && node.free >= gpus
  }

  lemma {:induction false} FreeNeverGrows(nodes: seq<Node>, a: seq<int>, b: seq<int>)
    requires forall i | 0 <= i < |b| :: b[i] >= 0
    ensures forall i | 0 <= i < |nodes| ::
              After(nodes, a + b)[i].free <= After(nodes, a)[i].free && After(nodes, a + b)[i].ready == After(nodes, a)[i].ready
  {
    if b == [] {
      assert a + b == a;
    } else {
      FreeNeverGrows(nodes, a, b[..|b| - 1]);
      assert (a + b)[..|a + b| - 1] == a + b[..|b| - 1];
    }
  }

  /** Once a request was refused, every later request at least as large is. */
  lemma RefusalIsFinal(nodes: seq<Node>, a: seq<int>, b: seq<int>, g: int, h: int)
    requires FirstReady(After(nodes, a), g).None? && g <= h
    requires forall i | 0 <= i < |b| :: b[i] >= 0
    ensures FirstReady(After(nodes, a + b), h).None?
  {
    FreeNeverGrows(nodes, a, b);
  }

  /** A request that a cluster refuses is refused, and so is every larger one,
      after each further request of `b`, whatever the cluster. */
  ghost predicate RefusalsFinal(b: seq<int>) {
    forall nodes, i: nat, g, h | i <= |b| && g <= h && FirstReady(nodes, g).None? ::
      FirstReady(After(nodes, b[..i]), h).None?
  }

  lemma {:induction false} FullNodeStays(b: seq<int>)
    requires forall i | 0 <= i < |b| :: b[i] >= 0
    ensures After([Node(true, 0)], b) == [Node(true, 0)]
  {
    if b != [] {
      FullNodeStays(b[..|b| - 1]);
    }
  }

  /** Right after the first negative request a full node has GPUs again, so a
      request it refused before is granted. */
  lemma NegativeRequestReopens(b: seq<int>, k: nat)
    requires k < |b| && b[k] < 0 && forall i | 0 <= i < k :: b[i] >= 0
    ensures FirstReady([Node(true, 0)], 1).None?
    ensures FirstReady(After([Node(true, 0)], b[..k + 1]), 1)
         == Some(0)
  {
    var full := [Node(true, 0)];
    FullNodeStays(b[..k]);
    assert b[..k + 1][..k] == b[..k];
    assert FirstReady(full, b[k]) == Some(0);
    assert After(full, b[..k + 1]) == [Node(true, -b[k])];
    assert FirstReady([Node(true, -b[k])], 1).Some?;
  }

  lemma {:induction false} SomewhereReopens(b: seq<int>) returns (k: nat)
    requires exists i | 0 <= i < |b| :: b[i] < 0
    ensures k < |b| && FirstReady(After([Node(true, 0)], b[..k + 1]), 1).Some?
  {
    var front := b[..|b| - 1];
    if exists i | 0 <= i < |front| :: front[i] < 0 {
      k := SomewhereReopens(front);
      assert front[..k + 1] == b[..k + 1];
    } else {
      k := |front|;
      assert forall i | 0 <= i < k :: front[i] == b[i];
      NegativeRequestReopens(b, k);
    }
  }

  /** Refusals are final exactly along request sequences without a negative
      request. */
  lemma RefusalFinalExact(b: seq<int>)
    ensures RefusalsFinal(b) <==> forall i | 0 <= i < |b| :: b[i] >= 0
  {
    if forall i | 0 <= i < |b| :: b[i] >= 0 {
      forall nodes, i: nat, g, h | i <= |b| && g <= h && FirstReady(nodes, g).None?
        ensures FirstReady(After(nodes, b[..i]), h).None?
      {
        assert After(nodes, []) == nodes && [] + b[..i] == b[..i];
        RefusalIsFinal(nodes, [], b[..i], g, h);
      }
    } else {
      var k := SomewhereReopens(b);
      assert FirstReady([Node(true, 0)], 1).None?;
    }
  }

  /** The node selected for each request, by the state before it. */
  function Selections(nodes: seq<Node>, requests: seq<int>): (r: seq<Option<nat>>)
    ensures |r| == |requests|
  {
    if requests == [] then []
    else
      var front := requests[..|requests| - 1];
      Selections(nodes, front) + [FirstReady(After(nodes, front), requests[|requests| - 1])]
  }

  lemma {:induction false} SelectionAt(nodes: seq<Node>, requests: seq<int>, i: nat)
    requires i < |requests|
    ensures Selections(nodes, requests)[i]
         == FirstReady(After(nodes, requests[..i]), requests[i])
  {
    var front := requests[..|requests| - 1];
    if i < |front| {
      SelectionAt(nodes, front, i);
      assert front[..i] == requests[..i];
    } else {
      assert front == requests[..i];
    }
  }

  lemma PolicyStep(nodes: seq<Node>, requests: seq<int>, i: nat)
    requires i < |requests|
    ensures var now := After(nodes, requests[..i]);
            var at := FirstReady(now, requests[i]);
            && After(nodes, requests[..i + 1]) == Consume(now, at, requests[i])
            && Selections(nodes, requests[..i + 1]) == Selections(nodes, requests[..i]) + [at]
  {
    assert requests[..i + 1][..i] == requests[..i];
  }

  /** Serves the requests in order. */
  method RunPolicy(start: seq<Node>, requests: seq<int>) returns (nodes: seq<Node>, selected: seq<Option<nat>>)
    ensures nodes == After(start, requests)
    ensures selected == Selections(start, requests)
  {
    nodes, selected := start, [];
    var i := 0;
    while i < |requests|
      invariant 0 <= i <= |requests|
      invariant nodes == After(start, requests[..i])
      invariant selected == Selections(start, requests[..i])
    {
      PolicyStep(start, requests, i);
      var at := FirstReady(nodes, requests[i]);
      selected := selected + [at];
      nodes := Consume(nodes, at, requests[i]);
      i := i + 1;
    }
    assert requests[..i] == requests;
  }
}
