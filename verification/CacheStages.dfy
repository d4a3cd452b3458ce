/** Refinement of the cold-start stages: the bootstrap residual is split, and CUDA
    initialisation of all processes is moved into a stage of its own. */
module CacheStages {
  import opened ColdStart
  import opened FiniteSets
  import opened OutermostExact
  import opened StageAccounting
  import opened Tracer
  import opened Wrappers

  // ---------------------------------------------------------------------
  // Outermost CUDA initialisation
  // ---------------------------------------------------------------------

  lemma {:induction false} OpensBound(events: seq<Event>)
    requires Nested(events)
    ensures forall k | 0 <= k < |Opens(events)| :: Opens(events)[k] < |events|
  {
    if events != [] {
      OpensBound(events[..|events| - 1]);
    }
  }

  /** In a well-nested trace a parent is earlier than its child, and an end event
      refers back to a start event. */
  lemma {:induction false} NestedRefers(events: seq<Event>)
    requires Nested(events)
    ensures forall i | 0 <= i < |events| && events[i].Start? && events[i].parent.Some? :: events[i].parent.value < i
    ensures forall i | 0 <= i < |events| && events[i].End? :: events[i].id < i && events[events[i].id].Start?
  {
    if events != [] {
      var n := |events| - 1;
      var opens := Opens(events[..n]);
      NestedRefers(events[..n]);
      OpensBound(events[..n]);
      assert opens != [] ==> opens[|opens| - 1] < n;
      if events[n].Start? {
        assert events[n].parent == Top(opens);
      } else if events[n].End? {
        assert events[n].id < n && events[..n][events[n].id].Start?;
      }
    }
  }

  // ---------------------------------------------------------------------
  // The log of all processes
  // ---------------------------------------------------------------------

  datatype Logged = Logged(pid: nat, event: Event)

  /** The trace of one process. */
  function Of(log: seq<Logged>, pid: nat): seq<Event> {
    if log == [] then []
    else
      var x := log[|log| - 1];
      Of(log[..|log| - 1], pid) + if x.pid == pid then [x.event] else []
  }

  ghost predicate AllNested(log: seq<Logged>) {
    forall pid :: Nested(Of(log, pid))
  }

  lemma OfLast(front: seq<Logged>, x: Logged, pid: nat)
    ensures Of(front + [x], pid) == if x.pid == pid then Of(front, pid) + [x.event] else Of(front, pid)
  {
    assert (front + [x])[..|front|] == front;
    assert Of(front, pid) + [] == Of(front, pid);
  }

  lemma {:induction false} OfPrefix(log: seq<Logged>, i: nat, pid: nat)
    requires i <= |log|
    ensures Of(log[..i], pid) <= Of(log, pid)
  {
    if i < |log| {
      OfPrefix(log[..|log| - 1], i, pid);
      assert log[..|log| - 1][..i] == log[..i];
    } else {
      assert log[..i] == log;
    }
  }

  /** Where entry `i` of the log is in its own process. */
  lemma OfAt(log: seq<Logged>, i: nat)
    requires i < |log|
    ensures var own, k := Of(log, log[i].pid), |Of(log[..i], log[i].pid)|;
            k < |own| && own[k] == log[i].event && own[..k] == Of(log[..i], log[i].pid)
  {
    assert log[..i + 1] == log[..i] + [log[i]];
    OfLast(log[..i], log[i], log[i].pid);
    OfPrefix(log, i + 1, log[i].pid);
  }

  /** Entry `x` closes an outermost span of a process other than the worker. */
  predicate ClosesOther(front: seq<Logged>, x: Logged, worker: Option<nat>, name: string) {
    worker != Some(x.pid) && ClosesOuter(Of(front, x.pid), x.event, name)
  }

  function ClosedInterval(front: seq<Logged>, x: Logged, worker: Option<nat>, name: string): Interval
    requires ClosesOther(front, x, worker, name)
  {
    Interval(Of(front, x.pid)[x.event.id].time, x.event.time, x.event.duration)
  }

  /** The outermost spans of all other processes, in log order. */
  function OtherOuter(log: seq<Logged>, worker: Option<nat>, name: string): seq<Interval> {
    if log == [] then []
    else
      var front, x := log[..|log| - 1], log[|log| - 1];
      OtherOuter(front, worker, name)
        + if ClosesOther(front, x, worker, name) then [ClosedInterval(front, x, worker, name)] else []
  }

  lemma OtherLast(front: seq<Logged>, x: Logged, worker: Option<nat>, name: string)
    ensures ClosesOther(front, x, worker, name) ==>
              OtherOuter(front + [x], worker, name) == OtherOuter(front, worker, name) + [ClosedInterval(front, x, worker, name)]
    ensures !ClosesOther(front, x, worker, name) ==> OtherOuter(front + [x], worker, name) == OtherOuter(front, worker, name)
  {
    assert (front + [x])[..|front|] == front;
    assert OtherOuter(front, worker, name) + [] == OtherOuter(front, worker, name);
  }

  predicate StartAt(starts: map<(nat, nat), Event>, log: seq<Logged>, pid: nat, id: nat) {
    && ((pid, id) in starts <==> id < |Of(log, pid)| && Of(log, pid)[id].Start?)
    && ((pid, id) in starts ==> starts[(pid, id)] == Of(log, pid)[id])
  }

  /** Exactly the start events of the log, by process and span id. */
  ghost predicate StartsOf(starts: map<(nat, nat), Event>, log: seq<Logged>) {
    forall pid: nat, id: nat :: StartAt(starts, log, pid, id)
  }

  lemma StartsLast(starts: map<(nat, nat), Event>, front: seq<Logged>, x: Logged)
    requires StartsOf(starts, front) && (x.event.Start? ==> x.event.id == |Of(front, x.pid)|)
    ensures StartsOf(if x.event.Start? then starts[(x.pid, x.event.id) := x.event] else starts, front + [x])
  {
    var next := if x.event.Start? then starts[(x.pid, x.event.id) := x.event] else starts;
    forall pid: nat, id: nat ensures StartAt(next, front + [x], pid, id) {
      assert StartAt(starts, front, pid, id);
      OfLast(front, x, pid);
    }
  }

  method AllStarts(log: seq<Logged>) returns (starts: map<(nat, nat), Event>)
    requires AllNested(log)
    ensures StartsOf(starts, log)
  {
    starts := map[];
    var i := 0;
    while i < |log|
      invariant 0 <= i <= |log| && StartsOf(starts, log[..i])
    {
      OfAt(log, i);
      NestedIds(Of(log, log[i].pid));
      assert log[..i + 1] == log[..i] + [log[i]];
      StartsLast(starts, log[..i], log[i]);
      if log[i].event.Start? {
        starts := starts[(log[i].pid, log[i].event.id) := log[i].event];
      }
      i := i + 1;
    }
    assert log[..i] == log;
  }

  /** The interval that entry `i` closes, if it is an outermost span of another
      process. */
  method OtherAt(log: seq<Logged>, starts: map<(nat, nat), Event>, i: nat, worker: Option<nat>, name: string)
    returns (iv: Option<Interval>)
    requires AllNested(log) && StartsOf(starts, log) && i < |log|
    ensures iv.Some?
       <==> ClosesOther(log[..i], log[i], worker, name)
    ensures iv.Some? ==> iv.value == ClosedInterval(log[..i], log[i], worker, name)
  {
    var e, pid := log[i].event, log[i].pid;
    if !e.End? || e.name != name || worker == Some(pid) {
      return None;
    }
    ghost var own, k := Of(log, pid), |Of(log[..i], pid)|;
    OfAt(log, i);
    assert Nested(own);
    NestedRefers(own);
    assert StartAt(starts, log, pid, e.id);
    var start := starts[(pid, e.id)];
    assert own[e.id] == own[..k][e.id];
    if start.parent.Some? {
      assert StartAt(starts, log, pid, start.parent.value);
      assert own[start.parent.value] == own[..k][start.parent.value];
      if (pid, start.parent.value) in starts && starts[(pid, start.parent.value)].name == name {
        return None;
      }
    }
    return Some(Interval(start.time, e.time, e.duration));
  }

  lemma {:induction false} OtherGrows(log: seq<Logged>, i: nat, worker: Option<nat>, name: string)
    requires i <= |log|
    ensures OtherOuter(log[..i], worker, name) <= OtherOuter(log, worker, name)
  {
    if i < |log| {
      OtherGrows(log[..|log| - 1], i, worker, name);
      assert log[..|log| - 1][..i] == log[..i];
    } else {
      assert log[..i] == log;
    }
  }

  lemma OtherOutOfPlace(log: seq<Logged>, i: nat, worker: Option<nat>, name: string, lo: real, hi: real)
    requires i < |log| && ClosesOther(log[..i], log[i], worker, name)
    requires var iv := ClosedInterval(log[..i], log[i], worker, name); !(lo <= iv.start <= iv.stop <= hi)
    ensures !Within(OtherOuter(log, worker, name), lo, hi)
  {
    assert log[..i + 1] == log[..i] + [log[i]];
    OtherLast(log[..i], log[i], worker, name);
    OtherGrows(log, i + 1, worker, name);
    var k := |OtherOuter(log[..i], worker, name)|;
    assert OtherOuter(log, worker, name)[k] == OtherOuter(log[..i + 1], worker, name)[k];
  }

  predicate AddedUp(ivs: seq<Interval>, lo: real, hi: real, sum: real) {
    Within(ivs, lo, hi) && sum == Durations(ivs)
  }

  lemma OtherTaken(log: seq<Logged>, i: nat, worker: Option<nat>, name: string, lo: real, hi: real, sum: real)
    requires i < |log| && AddedUp(OtherOuter(log[..i], worker, name), lo, hi, sum)
    requires ClosesOther(log[..i], log[i], worker, name) ==> Between(ClosedInterval(log[..i], log[i], worker, name), lo, hi)
    ensures AddedUp(OtherOuter(log[..i + 1], worker, name), lo, hi,
                    sum + if ClosesOther(log[..i], log[i], worker, name) then log[i].event.duration else 0.0)
  {
    assert log[..i + 1] == log[..i] + [log[i]];
    OtherLast(log[..i], log[i], worker, name);
    if ClosesOther(log[..i], log[i], worker, name) {
      var iv := ClosedInterval(log[..i], log[i], worker, name);
      WithinLast(OtherOuter(log[..i], worker, name), iv, lo, hi);
      DurationsLast(OtherOuter(log[..i], worker, name), iv);
    }
  }

  /** Adds up the outermost spans of all processes but the worker; refuses when
      one is out of place. */
  method OtherCuda(log: seq<Logged>, worker: Option<nat>, name: string, lo: real, hi: real) returns (r: Result<real, Failure>)
    requires AllNested(log)
    ensures r.Ok?
       <==> Within(OtherOuter(log, worker, name), lo, hi)
    ensures r.Ok? ==> r.value == Durations(OtherOuter(log, worker, name))
  {
    var starts := AllStarts(log);
    var sum := 0.0;
    var i := 0;
    while i < |log|
      invariant 0 <= i <= |log|
      invariant AddedUp(OtherOuter(log[..i], worker, name), lo, hi, sum)
    {
      var iv := OtherAt(log, starts, i, worker, name);
      if iv.Some? && !(lo <= iv.value.start <= iv.value.stop <= hi) {
        OtherOutOfPlace(log, i, worker, name, lo, hi);
        return Err(SpanOutOfPlace);
      }
      OtherTaken(log, i, worker, name, lo, hi, sum);
      if iv.Some? {
        sum := sum + iv.value.duration;
      }
      i := i + 1;
    }
    assert log[..i] == log;
    return Ok(sum);
  }

  /** The log of a single process. */
  function LogOf(events: seq<Event>): (log: seq<Logged>)
    ensures |log| == |events|
  {
    seq(|events|, i requires 0 <= i < |events| => Logged(0, events[i]))
  }

  lemma {:induction false} OfOne(events: seq<Event>, pid: nat)
    ensures Of(LogOf(events), pid) == if pid == 0 then events else []
  {
    if events != [] {
      var front, last := events[..|events| - 1], events[|events| - 1];
      OfOne(front, pid);
      assert LogOf(events) == LogOf(front) + [Logged(0, last)];
      OfLast(LogOf(front), Logged(0, last), pid);
    }
  }

  lemma OneStep(log: seq<Logged>, front: seq<Event>, last: Event, name: string)
    requires Of(log, 0) == front && OtherOuter(log, None, name) == Outer(front, name)
    ensures OtherOuter(log + [Logged(0, last)], None, name)
         == Outer(front + [last], name)
  {
    var x := Logged(0, last);
    OtherLast(log, x, None, name);
    OuterAppend(front, last, name);
    if ClosesOuter(front, last, name) {
      assert ClosesOther(log, x, None, name);
      assert ClosedInterval(log, x, None, name) == Interval(front[last.id].time, last.time, last.duration);
    } else {
      assert !ClosesOther(log, x, None, name);
    }
  }

  lemma {:induction false} OneProcess(events: seq<Event>, name: string)
    ensures OtherOuter(LogOf(events), None, name)
         == Outer(events, name)
  {
    if events != [] {
      var front, last := events[..|events| - 1], events[|events| - 1];
      OneProcess(front, name);
      OfOne(front, 0);
      OneStep(LogOf(front), front, last, name);
      assert LogOf(events) == LogOf(front) + [Logged(0, last)] && events == front + [last];
    }
  }

  /** Adds up the outermost spans of one process; refuses when one is out of
      place. */
  method OutermostSum(events: seq<Event>, name: string, lo: real, hi: real) returns (r: Result<real, Failure>)
    requires Nested(events)
    ensures r.Ok? <==> Within(Outer(events, name), lo, hi)
    ensures r.Ok? ==> r.value == Durations(Outer(events, name))
  {
    OneProcess(events, name);
    forall pid: nat ensures Nested(Of(LogOf(events), pid)) {
      OfOne(events, pid);
    }
    r := OtherCuda(LogOf(events), None, name, lo, hi);
  }

  // ---------------------------------------------------------------------
  // The merged sum, process by process
  // ---------------------------------------------------------------------

  function TotalOver(log: seq<Logged>, pids: seq<nat>, name: string): real {
    if pids == [] then 0.0
    else TotalOver(log, pids[..|pids| - 1], name) + Durations(Outer(Of(log, pids[|pids| - 1]), name))
  }

  /** The processes other than the worker, each once. */
  predicate OtherPids(pids: seq<nat>, log: seq<Logged>, worker: Option<nat>) {
    && Distinct(pids)
    && (forall i | 0 <= i < |pids| :: worker != Some(pids[i]))
    && (forall i | 0 <= i < |log| :: worker == Some(log[i].pid) || log[i].pid in pids)
  }

  /** What entry `x` adds to the sum of process `pid`. */
  function Adds(front: seq<Logged>, x: Logged, pid: nat, name: string): real {
    if x.pid == pid && ClosesOuter(Of(front, pid), x.event, name) then x.event.duration else 0.0
  }

  lemma AddsStep(front: seq<Logged>, x: Logged, pid: nat, name: string)
    ensures Durations(Outer(Of(front + [x], pid), name))
         == Durations(Outer(Of(front, pid), name)) + Adds(front, x, pid, name)
  {
    OfLast(front, x, pid);
    if x.pid == pid {
      OuterAppend(Of(front, pid), x.event, name);
      if ClosesOuter(Of(front, pid), x.event, name) {
        DurationsLast(Outer(Of(front, pid), name), Interval(Of(front, pid)[x.event.id].time, x.event.time, x.event.duration));
      }
    }
  }

  lemma {:induction false} TotalStep(front: seq<Logged>, x: Logged, pids: seq<nat>, name: string)
    requires Distinct(pids)
    ensures TotalOver(front + [x], pids, name)
         == TotalOver(front, pids, name) + if x.pid in pids then Adds(front, x, x.pid, name) else 0.0
  {
    if pids != [] {
      var last := pids[|pids| - 1];
      TotalStep(front, x, pids[..|pids| - 1], name);
      AddsStep(front, x, last, name);
    }
  }

  lemma {:induction false} TotalOfNothing(pids: seq<nat>, name: string)
    ensures TotalOver([], pids, name) == 0.0
  {
    if pids != [] {
      TotalOfNothing(pids[..|pids| - 1], name);
      assert Of([], pids[|pids| - 1]) == [];
    }
  }

  /** However the processes interleave in the log, the merged sum is the sum of
      the processes' own outermost spans. */
  lemma {:induction false} MergedSum(log: seq<Logged>, pids: seq<nat>, worker: Option<nat>, name: string)
    requires OtherPids(pids, log, worker)
    ensures Durations(OtherOuter(log, worker, name))
         == TotalOver(log, pids, name)
  {
    if log == [] {
      TotalOfNothing(pids, name);
    } else {
      var front, x := log[..|log| - 1], log[|log| - 1];
      MergedSum(front, pids, worker, name);
      TotalStep(front, x, pids, name);
      assert log == front + [x];
      MergedStep(front, x, worker, name);
    }
  }

  lemma MergedStep(front: seq<Logged>, x: Logged, worker: Option<nat>, name: string)
    ensures Durations(OtherOuter(front + [x], worker, name))
         == Durations(OtherOuter(front, worker, name)) + if worker == Some(x.pid) then 0.0 else Adds(front, x, x.pid, name)
  {
    OtherLast(front, x, worker, name);
    if ClosesOther(front, x, worker, name) {
      DurationsLast(OtherOuter(front, worker, name), ClosedInterval(front, x, worker, name));
    }
  }

  predicate Between(iv: Interval, lo: real, hi: real) {
    lo <= iv.start <= iv.stop <= hi
  }

  lemma WithinLast(ivs: seq<Interval>, iv: Interval, lo: real, hi: real)
    ensures Within(ivs + [iv], lo, hi) <==> Within(ivs, lo, hi) && Between(iv, lo, hi)
  {
    var more := ivs + [iv];
    assert more[|ivs|] == iv && forall i | 0 <= i < |ivs| :: more[i] == ivs[i];
  }

  lemma OwnWithin(front: seq<Logged>, x: Logged, pid: nat, name: string, lo: real, hi: real)
    ensures Within(Outer(Of(front + [x], pid), name), lo, hi) <==>
              && Within(Outer(Of(front, pid), name), lo, hi)
              && (x.pid == pid && ClosesOther(front, x, None, name) ==> Between(ClosedInterval(front, x, None, name), lo, hi))
  {
    OfLast(front, x, pid);
    if x.pid == pid {
      OuterAppend(Of(front, pid), x.event, name);
      if ClosesOther(front, x, None, name) {
        WithinLast(Outer(Of(front, pid), name), ClosedInterval(front, x, None, name), lo, hi);
      }
    }
  }

  /** The merged spans are in place exactly when those of each process are. */
  lemma {:induction false} MergedWithin(log: seq<Logged>, worker: Option<nat>, name: string, lo: real, hi: real)
    ensures Within(OtherOuter(log, worker, name), lo, hi) <==>
              forall pid: nat | worker != Some(pid) :: Within(Outer(Of(log, pid), name), lo, hi)
  {
    if log != [] {
      var front, x := log[..|log| - 1], log[|log| - 1];
      assert log == front + [x];
      MergedWithin(front, worker, name, lo, hi);
      forall pid: nat
        ensures Within(Outer(Of(log, pid), name), lo, hi) <==>
                  && Within(Outer(Of(front, pid), name), lo, hi)
                  && (x.pid == pid && ClosesOther(front, x, None, name) ==> Between(ClosedInterval(front, x, None, name), lo, hi))
      {
        OwnWithin(front, x, pid, name, lo, hi);
      }
      OtherLast(front, x, worker, name);
      if ClosesOther(front, x, worker, name) {
        WithinLast(OtherOuter(front, worker, name), ClosedInterval(front, x, worker, name), lo, hi);
      }
    }
  }

  // ---------------------------------------------------------------------
  // Refinement
  // ---------------------------------------------------------------------

  datatype Refined = Refined(worker: seq<real>, container: real, frontend: real, control: real, warmup: real,
                             spawn: real, imports: real, after: real, cuda: real)
  {
    function Stages(): seq<real> {
      worker + [container, frontend, control, warmup, spawn] + [imports, after, cuda]
    }
  }

  /** Splits the bootstrap residual at the worker's Python entry and constructor,
      and moves CUDA initialisation into a bucket of its own. */
  function Refine(b: Breakdown, engineStart: real, entry: real, ctor: real, cuda: real, parentCuda: real): Refined {
    Refined(b.worker, b.container, b.frontend, b.control, b.warmup,
            entry - engineStart - parentCuda,
            ctor - entry - cuda,
            b.bootstrap - (ctor - engineStart),
            cuda + parentCuda)
  }

  /** Refinement conserves time, for all timestamps and CUDA sums: each new stage
      lies between its timestamps, with the CUDA time in it moved out, and no
      other stage changes. */
  lemma RefineConserves(b: Breakdown, engineStart: real, entry: real, ctor: real, cuda: real, parentCuda: real)
    ensures var r := Refine(b, engineStart, entry, ctor, cuda, parentCuda);
            && engineStart + parentCuda + r.spawn == entry && entry + cuda + r.imports == ctor
            && engineStart + b.bootstrap == ctor + r.after && r.cuda == cuda + parentCuda
            && (r.worker, r.container, r.frontend, r.control, r.warmup) == (b.worker, b.container, b.frontend, b.control, b.warmup)
    ensures Sum(Refine(b, engineStart, entry, ctor, cuda, parentCuda).Stages())
         == Sum(b.Stages())
  {
    var r := Refine(b, engineStart, entry, ctor, cuda, parentCuda);
    SumFive(b.worker, b.container, b.frontend, b.bootstrap, b.control, b.warmup);
    SumFive(r.worker, r.container, r.frontend, r.control, r.warmup, r.spawn);
    var five := r.worker + [r.container, r.frontend, r.control, r.warmup, r.spawn];
    SumLast(five, r.imports);
    SumLast(five + [r.imports], r.after);
    SumLast(five + [r.imports] + [r.after], r.cuda);
    assert five + [r.imports] + [r.after] + [r.cuda] == r.Stages();
  }

  /** The closing assertion of the refinement: no negative stage, and the sum
      within a millionth of the total. */
  predicate RefinementHolds(r: Refined, total: real) {
    NonNegative(r.Stages()) && Abs(Sum(r.Stages()) - total) < 0.000001
  }

  /** Exactly when the closing assertion holds for the breakdown of these
      timestamps: the clamp removed less than a millionth, and each of the four
      new stages fits into its window. When the constructor starts after the
      engine, this leaves no room for any clamp: the residual itself must cover
      the time before the constructor. */
  lemma RefinementExact(worker: seq<real>, s: Stamps, entry: real, ctor: real, cuda: real, parentCuda: real)
    requires HasBreakdown(worker, s)
    ensures var b := BreakdownOf(worker, s);
            RefinementHolds(Refine(b, s.engineStart, entry, ctor, cuda, parentCuda), b.total) <==>
              && Residual(worker, s) > -0.000001
              && parentCuda <= entry - s.engineStart
              && cuda <= ctor - entry
              && ctor - s.engineStart <= b.bootstrap
              && 0.0 <= cuda + parentCuda
    ensures s.engineStart < ctor ==>
              var b := BreakdownOf(worker, s);
              (RefinementHolds(Refine(b, s.engineStart, entry, ctor, cuda, parentCuda), b.total) <==>
                 && Residual(worker, s) >= ctor - s.engineStart
                 && parentCuda <= entry - s.engineStart
                 && cuda <= ctor - entry
                 && 0.0 <= cuda + parentCuda)
  {
    var b := BreakdownOf(worker, s);
    BreakdownExact(worker, s);
    var r := Refine(b, s.engineStart, entry, ctor, cuda, parentCuda);
    RefineConserves(b, s.engineStart, entry, ctor, cuda, parentCuda);
    var stages, before := r.Stages(), b.Stages();
    var n := |worker|;
    assert forall i | 0 <= i < n :: stages[i] == before[i];
    assert stages[n] == before[n] && stages[n + 1] == before[n + 1] && stages[n + 2] == before[n + 3] && stages[n + 3] == before[n + 4];
    assert stages[n + 4] == r.spawn && stages[n + 5] == r.imports && stages[n + 6] == r.after && stages[n + 7] == r.cuda;
  }

  /** A start-up whose worker spans overlap by `overlap`, and that is otherwise
      instantaneous. */
  function OverlappingStart(overlap: real): (seq<real>, Stamps) {
    ([1.0 + overlap], Stamps(0.0, 0.0, 0.0, 1.0, 1.0, 1.0))
  }

  /** However small the overlap, the breakdown accepts it and the refinement does
      not. */
  lemma ClampBreaksRefinement(overlap: real, entry: real, ctor: real, cuda: real, parentCuda: real)
    requires 0.0 < overlap <= 0.01 && 0.0 < ctor
    ensures var (worker, s) := OverlappingStart(overlap);
            var b := BreakdownOf(worker, s);
            && HasBreakdown(worker, s)
            && !RefinementHolds(Refine(b, s.engineStart, entry, ctor, cuda, parentCuda), b.total)
  {
    var (worker, s) := OverlappingStart(overlap);
    SumLast([], 1.0 + overlap);
    assert [] + [1.0 + overlap] == worker;
    RefinementExact(worker, s, entry, ctor, cuda, parentCuda);
  }

  /** When the six worker spans are disjoint inside [constructor start, engine
      end], the time after the worker is not negative. */
  lemma WorkerSpansFit(worker: seq<real>, s: Stamps, ivs: seq<Interval>, ctor: real)
    requires Sum(worker) == Durations(ivs) && Chain(ivs, s.engineEnd)
    requires s.engineStart <= ctor <= s.engineEnd && forall i | 0 <= i < |ivs| :: ctor <= ivs[i].start
    ensures Residual(worker, s) >= ctor - s.engineStart >= 0.0
  {
    ChainSum(ivs, ctor, s.engineEnd);
  }

  // ---------------------------------------------------------------------
  // Refinement of the traces of real processes
  // ---------------------------------------------------------------------

  /** A traced process with its own clock readings. */
  datatype Process = Process(clock: Clock, prog: Prog)

  /** Total duration of its outermost spans. */
  function Cuda(p: Process, name: string): real {
    Durations(OuterOf(p.clock, p.prog, name))
  }

  function TotalCuda(ps: seq<Process>, name: string): real {
    if ps == [] then 0.0 else TotalCuda(ps[..|ps| - 1], name) + Cuda(ps[|ps| - 1], name)
  }

  /** Its spans recurse only directly and lie in [lo, hi]. */
  ghost predicate InPlace(p: Process, name: string, lo: real, hi: real) {
    Monotonic(p.clock) && DirectOnly(p.prog, name) && Within(OuterOf(p.clock, p.prog, name), lo, hi)
  }

  ghost predicate AllInPlace(ps: seq<Process>, name: string, lo: real, hi: real) {
    forall i | 0 <= i < |ps| :: InPlace(ps[i], name, lo, hi)
  }

  lemma {:induction false} TotalNonNegative(ps: seq<Process>, name: string, lo: real, hi: real)
    requires lo <= hi && AllInPlace(ps, name, lo, hi)
    ensures 0.0 <= TotalCuda(ps, name)
    ensures |ps| <= 1 || lo == hi ==> TotalCuda(ps, name) <= hi - lo
  {
    if ps != [] {
      var front, p := ps[..|ps| - 1], ps[|ps| - 1];
      TotalNonNegative(front, name, lo, hi);
      OutermostFit(p.clock, p.prog, name, lo, hi);
    }
  }

  /** For a worker and any number of other processes, each with its own clock,
      whose CUDA spans recurse only directly and lie where they belong, and worker
      spans disjoint after the constructor: the refined stages sum to the total
      exactly, and they are all non-negative exactly when the other processes
      together initialised CUDA for at most the time before the worker's entry.
      With one other process they always are. */
  lemma RefinementOfTraces(own: Process, others: seq<Process>, name: string,
                           worker: seq<real>, s: Stamps, ivs: seq<Interval>, entry: real, ctor: real)
    requires s.engineStart <= entry <= ctor <= s.engineEnd
    requires InPlace(own, name, entry, ctor) && AllInPlace(others, name, s.engineStart, entry)
    requires HasBreakdown(worker, s)
    requires Sum(worker) == Durations(ivs) && Chain(ivs, s.engineEnd) && forall i | 0 <= i < |ivs| :: ctor <= ivs[i].start
    ensures var b := BreakdownOf(worker, s);
            var r := Refine(b, s.engineStart, entry, ctor, Cuda(own, name), TotalCuda(others, name));
            && Sum(r.Stages()) == b.total
            && (RefinementHolds(r, b.total) <==> TotalCuda(others, name) <= entry - s.engineStart)
            && (|others| <= 1 ==> RefinementHolds(r, b.total))
  {
    OutermostFit(own.clock, own.prog, name, entry, ctor);
    TotalNonNegative(others, name, s.engineStart, entry);
    WorkerSpansFit(worker, s, ivs, ctor);
    BreakdownExact(worker, s);
    RefineConserves(BreakdownOf(worker, s), s.engineStart, entry, ctor, Cuda(own, name), TotalCuda(others, name));
    RefinementExact(worker, s, entry, ctor, Cuda(own, name), TotalCuda(others, name));
  }

  /** The log interleaves the traces of these processes with the worker's. */
  predicate LogsAll(log: seq<Logged>, pids: seq<nat>, worker: Option<nat>, others: seq<Process>) {
    && OtherPids(pids, log, worker) && |pids| == |others|
    && forall i | 0 <= i < |pids| :: Of(log, pids[i]) == TraceOf(others[i])
  }

  function TraceOf(p: Process): seq<Event> {
    Exec(p.clock, EMPTY, p.prog).0.events
  }

  lemma {:induction false} TotalOfProcesses(log: seq<Logged>, pids: seq<nat>, others: seq<Process>, name: string)
    requires |pids| == |others| && forall i | 0 <= i < |pids| :: Of(log, pids[i]) == TraceOf(others[i])
    ensures TotalOver(log, pids, name)
         == TotalCuda(others, name)
  {
    if pids != [] {
      TotalOfProcesses(log, pids[..|pids| - 1], others[..|others| - 1], name);
    }
  }

  lemma {:induction false} OfNobody(log: seq<Logged>, pid: nat)
    requires forall i | 0 <= i < |log| :: log[i].pid != pid
    ensures Of(log, pid) == []
  {
    if log != [] {
      OfNobody(log[..|log| - 1], pid);
    }
  }

  /** What the refinement accepts: the spans of every process are in place and the
      closing assertion holds. */
  ghost predicate Accepts(b: Breakdown, workerEvents: seq<Event>, log: seq<Logged>, worker: Option<nat>, name: string,
                    engineStart: real, entry: real, ctor: real)
  {
    && Within(Outer(workerEvents, name), entry, ctor)
    && (forall pid: nat | worker != Some(pid) :: Within(Outer(Of(log, pid), name), engineStart, entry))
    && RefinementHolds(Refine(b, engineStart, entry, ctor, Durations(Outer(workerEvents, name)),
                              Durations(OtherOuter(log, worker, name))), b.total)
  }

  /** However the processes interleave in the log, the refinement accepts it
      exactly when the other processes' CUDA time fits before the worker's
      entry. */
  lemma RefinementOfLog(own: Process, others: seq<Process>, log: seq<Logged>, pids: seq<nat>, pid: Option<nat>, name: string,
                        worker: seq<real>, s: Stamps, ivs: seq<Interval>, entry: real, ctor: real)
    requires s.engineStart <= entry <= ctor <= s.engineEnd
    requires InPlace(own, name, entry, ctor) && AllInPlace(others, name, s.engineStart, entry)
    requires HasBreakdown(worker, s)
    requires Sum(worker) == Durations(ivs) && Chain(ivs, s.engineEnd) && forall i | 0 <= i < |ivs| :: ctor <= ivs[i].start
    requires LogsAll(log, pids, pid, others)
    ensures Accepts(BreakdownOf(worker, s), TraceOf(own), log, pid, name, s.engineStart, entry, ctor)
       <==> TotalCuda(others, name) <= entry - s.engineStart
  {
    MergedSum(log, pids, pid, name);
    TotalOfProcesses(log, pids, others, name);
    forall p: nat | pid != Some(p) ensures Within(Outer(Of(log, p), name), s.engineStart, entry) {
      if p in pids {
        var i :| 0 <= i < |pids| && pids[i] == p;
        assert InPlace(others[i], name, s.engineStart, entry);
      } else {
        OfNobody(log, p);
      }
    }
    RefinementOfTraces(own, others, name, worker, s, ivs, entry, ctor);
  }

  /** The processes take turns: each has a window of its own. */
  ghost predicate Staggered(ps: seq<Process>, name: string, bounds: seq<real>) {
    && |bounds| == |ps| + 1
    && forall i | 0 <= i < |ps| :: bounds[i] <= bounds[i + 1] && InPlace(ps[i], name, bounds[i], bounds[i + 1])
  }

  /** Processes that take turns fit into the whole window, however many. */
  lemma {:induction false} StaggeredFit(ps: seq<Process>, name: string, bounds: seq<real>)
    requires Staggered(ps, name, bounds)
    ensures 0.0 <= TotalCuda(ps, name) <= bounds[|ps|] - bounds[0]
  {
    if ps != [] {
      var n := |ps| - 1;
      StaggeredFit(ps[..n], name, bounds[..n + 1]);
      OutermostFit(ps[n].clock, ps[n].prog, name, bounds[n], bounds[n + 1]);
    }
  }

  /** One span that lasts from `lo` to `hi`. */
  function OneSpan(name: string, lo: real, hi: real): Process {
    Process(StepClock(1, lo, hi), Span(name, Skip))
  }

  lemma OneSpanOuter(clock: Clock, name: string)
    ensures OuterOf(clock, Span(name, Skip), name)
         == [Interval(clock(0), clock(2), clock(1) - clock(0))]
  {
    EnterOuter(clock, EMPTY, name, name);
    SpanShape(clock, EMPTY, name, Skip, name);
    assert BeforeExit(clock, EMPTY, name, Skip) == Enter(clock, EMPTY, name);
  }

  lemma OneSpanFills(name: string, lo: real, hi: real)
    requires lo <= hi
    ensures InPlace(OneSpan(name, lo, hi), name, lo, hi)
    ensures Cuda(OneSpan(name, lo, hi), name) == hi - lo
  {
    OneSpanOuter(StepClock(1, lo, hi), name);
    var iv := Interval(lo, hi, hi - lo);
    DurationsLast([], iv);
    assert [] + [iv] == [iv];
  }

  /** `n` processes that all initialise CUDA through the whole window. */
  lemma {:induction false} OverlapAddsUp(ps: seq<Process>, name: string, lo: real, hi: real)
    requires lo <= hi && forall i | 0 <= i < |ps| :: ps[i] == OneSpan(name, lo, hi)
    ensures AllInPlace(ps, name, lo, hi)
    ensures TotalCuda(ps, name) >= if |ps| == 0 then 0.0 else if |ps| == 1 then hi - lo else (hi - lo) + (hi - lo)
  {
    OneSpanFills(name, lo, hi);
    if ps != [] {
      OverlapAddsUp(ps[..|ps| - 1], name, lo, hi);
    }
  }

  /** The windows alone bound the sum of `n` processes exactly when there is at
      most one of them or no time to share. */
  lemma ProcessCountExact(n: nat, name: string, lo: real, hi: real)
    requires lo <= hi
    ensures (forall ps: seq<Process> | |ps| == n && AllInPlace(ps, name, lo, hi) :: TotalCuda(ps, name) <= hi - lo)
       <==> n <= 1 || lo == hi
  {
    if n <= 1 || lo == hi {
      forall ps: seq<Process> | |ps| == n && AllInPlace(ps, name, lo, hi) ensures TotalCuda(ps, name) <= hi - lo {
        TotalNonNegative(ps, name, lo, hi);
      }
    } else {
      var ps := seq(n, _ => OneSpan(name, lo, hi));
      OverlapAddsUp(ps, name, lo, hi);
    }
  }

  /** Moves the CUDA sums between the stages, then makes the closing assertion. */
  method MoveCuda(b: Breakdown, engineStart: real, entry: real, ctor: real, cuda: real, parentCuda: real)
    returns (r: Result<Refined, Failure>)
    ensures var refined := Refine(b, engineStart, entry, ctor, cuda, parentCuda);
            && (r.Ok? <==> RefinementHolds(refined, b.total))
            && (r.Ok? ==> r.value == refined && Sum(r.value.Stages()) == Sum(b.Stages()))
  {
    var refined := Refined(b.worker, b.container, b.frontend, b.control, b.warmup,
                           entry - engineStart, ctor - entry - cuda, b.bootstrap - (ctor - engineStart), cuda);
    if parentCuda != 0.0 {
      refined := refined.(spawn := refined.spawn - parentCuda);
    }
    refined := refined.(cuda := refined.cuda + parentCuda);
    RefineConserves(b, engineStart, entry, ctor, cuda, parentCuda);
    var negative := AnyNegative(refined.Stages());
    if negative || Abs(Sum(refined.Stages()) - b.total) >= 0.000001 {
      return Err(RefinementMismatch);
    }
    return Ok(refined);
  }

  /** The refinement as it is run on the worker's events and the log of all
      processes. It succeeds exactly when the outermost CUDA spans of every
      process are in place and the closing assertion holds, and it never changes
      the sum of the stages. */
  method RefinedCacheStages(b: Breakdown, workerEvents: seq<Event>, log: seq<Logged>, worker: Option<nat>, name: string,
                            engineStart: real, entry: real, ctor: real) returns (r: Result<Refined, Failure>)
    requires Nested(workerEvents) && AllNested(log)
    ensures r.Ok?
       <==> Accepts(b, workerEvents, log, worker, name, engineStart, entry, ctor)
    ensures r.Ok? ==>
              && r.value == Refine(b, engineStart, entry, ctor, Durations(Outer(workerEvents, name)),
                                   Durations(OtherOuter(log, worker, name)))
              && Sum(r.value.Stages()) == Sum(b.Stages())
  {
    var own := OutermostSum(workerEvents, name, entry, ctor);
    if own.Err? {
      return Err(own.failure);
    }
    MergedWithin(log, worker, name, engineStart, entry);
    var other := OtherCuda(log, worker, name, engineStart, entry);
    if other.Err? {
      return Err(other.failure);
    }
    r := MoveCuda(b, engineStart, entry, ctor, own.value, other.value);
  }
}
