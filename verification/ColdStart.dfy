/** Cold-start breakdown: worker spans and timestamps partition a total time, in
    exact real arithmetic. */
module ColdStart {
  import opened Tracer
  import opened Wrappers

  function Sum(xs: seq<real>): real {
    if xs == [] then 0.0 else Sum(xs[..|xs| - 1]) + xs[|xs| - 1]
  }

  lemma {:induction false} SumConcat(a: seq<real>, b: seq<real>)
    ensures Sum(a + b) == Sum(a) + Sum(b)
  {
    if b == [] {
      assert a + b == a;
    } else {
      SumConcat(a, b[..|b| - 1]);
      assert (a + b)[..|a + b| - 1] == a + b[..|b| - 1];
    }
  }

  lemma SumLast(a: seq<real>, x: real)
    ensures Sum(a + [x]) == Sum(a) + x
  {
    assert (a + [x])[..|a|] == a;
  }

  // ---------------------------------------------------------------------
  // Durations per span name
  // ---------------------------------------------------------------------

  function DurationOf(events: seq<Event>, name: string): real {
    if events == [] then 0.0
    else
      var e := events[|events| - 1];
      DurationOf(events[..|events| - 1], name) + if e.End? && e.name == name then e.duration else 0.0
  }

  /** Durations add up over concatenation, and one event counts exactly when it
      ends a span of the name. */
  lemma {:induction false} DurationsAdd(a: seq<Event>, b: seq<Event>, name: string)
    ensures DurationOf(a + b, name)
         == DurationOf(a, name) + DurationOf(b, name)
    ensures forall e :: DurationOf([e], name) == if e.End? && e.name == name then e.duration else 0.0
  {
    forall e ensures DurationOf([e], name) == if e.End? && e.name == name then e.duration else 0.0 {
      assert [e][..0] == [];
    }
    if b == [] {
      assert a + b == a;
    } else {
      DurationsAdd(a, b[..|b| - 1], name);
      assert (a + b)[..|a + b| - 1] == a + b[..|b| - 1];
    }
  }

  method SpanDurations(events: seq<Event>) returns (result: map<string, real>)
    ensures forall name :: name in result <==> exists i | 0 <= i < |events| :: events[i].End? && events[i].name == name
    ensures forall name | name in result :: result[name] == DurationOf(events, name)
  {
    result := map[];
    var i := 0;
    while i < |events|
      invariant 0 <= i <= |events|
      invariant forall name :: name in result <==> exists j | 0 <= j < i :: events[j].End? && events[j].name == name
      invariant forall name :: DurationOf(events[..i], name) == if name in result then result[name] else 0.0
    {
      assert events[..i + 1][..i] == events[..i];
      var e := events[i];
      if e.End? {
        result := result[e.name := (if e.name in result then result[e.name] else 0.0) + e.duration];
      }
      i := i + 1;
    }
    assert events[..i] == events;
  }

  // ---------------------------------------------------------------------
  // Breakdown
  // ---------------------------------------------------------------------

  datatype Stamps = Stamps(
    hostStarted: real, frontendEntry: real, engineStart: real, engineEnd: real, warmStart: real, warmEnd: real)

  datatype Failure = OverlappingSpans | NegativeStage | TotalMismatch | SpanOutOfPlace | RefinementMismatch

  /** Engine time not covered by the major worker spans. */
  function Residual(worker: seq<real>, s: Stamps): real {
    s.engineEnd - s.engineStart - Sum(worker)
  }

  /** Stages: the worker spans, then container start, frontend, bootstrap,
      control connection and warm-up. */
  datatype Breakdown = Breakdown(worker: seq<real>, container: real, frontend: real, bootstrap: real,
                                 control: real, warmup: real, total: real)
  {
    function Stages(): seq<real> {
      worker + [container, frontend, bootstrap, control, warmup]
    }
  }

  predicate NonNegative(xs: seq<real>) {
    forall i | 0 <= i < |xs| :: xs[i] >= 0.0
  }

  function Abs(x: real): real {
    if x < 0.0 then -x else x
  }

  lemma SumFive(a: seq<real>, b: real, c: real, d: real, e: real, f: real)
    ensures Sum(a + [b, c, d, e, f])
         == Sum(a) + b + c + d + e + f
  {
    SumLast(a, b);
    SumLast(a + [b], c);
    SumLast(a + [b] + [c], d);
    SumLast(a + [b] + [c] + [d], e);
    SumLast(a + [b] + [c] + [d] + [e], f);
    assert a + [b] + [c] + [d] + [e] + [f] == a + [b, c, d, e, f];
  }

  method AnyNegative(xs: seq<real>) returns (r: bool)
    ensures r <==> !NonNegative(xs)
  {
    var i := 0;
    while i < |xs|
      invariant 0 <= i <= |xs| && NonNegative(xs[..i])
    {
      if xs[i] < 0.0 {
        return true;
      }
      i := i + 1;
    }
    assert xs[..i] == xs;
    return false;
  }

  /** The stages computed from the worker spans and the timestamps. */
  function BreakdownOf(worker: seq<real>, s: Stamps): Breakdown {
    Breakdown(worker, s.frontendEntry - s.hostStarted, s.engineStart - s.frontendEntry,
              if Residual(worker, s) < 0.0 then 0.0 else Residual(worker, s),
              s.warmStart - s.engineEnd, s.warmEnd - s.warmStart, s.warmEnd - s.hostStarted)
  }

  /** Spans and timestamps that have a breakdown: the worker spans overlap by at
      most 0.01 and nothing runs backwards. */
  predicate HasBreakdown(worker: seq<real>, s: Stamps) {
    && Residual(worker, s) >= -0.01 && NonNegative(worker)
    && s.hostStarted <= s.frontendEntry <= s.engineStart && s.engineEnd <= s.warmStart <= s.warmEnd
  }

  /** Each stage lies between its two timestamps; the stages sum to the total plus
      what the clamp removed, and are non-negative exactly when nothing runs
      backwards. */
  lemma BreakdownExact(worker: seq<real>, s: Stamps)
    ensures var b := BreakdownOf(worker, s);
            && s.hostStarted + b.container == s.frontendEntry && s.frontendEntry + b.frontend == s.engineStart
            && s.engineEnd + b.control == s.warmStart && s.warmStart + b.warmup == s.warmEnd
            && s.hostStarted + b.total == s.warmEnd && b.worker == worker
            && (Residual(worker, s) >= 0.0 ==> s.engineStart + Sum(worker) + b.bootstrap == s.engineEnd)
            && (Residual(worker, s) < 0.0 ==> b.bootstrap == 0.0)
    ensures var b := BreakdownOf(worker, s);
            && Sum(b.Stages()) == b.total + (if Residual(worker, s) < 0.0 then -Residual(worker, s) else 0.0)
            && (Residual(worker, s) >= -0.01 ==> (NonNegative(b.Stages()) <==> HasBreakdown(worker, s)))
  {
    var b := BreakdownOf(worker, s);
    SumFive(worker, b.container, b.frontend, b.bootstrap, b.control, b.warmup);
    var stages, n := b.Stages(), |worker|;
    assert forall i | 0 <= i < n :: stages[i] == worker[i];
    assert stages[n] == b.container && stages[n + 1] == b.frontend && stages[n + 2] == b.bootstrap;
    assert stages[n + 3] == b.control && stages[n + 4] == b.warmup;
  }

  /** For all timestamps: a breakdown is returned exactly when the residual check
      passes and nothing runs backwards. Its stages sum to the total exactly, or
      exceed it by what the clamp removed, at most 0.01; the 0.02 mismatch error
      is unreachable. */
  method ColdBreakdown(worker: seq<real>, s: Stamps) returns (r: Result<Breakdown, Failure>)
    ensures r == Err(OverlappingSpans) <==> Residual(worker, s) < -0.01
    ensures r != Err(TotalMismatch)
    ensures r.Ok? <==> HasBreakdown(worker, s)
    ensures r.Ok? ==>
              && r.value == BreakdownOf(worker, s)
              && NonNegative(r.value.Stages())
              && Sum(r.value.Stages()) - r.value.total == (if Residual(worker, s) < 0.0 then -Residual(worker, s) else 0.0)
              && r.value.total <= Sum(r.value.Stages()) <= r.value.total + 0.01
  {
    BreakdownExact(worker, s);
    var residual := s.engineEnd - s.engineStart - Sum(worker);
    if residual < -0.01 {
      return Err(OverlappingSpans);
    }
    var b := Breakdown(worker, s.frontendEntry - s.hostStarted, s.engineStart - s.frontendEntry,
                       if residual < 0.0 then 0.0 else residual,
                       s.warmStart - s.engineEnd, s.warmEnd - s.warmStart, s.warmEnd - s.hostStarted);
    var negative := AnyNegative(b.Stages());
    if negative {
      return Err(NegativeStage);
    }
    if Abs(Sum(b.Stages()) - b.total) > 0.02 {
      return Err(TotalMismatch);
    }
    return Ok(b);
  }
}
