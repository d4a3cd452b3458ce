/** Exactly when the durations of the outermost spans of a name fit into every
    window that contains them: when the spans a program opens recurse only directly. */
module OutermostExact {
  import opened Tracer
  import opened StageAccounting

  /** A clock that jumps once, from `lo` to `hi`, just before reading `at`. */
  function StepClock(at: int, lo: real, hi: real): Clock {
    (i: nat) => if i < at then lo else hi
  }

  /** Clock readings a program takes. */
  function Ticks(p: Prog): nat {
    match p
    case Emit(_) => 1
    case Span(_, body) => Ticks(body) + 3
    case Then(a, b) => Ticks(a) + if Completes(a) then Ticks(b) else 0
    case _ => 0
  }

  lemma {:induction false} ExecTicks(clock: Clock, t: Trace, p: Prog)
    ensures Exec(clock, t, p).0.ticks == t.ticks + Ticks(p)
    decreases p
  {
    match p
    case Span(m, body) => ExecTicks(clock, Enter(clock, t, m), body);
    case Then(a, b) =>
      ExecThen(clock, t, a, b);
      ExecTicks(clock, t, a);
      ExecTicks(clock, Exec(clock, t, a).0, b);
    case _ =>
  }

  /** How many outermost spans called `name` measure a jump just before the
      program's reading `k`; `top` tells whether the enclosing span has the
      name. */
  function Spanning(p: Prog, name: string, top: bool, k: int): (r: real)
    ensures r >= 0.0
  {
    match p
    case Span(m, body) =>
      Spanning(body, name, m == name, k - 1) + if m == name && !top && 1 <= k <= 1 + Ticks(body) then 1.0 else 0.0
    case Then(a, b) => Spanning(a, name, top, k) + if Completes(a) then Spanning(b, name, top, k - Ticks(a)) else 0.0
    case _ => 0.0
  }

  lemma {:induction false} SpanningBound(p: Prog, name: string, top: bool, k: int)
    requires Spanning(p, name, top, k) > 0.0
    ensures 1 <= k <= Ticks(p)
  {
    match p
    case Span(m, body) =>
      if Spanning(body, name, m == name, k - 1) > 0.0 {
        SpanningBound(body, name, m == name, k - 1);
      }
    case Then(a, b) =>
      if Spanning(a, name, top, k) > 0.0 {
        SpanningBound(a, name, top, k);
      } else {
        SpanningBound(b, name, top, k - Ticks(a));
      }
    case _ =>
  }

  // ---------------------------------------------------------------------
  // What a step clock makes the tracer record
  // ---------------------------------------------------------------------

  /** Every open span is on record. */
  predicate StackOk(t: Trace) {
    forall i | 0 <= i < |t.stack| :: t.stack[i] < |t.events|
  }

  lemma TopSame(clock: Clock, t: Trace, p: Prog, name: string)
    requires StackOk(t)
    ensures var t' := Exec(clock, t, p).0; StackOk(t') && (TopNamed(t', name) <==> TopNamed(t, name))
  {
    var t' := Exec(clock, t, p).0;
    if t.stack != [] {
      var q := t.stack[|t.stack| - 1];
      assert t'.events[q] == t.events[q];
    }
  }

  lemma EnterTop(clock: Clock, t: Trace, m: string, name: string)
    requires StackOk(t)
    ensures var t' := Enter(clock, t, m); StackOk(t') && (TopNamed(t', name) <==> m == name)
  {
  }

  lemma ParentIsTop(t: Trace, events: seq<Event>, name: string)
    requires StackOk(t) && t.events <= events
    ensures ParentNamed(events, t, name) <==> TopNamed(t, name)
  {
    if t.stack != [] {
      var q := t.stack[|t.stack| - 1];
      assert events[q] == t.events[q];
    }
  }

  lemma DurationsLast(ivs: seq<Interval>, iv: Interval)
    ensures Durations(ivs + [iv])
         == Durations(ivs) + iv.duration
  {
    assert (ivs + [iv])[..|ivs|] == ivs;
  }

  function Reading(clock: Clock, i: nat): real {
    clock(i)
  }

  /** Reads 0 before reading `at` and 1 from then on. */
  ghost predicate Jumps(clock: Clock, at: int) {
    forall i: nat :: Reading(clock, i) == if i < at then 0.0 else 1.0
  }

  /** One more closed span. */
  lemma {:induction false} SpanAdds(clock: Clock, at: int, t: Trace, m: string, body: Prog, name: string)
    requires Jumps(clock, at) && StackOk(t)
    ensures var k := at - t.ticks;
            Durations(Outer(Exec(clock, t, Span(m, body)).0.events, name))
              == Durations(Outer(BeforeExit(clock, t, m, body).events, name))
                 + if m == name && !TopNamed(t, name) && 1 <= k <= 1 + Ticks(body) then 1.0 else 0.0
  {
    var inner := BeforeExit(clock, t, m, body);
    SpanShape(clock, t, m, body, name);
    ParentIsTop(t, inner.events, name);
    ExecTicks(clock, Enter(clock, t, m), body);
    DurationsLast(Outer(inner.events, name), SpanInterval(clock, t, inner));
    assert SpanInterval(clock, t, inner).duration == Reading(clock, inner.ticks) - Reading(clock, t.ticks);
  }

  /** The sum grows from `t` to `t'` by `amount`. */
  predicate Grew(t: Trace, t': Trace, name: string, amount: real) {
    Durations(Outer(t'.events, name)) == Durations(Outer(t.events, name)) + amount
  }

  lemma {:induction false} SpanMeasures(clock: Clock, at: int, t: Trace, m: string, body: Prog, name: string, top: bool, k: int)
    requires Jumps(clock, at) && StackOk(t) && top == TopNamed(t, name) && k == at - t.ticks
    requires Grew(Enter(clock, t, m), BeforeExit(clock, t, m, body), name, Spanning(body, name, m == name, k - 1))
    ensures Grew(t, Exec(clock, t, Span(m, body)).0, name, Spanning(Span(m, body), name, top, k))
  {
    EnterOuter(clock, t, m, name);
    SpanAdds(clock, at, t, m, body, name);
  }

  /** Two parts in sequence, the second one only if the first completes. */
  lemma {:induction false} ThenMeasures(t: Trace, mid: Trace, end: Trace, a: Prog, b: Prog, name: string, top: bool, k: int)
    requires Grew(t, mid, name, Spanning(a, name, top, k))
    requires if Completes(a) then Grew(mid, end, name, Spanning(b, name, top, k - Ticks(a))) else end == mid
    ensures Grew(t, end, name, Spanning(Then(a, b), name, top, k))
  {
  }

  lemma {:induction false} EmitMeasures(clock: Clock, t: Trace, m: string, name: string)
    ensures Grew(t, Exec(clock, t, Emit(m)).0, name, 0.0)
  {
    OuterAppend(t.events, Other(m, clock(t.ticks)), name);
  }

  lemma {:induction false} StepSecond(clock: Clock, at: int, t: Trace, mid: Trace, a: Prog, b: Prog, name: string, top: bool, k: int)
    requires Jumps(clock, at) && StackOk(mid) && top == TopNamed(mid, name)
    requires Completes(a) && mid.ticks == t.ticks + Ticks(a) && k == at - t.ticks
    requires Grew(t, mid, name, Spanning(a, name, top, k))
    ensures Grew(t, Exec(clock, mid, b).0, name, Spanning(Then(a, b), name, top, k))
    decreases b, 2
  {
    StepMeasures(clock, at, mid, b, name, top, k - Ticks(a));
    ThenMeasures(t, mid, Exec(clock, mid, b).0, a, b, name, top, k);
  }

  lemma {:induction false} StepThen(clock: Clock, at: int, t: Trace, a: Prog, b: Prog, name: string, top: bool, k: int)
    requires Jumps(clock, at) && StackOk(t) && top == TopNamed(t, name) && k == at - t.ticks
    ensures Grew(t, Exec(clock, t, Then(a, b)).0, name, Spanning(Then(a, b), name, top, k))
    decreases Then(a, b), 0
  {
    var mid := Exec(clock, t, a).0;
    ExecThen(clock, t, a, b);
    StepMeasures(clock, at, t, a, name, top, k);
    if Completes(a) {
      TopSame(clock, t, a, name);
      ExecTicks(clock, t, a);
      StepSecond(clock, at, t, mid, a, b, name, top, k);
    } else {
      ThenMeasures(t, mid, mid, a, b, name, top, k);
    }
  }

  lemma {:induction false} StepMeasures(clock: Clock, at: int, t: Trace, p: Prog, name: string, top: bool, k: int)
    requires Jumps(clock, at) && StackOk(t) && top == TopNamed(t, name) && k == at - t.ticks
    ensures Grew(t, Exec(clock, t, p).0, name, Spanning(p, name, top, k))
    decreases p, 1
  {
    match p
    case Skip =>
    case Fail =>
    case Emit(m) => EmitMeasures(clock, t, m, name);
    case Span(m, body) =>
      EnterTop(clock, t, m, name);
      StepMeasures(clock, at, Enter(clock, t, m), body, name, m == name, k - 1);
      SpanMeasures(clock, at, t, m, body, name, top, k);
    case Then(a, b) => StepThen(clock, at, t, a, b, name, top, k);
  }

  ghost predicate Reads(clock: Clock, lo: real, hi: real) {
    Monotonic(clock) && forall i: nat :: lo <= clock(i) <= hi
  }

  lemma {:induction false} SpanWithin(clock: Clock, lo: real, hi: real, t: Trace, m: string, body: Prog, name: string)
    requires Reads(clock, lo, hi) && Within(Outer(BeforeExit(clock, t, m, body).events, name), lo, hi)
    ensures Within(Outer(Exec(clock, t, Span(m, body)).0.events, name), lo, hi)
  {
    var inner := BeforeExit(clock, t, m, body);
    SpanShape(clock, t, m, body, name);
    var ivs, iv := Outer(inner.events, name), SpanInterval(clock, t, inner);
    assert lo <= iv.start <= iv.stop <= hi;
    assert Within(ivs + [iv], lo, hi);
  }

  lemma EnterWithin(clock: Clock, lo: real, hi: real, t: Trace, m: string, name: string)
    requires Within(Outer(t.events, name), lo, hi)
    ensures Within(Outer(Enter(clock, t, m).events, name), lo, hi)
    ensures Within(Outer(Exec(clock, t, Emit(m)).0.events, name), lo, hi)
  {
    EnterOuter(clock, t, m, name);
    OuterAppend(t.events, Other(m, clock(t.ticks)), name);
  }

  /** All recorded intervals lie between the extreme readings of the clock. */
  lemma {:induction false} ReadsWithin(clock: Clock, lo: real, hi: real, t: Trace, p: Prog, name: string)
    requires Reads(clock, lo, hi) && Within(Outer(t.events, name), lo, hi)
    ensures Within(Outer(Exec(clock, t, p).0.events, name), lo, hi)
    decreases p
  {
    match p
    case Skip =>
    case Fail =>
    case Emit(m) => EnterWithin(clock, lo, hi, t, m, name);
    case Span(m, body) =>
      EnterWithin(clock, lo, hi, t, m, name);
      ReadsWithin(clock, lo, hi, Enter(clock, t, m), body, name);
      SpanWithin(clock, lo, hi, t, m, body, name);
    case Then(a, b) =>
      ExecThen(clock, t, a, b);
      ReadsWithin(clock, lo, hi, t, a, name);
      if Completes(a) {
        ReadsWithin(clock, lo, hi, Exec(clock, t, a).0, b, name);
      }
  }

  // ---------------------------------------------------------------------
  // Where to put the jump
  // ---------------------------------------------------------------------

  /** A program that opens a span of the name, under another one. */
  lemma {:induction false} JumpInSpan(p: Prog, name: string) returns (k: int)
    requires !Free(p, name)
    ensures Spanning(p, name, false, k) >= 1.0
  {
    match p
    case Span(m, body) =>
      if m == name {
        k := 1;
      } else {
        k := JumpInSpan(body, name);
        k := k + 1;
      }
    case Then(a, b) =>
      if !Free(a, name) {
        k := JumpInSpan(a, name);
      } else {
        k := JumpInSpan(b, name);
        k := k + Ticks(a);
      }
  }

  /** A program under a span of the name that opens another one indirectly. */
  lemma {:induction false} JumpInside(p: Prog, name: string) returns (k: int)
    requires !Inside(p, name)
    ensures Spanning(p, name, true, k) >= 1.0
  {
    match p
    case Span(m, body) =>
      if m == name {
        k := JumpInside(body, name);
      } else {
        k := JumpInSpan(body, name);
      }
      k := k + 1;
    case Then(a, b) =>
      if !Inside(a, name) {
        k := JumpInside(a, name);
      } else {
        k := JumpInside(b, name);
        k := k + Ticks(a);
      }
  }

  /** The jump that two outermost spans of an indirectly recursing program both
      measure: right after the inner one started. */
  lemma {:induction false} JumpTwice(p: Prog, name: string) returns (k: int)
    requires !DirectOnly(p, name)
    ensures Spanning(p, name, false, k) >= 2.0
  {
    match p
    case Span(m, body) =>
      if m == name {
        k := JumpInside(body, name);
        SpanningBound(body, name, true, k);
      } else {
        k := JumpTwice(body, name);
      }
      k := k + 1;
    case Then(a, b) =>
      if !DirectOnly(a, name) {
        k := JumpTwice(a, name);
      } else {
        k := JumpTwice(b, name);
        k := k + Ticks(a);
      }
  }

  // ---------------------------------------------------------------------
  // The exact condition
  // ---------------------------------------------------------------------

  function OuterOf(clock: Clock, p: Prog, name: string): seq<Interval> {
    Outer(Exec(clock, EMPTY, p).0.events, name)
  }

  /** Every program that opens a span of the name indirectly inside another one
      has a run whose outermost spans lie in [0, 1] and sum to at least 2. */
  lemma IndirectRecursionOvercounts(p: Prog, name: string) returns (at: int)
    requires !DirectOnly(p, name)
    ensures Monotonic(StepClock(at, 0.0, 1.0))
    ensures Within(OuterOf(StepClock(at, 0.0, 1.0), p, name), 0.0, 1.0)
    ensures Durations(OuterOf(StepClock(at, 0.0, 1.0), p, name)) >= 2.0
  {
    at := JumpTwice(p, name);
    StepMeasures(StepClock(at, 0.0, 1.0), at, EMPTY, p, name, false, at);
    ReadsWithin(StepClock(at, 0.0, 1.0), 0.0, 1.0, EMPTY, p, name);
  }

  /** The sum of the outermost spans fits if they lie in [lo, hi]. */
  ghost predicate Fits(clock: Clock, p: Prog, name: string, lo: real, hi: real) {
    Monotonic(clock) && lo <= hi && Within(OuterOf(clock, p, name), lo, hi) ==>
      Durations(OuterOf(clock, p, name)) <= hi - lo
  }

  /** The sum of the outermost spans fits into every window that contains them,
      on every clock that never runs backwards, exactly when the spans that the
      program opens recurse only directly. */
  lemma OutermostSumExact(p: Prog, name: string)
    ensures (forall clock: Clock, lo: real, hi: real :: Fits(clock, p, name, lo, hi))
       <==> DirectOnly(p, name)
  {
    if DirectOnly(p, name) {
      forall clock: Clock, lo: real, hi: real ensures Fits(clock, p, name, lo, hi) {
        if Monotonic(clock) && lo <= hi && Within(OuterOf(clock, p, name), lo, hi) {
          OutermostFit(clock, p, name, lo, hi);
        }
      }
    } else {
      var at := IndirectRecursionOvercounts(p, name);
      assert !Fits(StepClock(at, 0.0, 1.0), p, name, 0.0, 1.0);
    }
  }

  /** CUDA initialisation that reaches itself through another span. */
  const INDIRECT := Span("cuda", Span("other", Span("cuda", Skip)))

  /** It overcounts, but not when a failure keeps it from being opened. */
  lemma CudaThroughOther()
    ensures !DirectOnly(INDIRECT, "cuda")
    ensures DirectOnly(Then(Fail, INDIRECT), "cuda")
    ensures exists clock: Clock, lo: real, hi: real :: !Fits(clock, INDIRECT, "cuda", lo, hi)
  {
    OutermostSumExact(INDIRECT, "cuda");
  }
}
