/** Outermost spans of one name: which intervals a traced program records for
    them, and that they follow one another when spans recurse only directly.
    Exact real arithmetic. */
module StageAccounting {
  import opened Tracer

  // ---------------------------------------------------------------------
  // Outermost spans of one name
  // ---------------------------------------------------------------------

  datatype Interval = Interval(start: real, stop: real, duration: real)

  /** The span an end event closes is outermost for `name`: it has that name and
      its parent, if any, does not. */
  predicate ClosesOuter(front: seq<Event>, e: Event, name: string) {
    && e.End? && e.name == name && e.id < |front| && front[e.id].Start?
    && match front[e.id].parent
       case None => true
       case Some(q) => !(q < |front| && front[q].Start? && front[q].name == name)
  }

  function Outer(events: seq<Event>, name: string): seq<Interval> {
    if events == [] then []
    else
      var front, e := events[..|events| - 1], events[|events| - 1];
      Outer(front, name)
        + if ClosesOuter(front, e, name) then [Interval(front[e.id].time, e.time, e.duration)] else []
  }

  function Durations(ivs: seq<Interval>): real {
    if ivs == [] then 0.0 else Durations(ivs[..|ivs| - 1]) + ivs[|ivs| - 1].duration
  }

  /** Consecutive intervals, each ending before the next one starts, all before
      `hi`. */
  predicate Chain(ivs: seq<Interval>, hi: real) {
    || ivs == []
    || var last := ivs[|ivs| - 1];
       last.start <= last.stop <= hi && 0.0 <= last.duration <= last.stop - last.start && Chain(ivs[..|ivs| - 1], last.start)
  }

  /** All of them lie in [lo, hi]. */
  predicate Within(ivs: seq<Interval>, lo: real, hi: real) {
    forall i | 0 <= i < |ivs| :: lo <= ivs[i].start <= ivs[i].stop <= hi
  }

  lemma {:induction false} ChainSum(ivs: seq<Interval>, lo: real, hi: real)
    requires Chain(ivs, hi) && lo <= hi
    requires forall i | 0 <= i < |ivs| :: lo <= ivs[i].start
    ensures 0.0 <= Durations(ivs) <= hi - lo
  {
    if ivs != [] {
      ChainSum(ivs[..|ivs| - 1], lo, ivs[|ivs| - 1].start);
    }
  }

  lemma {:induction false} ChainLater(ivs: seq<Interval>, a: real, b: real)
    requires Chain(ivs, a) && a <= b
    ensures Chain(ivs, b)
  {
  }

  lemma {:induction false} OuterAppend(events: seq<Event>, e: Event, name: string)
    ensures Outer(events + [e], name)
         == if ClosesOuter(events, e, name) then Outer(events, name) + [Interval(events[e.id].time, e.time, e.duration)]
            else Outer(events, name)
  {
    assert (events + [e])[..|events|] == events;
  }

  /** Opens no span called `name`. Here and below the second part of a sequence
      matters only when the first one completes. */
  predicate Free(p: Prog, name: string) {
    match p
    case Span(m, body) => m != name && Free(body, name)
    case Then(a, b) => Free(a, name) && (Completes(a) ==> Free(b, name))
    case _ => true
  }

  /** Allowed inside a span called `name`: it may nest directly in itself only. */
  predicate Inside(p: Prog, name: string) {
    match p
    case Span(m, body) => if m == name then Inside(body, name) else Free(body, name)
    case Then(a, b) => Inside(a, name) && (Completes(a) ==> Inside(b, name))
    case _ => true
  }

  /** Spans called `name` recurse only directly. */
  predicate DirectOnly(p: Prog, name: string) {
    match p
    case Span(m, body) => if m == name then Inside(body, name) else DirectOnly(body, name)
    case Then(a, b) => DirectOnly(a, name) && (Completes(a) ==> DirectOnly(b, name))
    case _ => true
  }

  /** The innermost open span has this name. */
  predicate TopNamed(t: Trace, name: string) {
    && t.stack != []
    && var q := t.stack[|t.stack| - 1];
       q < |t.events| && t.events[q].Start? && t.events[q].name == name
  }

  /** The state just before a span is closed. */
  function BeforeExit(clock: Clock, t: Trace, m: string, body: Prog): (inner: Trace)
    ensures inner.stack == t.stack + [|t.events|] && t.ticks + 1 <= inner.ticks
    ensures |t.events| < |inner.events| && t.events <= inner.events
    ensures inner.events[|t.events|]
         == Start(|t.events|, Top(t.stack), m, clock(t.ticks))
  {
    var inside := Enter(clock, t, m);
    var inner := Exec(clock, inside, body).0;
    assert inner.events[|t.events|] == inside.events[|t.events|];
    assert inner.events[..|t.events|] == inside.events[..|t.events|] == t.events;
    inner
  }

  function SpanInterval(clock: Clock, t: Trace, inner: Trace): Interval {
    Interval(clock(t.ticks), clock(inner.ticks + 1), clock(inner.ticks) - clock(t.ticks))
  }

  lemma {:induction false} EnterOuter(clock: Clock, t: Trace, m: string, name: string)
    ensures Outer(Enter(clock, t, m).events, name)
         == Outer(t.events, name)
  {
    OuterAppend(t.events, Start(|t.events|, Top(t.stack), m, clock(t.ticks)), name);
  }

  lemma {:induction false} ExecSpan(clock: Clock, t: Trace, m: string, body: Prog)
    ensures var inner := BeforeExit(clock, t, m, body);
            var t' := Exec(clock, t, Span(m, body)).0;
            && t'.ticks == inner.ticks + 2
            && t'.events == inner.events + [End(|t.events|, m, clock(inner.ticks) - clock(t.ticks), clock(inner.ticks + 1))]
  {
  }

  /** Closing a span adds its interval exactly when it is outermost. */
  lemma {:induction false} SpanShape(clock: Clock, t: Trace, m: string, body: Prog, name: string)
    ensures Exec(clock, t, Span(m, body)).0.ticks
         == BeforeExit(clock, t, m, body).ticks + 2
    ensures var inner := BeforeExit(clock, t, m, body);
            m == name && !ParentNamed(inner.events, t, name) ==>
              Outer(Exec(clock, t, Span(m, body)).0.events, name) == Outer(inner.events, name) + [SpanInterval(clock, t, inner)]
    ensures var inner := BeforeExit(clock, t, m, body);
            m != name || ParentNamed(inner.events, t, name) ==>
              Outer(Exec(clock, t, Span(m, body)).0.events, name) == Outer(inner.events, name)
  {
    ExecSpan(clock, t, m, body);
    var inner := BeforeExit(clock, t, m, body);
    var duration, time := clock(inner.ticks) - clock(t.ticks), clock(inner.ticks + 1);
    CloseOuter(inner.events, t, m, name, duration, time);
    assert SpanInterval(clock, t, inner) == Interval(inner.events[|t.events|].time, time, duration);
    assert Exec(clock, t, Span(m, body)).0.events == inner.events + [End(|t.events|, m, duration, time)];
  }

  lemma {:induction false} CloseOuter(events: seq<Event>, t: Trace, m: string, name: string, duration: real, time: real)
    requires |t.events| < |events| && events[|t.events|].Start? && events[|t.events|].parent == Top(t.stack)
    ensures m == name && !ParentNamed(events, t, name) ==>
              Outer(events + [End(|t.events|, m, duration, time)], name)
                == Outer(events, name) + [Interval(events[|t.events|].time, time, duration)]
    ensures m != name || ParentNamed(events, t, name) ==>
              Outer(events + [End(|t.events|, m, duration, time)], name) == Outer(events, name)
  {
    OuterAppend(events, End(|t.events|, m, duration, time), name);
  }

  predicate ParentNamed(events: seq<Event>, t: Trace, name: string) {
    Top(t.stack).Some? && var q := Top(t.stack).value; q < |events| && events[q].Start? && events[q].name == name
  }

  lemma {:induction false} FreeKeepsOuter(clock: Clock, t: Trace, p: Prog, name: string)
    requires Free(p, name)
    ensures Outer(Exec(clock, t, p).0.events, name)
         == Outer(t.events, name)
    decreases p
  {
    match p
    case Skip =>
    case Fail =>
    case Emit(m) => OuterAppend(t.events, Other(m, clock(t.ticks)), name);
    case Span(m, body) =>
      EnterOuter(clock, t, m, name);
      SpanShape(clock, t, m, body, name);
      FreeKeepsOuter(clock, Enter(clock, t, m), body, name);
    case Then(a, b) =>
      ExecThen(clock, t, a, b);
      FreeKeepsOuter(clock, t, a, name);
      if Completes(a) {
        FreeKeepsOuter(clock, Exec(clock, t, a).0, b, name);
      }
  }

  /** Closing a span inside one of the same name adds nothing. */
  lemma {:induction false} NestedSpan(clock: Clock, t: Trace, body: Prog, name: string)
    requires TopNamed(t, name)
    ensures Outer(Exec(clock, t, Span(name, body)).0.events, name)
         == Outer(BeforeExit(clock, t, name, body).events, name)
  {
    SpanShape(clock, t, name, body, name);
    var inner := BeforeExit(clock, t, name, body);
    var q := t.stack[|t.stack| - 1];
    assert inner.events[q] == t.events[q];
    assert ParentNamed(inner.events, t, name);
  }

  lemma {:induction false} InsideKeepsOuter(clock: Clock, t: Trace, p: Prog, name: string)
    requires Inside(p, name) && TopNamed(t, name)
    ensures Outer(Exec(clock, t, p).0.events, name)
         == Outer(t.events, name)
    decreases p, 1
  {
    match p
    case Skip =>
    case Fail =>
    case Emit(m) => OuterAppend(t.events, Other(m, clock(t.ticks)), name);
    case Span(m, body) =>
      EnterOuter(clock, t, m, name);
      if m == name {
        NestedSpan(clock, t, body, name);
        InsideKeepsOuter(clock, Enter(clock, t, m), body, name);
      } else {
        SpanShape(clock, t, m, body, name);
        FreeKeepsOuter(clock, Enter(clock, t, m), body, name);
      }
    case Then(a, b) => InsideThen(clock, t, a, b, name);
  }

  lemma {:induction false} TopStays(clock: Clock, t: Trace, p: Prog, name: string)
    requires TopNamed(t, name)
    ensures TopNamed(Exec(clock, t, p).0, name)
  {
    var q, t' := t.stack[|t.stack| - 1], Exec(clock, t, p).0;
    assert t'.events[q] == t.events[q];
  }

  lemma {:induction false} ExecThen(clock: Clock, t: Trace, a: Prog, b: Prog)
    ensures var mid := Exec(clock, t, a).0;
            Exec(clock, t, Then(a, b)).0 == if Completes(a) then Exec(clock, mid, b).0 else mid
  {
    ExecCompletes(clock, t, a);
  }

  lemma {:induction false} InsideThen(clock: Clock, t: Trace, a: Prog, b: Prog, name: string)
    requires Inside(Then(a, b), name) && TopNamed(t, name)
    ensures Outer(Exec(clock, t, Then(a, b)).0.events, name)
         == Outer(t.events, name)
    decreases Then(a, b), 0
  {
    InsideKeepsOuter(clock, t, a, name);
    ExecThen(clock, t, a, b);
    if Completes(a) {
      TopStays(clock, t, a, name);
      InsideKeepsOuter(clock, Exec(clock, t, a).0, b, name);
    }
  }

  lemma {:induction false} ChainExtend(ivs: seq<Interval>, iv: Interval, hi: real)
    requires Chain(ivs, iv.start) && iv.start <= iv.stop <= hi && 0.0 <= iv.duration <= iv.stop - iv.start
    ensures Chain(ivs, hi) && Chain(ivs + [iv], hi)
  {
    ChainLater(ivs, iv.start, hi);
    assert (ivs + [iv])[..|ivs|] == ivs;
  }

  /** A body that nests the name only directly adds no outermost span. */
  lemma {:induction false} SameNameOuter(clock: Clock, t: Trace, body: Prog, name: string)
    requires Inside(body, name)
    ensures Outer(BeforeExit(clock, t, name, body).events, name)
         == Outer(t.events, name)
  {
    EnterOuter(clock, t, name, name);
    InsideKeepsOuter(clock, Enter(clock, t, name), body, name);
  }

  lemma {:induction false} OuterChainSame(clock: Clock, t: Trace, body: Prog, name: string)
    requires Monotonic(clock) && Inside(body, name) && Chain(Outer(t.events, name), clock(t.ticks))
    ensures var t' := Exec(clock, t, Span(name, body)).0; Chain(Outer(t'.events, name), clock(t'.ticks))
  {
    SpanShape(clock, t, name, body, name);
    SameNameOuter(clock, t, body, name);
    var inner := BeforeExit(clock, t, name, body);
    if ParentNamed(inner.events, t, name) {
      ChainLater(Outer(t.events, name), clock(t.ticks), clock(inner.ticks + 2));
    } else {
      ChainExtend(Outer(t.events, name), SpanInterval(clock, t, inner), clock(inner.ticks + 2));
    }
  }

  lemma {:induction false} OuterChainOther(clock: Clock, t: Trace, m: string, body: Prog, name: string)
    requires Monotonic(clock) && m != name
    requires var inner := BeforeExit(clock, t, m, body); Chain(Outer(inner.events, name), clock(inner.ticks))
    ensures var t' := Exec(clock, t, Span(m, body)).0; Chain(Outer(t'.events, name), clock(t'.ticks))
  {
    SpanShape(clock, t, m, body, name);
    var inner := BeforeExit(clock, t, m, body);
    ChainLater(Outer(inner.events, name), clock(inner.ticks), clock(inner.ticks + 2));
  }

  lemma {:induction false} OuterChainStart(clock: Clock, t: Trace, m: string, name: string, t': Trace)
    requires Monotonic(clock) && Chain(Outer(t.events, name), clock(t.ticks))
    requires t' == Enter(clock, t, m) || t' == Exec(clock, t, Emit(m)).0
    ensures Chain(Outer(t'.events, name), clock(t'.ticks))
  {
    EnterOuter(clock, t, m, name);
    OuterAppend(t.events, Other(m, clock(t.ticks)), name);
    ChainLater(Outer(t.events, name), clock(t.ticks), clock(t.ticks + 1));
  }

  /** The outermost spans of a program that recurses only directly follow one
      another without overlap. */
  lemma {:induction false} OuterChain(clock: Clock, t: Trace, p: Prog, name: string)
    requires Monotonic(clock) && DirectOnly(p, name)
    requires Chain(Outer(t.events, name), clock(t.ticks))
    ensures var t' := Exec(clock, t, p).0; Chain(Outer(t'.events, name), clock(t'.ticks))
    decreases p
  {
    match p
    case Skip =>
    case Fail =>
    case Emit(m) => OuterChainStart(clock, t, m, name, Exec(clock, t, p).0);
    case Span(m, body) =>
      if m == name {
        OuterChainSame(clock, t, body, name);
      } else {
        OuterChainStart(clock, t, m, name, Enter(clock, t, m));
        OuterChain(clock, Enter(clock, t, m), body, name);
        OuterChainOther(clock, t, m, body, name);
      }
    case Then(a, b) =>
      ExecThen(clock, t, a, b);
      OuterChain(clock, t, a, name);
      if Completes(a) {
        OuterChain(clock, Exec(clock, t, a).0, b, name);
      }
  }

  /** When spans of a name recurse only directly and the outermost ones lie in
      [lo, hi], their durations fit into it. */
  lemma {:induction false} OutermostFit(clock: Clock, p: Prog, name: string, lo: real, hi: real)
    requires Monotonic(clock) && DirectOnly(p, name) && lo <= hi
    requires Within(Outer(Exec(clock, EMPTY, p).0.events, name), lo, hi)
    ensures 0.0 <= Durations(Outer(Exec(clock, EMPTY, p).0.events, name)) <= hi - lo
  {
    var t := Exec(clock, EMPTY, p).0;
    OuterChain(clock, EMPTY, p, name);
    var ivs := Outer(t.events, name);
    if ivs != [] {
      assert ivs[|ivs| - 1].stop <= hi;
      ChainSum(ivs, lo, hi);
    }
  }
}
