/** The process-local span tracer: one event list, one stack of open spans, span
    ids that are event indices. */
module Tracer {
  import opened Wrappers

  datatype Event =
    | Start(id: nat, parent: Option<nat>, name: string, time: real)
    | End(id: nat, name: string, duration: real, time: real)
    | Other(name: string, time: real)

  /** Readings of the monotonic clock; `ticks` counts how many were taken. */
  type Clock = nat -> real

  ghost predicate Monotonic(clock: Clock) {
    forall i, j | 0 <= i <= j :: clock(i) <= clock(j)
  }

  datatype Trace = Trace(events: seq<Event>, stack: seq<nat>, ticks: nat)

  const EMPTY := Trace([], [], 0)

  /** A program that uses the tracer: it emits, opens nested spans, and may fail
      at any point. */
  datatype Prog =
    | Skip
    | Fail
    | Emit(name: string)
    | Span(name: string, body: Prog)
    | Then(first: Prog, second: Prog)

  function Top(stack: seq<nat>): Option<nat> {
    if stack == [] then None else Some(stack[|stack| - 1])
  }

  function Enter(clock: Clock, t: Trace, name: string): Trace {
    var id := |t.events|;
    Trace(t.events + [Start(id, Top(t.stack), name, clock(t.ticks))], t.stack + [id], t.ticks + 1)
  }

  /** Closes span `id`: pops, reads the clock for the duration, then emits. */
  function Exit(clock: Clock, t: Trace, id: nat, name: string): Trace
    requires t.stack != [] && id < |t.events|
  {
    Trace(t.events + [End(id, name, clock(t.ticks) - t.events[id].time, clock(t.ticks + 1))],
          t.stack[..|t.stack| - 1], t.ticks + 2)
  }

  /** Runs a program; the flag tells whether it completed. Leaving a span closes
      it whether or not its body failed. */
  function Exec(clock: Clock, t: Trace, p: Prog): (r: (Trace, bool))
    ensures r.0.stack == t.stack
    ensures t.events <= r.0.events
    ensures t.ticks <= r.0.ticks
    decreases p
  {
    match p
    case Skip => (t, true)
    case Fail => (t, false)
    case Emit(name) => (Trace(t.events + [Other(name, clock(t.ticks))], t.stack, t.ticks + 1), true)
    case Span(name, body) =>
      var (inner, ok) := Exec(clock, Enter(clock, t, name), body);
      (Exit(clock, inner, |t.events|, name), ok)
    case Then(first, second) =>
      var (mid, ok) := Exec(clock, t, first);
      if ok then Exec(clock, mid, second) else (mid, false)
  }

  // ---------------------------------------------------------------------
  // The tracer as a mutable object
  // ---------------------------------------------------------------------

  class SpanTracer {
    var events: seq<Event>
    var stack: seq<nat>
    var ticks: nat
    const clock: Clock

    constructor (clock: Clock)
      ensures View() == EMPTY && this.clock == clock
    {
      this.clock := clock;
      events, stack, ticks := [], [], 0;
    }

    function View(): Trace
      reads this
    {
      Trace(events, stack, ticks)
    }

    method Now() returns (t: real)
      modifies this`ticks
      ensures t == clock(old(ticks)) && ticks == old(ticks) + 1
    {
      t := clock(ticks);
      ticks := ticks + 1;
    }

    method OpenSpan(name: string) returns (id: nat)
      modifies this
      ensures id == |old(events)| && View() == Enter(clock, old(View()), name)
    {
      id := |events|;
      var parent := if stack == [] then None else Some(stack[|stack| - 1]);
      var t := Now();
      events := events + [Start(id, parent, name, t)];
      stack := stack + [id];
    }

    method CloseSpan(id: nat, name: string)
      requires stack != [] && id < |events|
      modifies this
      ensures View() == Exit(clock, old(View()), id, name)
    {
      stack := stack[..|stack| - 1];
      var stop := Now();
      var t := Now();
      events := events + [End(id, name, stop - events[id].time, t)];
    }

    /** Runs a program; the stack is restored even when it fails. */
    method Execute(p: Prog) returns (ok: bool)
      modifies this
      ensures (View(), ok) == Exec(clock, old(View()), p)
      ensures stack == old(stack)
      decreases p
    {
      match p
      case Skip => ok := true;
      case Fail => ok := false;
      case Emit(name) =>
        var t := Now();
        events := events + [Other(name, t)];
        ok := true;
      case Span(name, body) =>
        var id := OpenSpan(name);
        ok := Execute(body);
        CloseSpan(id, name);
      case Then(first, second) =>
        ok := Execute(first);
        if ok {
          ok := Execute(second);
        }
    }
  }

  // ---------------------------------------------------------------------
  // Reading a trace back
  // ---------------------------------------------------------------------

  /** The open spans after `events`, reconstructed from the events alone. */
  function Opens(events: seq<Event>): seq<nat> {
    if events == [] then []
    else
      var before := Opens(events[..|events| - 1]);
      match events[|events| - 1]
      case Start(id, _, _, _) => before + [id]
      case End(_, _, _, _) => if before == [] then [] else before[..|before| - 1]
      case Other(_, _) => before
  }

  /** Every start event carries its own index as id and the innermost open span
      as parent; every end event closes the innermost open span, under the name
      it was opened with. */
  predicate Nested(events: seq<Event>) {
    events != [] ==>
      var front := events[..|events| - 1];
      && Nested(front)
      && match events[|events| - 1]
         case Start(id, parent, _, _) => id == |front| && parent == Top(Opens(front))
         case End(id, name, _, _) =>
           && Top(Opens(front)) == Some(id)
           && id < |front| && front[id].Start? && front[id].name == name
         case Other(_, _) => true
  }

  lemma NestedAppend(events: seq<Event>, e: Event)
    ensures var front := events + [e];
            front[..|front| - 1] == events && front[|front| - 1] == e
  {
  }

  lemma EnterNested(clock: Clock, t: Trace, name: string)
    requires Nested(t.events) && t.stack == Opens(t.events)
    ensures var inside := Enter(clock, t, name); Nested(inside.events) && Opens(inside.events) == inside.stack
  {
    NestedAppend(t.events, Start(|t.events|, Top(t.stack), name, clock(t.ticks)));
  }

  lemma ExitNested(clock: Clock, t: Trace, inner: Trace, name: string)
    requires Nested(inner.events) && Opens(inner.events) == inner.stack == t.stack + [|t.events|]
    requires Enter(clock, t, name).events <= inner.events
    ensures var t' := Exit(clock, inner, |t.events|, name); Nested(t'.events) && Opens(t'.events) == t.stack
  {
    var id := |t.events|;
    assert inner.events[id] == Enter(clock, t, name).events[id];
    var t' := Exit(clock, inner, id, name);
    NestedAppend(inner.events, t'.events[|inner.events|]);
    assert inner.stack[..|inner.stack| - 1] == t.stack;
  }

  lemma {:induction false} ExecNested(clock: Clock, t: Trace, p: Prog)
    requires Nested(t.events) && t.stack == Opens(t.events)
    ensures var t' := Exec(clock, t, p).0; Nested(t'.events) && Opens(t'.events) == t.stack
    decreases p
  {
    match p
    case Skip =>
    case Fail =>
    case Emit(name) => NestedAppend(t.events, Other(name, clock(t.ticks)));
    case Span(name, body) =>
      EnterNested(clock, t, name);
      ExecNested(clock, Enter(clock, t, name), body);
      ExitNested(clock, t, Exec(clock, Enter(clock, t, name), body).0, name);
    case Then(first, second) =>
      ExecNested(clock, t, first);
      var (mid, ok) := Exec(clock, t, first);
      if ok {
        ExecNested(clock, mid, second);
      }
  }

  /** For every nesting program, failing or not: the trace is well nested, all
      spans are closed, and span ids are exactly the indices of their start
      events, hence unique. */
  lemma {:induction false} TraceWellNested(clock: Clock, p: Prog)
    ensures var t := Exec(clock, EMPTY, p).0;
            && Nested(t.events) && Opens(t.events) == [] && t.stack == []
            && forall i | 0 <= i < |t.events| && t.events[i].Start? :: t.events[i].id == i
  {
    ExecNested(clock, EMPTY, p);
    NestedIds(Exec(clock, EMPTY, p).0.events);
  }

  lemma {:induction false} NestedIds(events: seq<Event>)
    requires Nested(events)
    ensures forall i | 0 <= i < |events| && events[i].Start? :: events[i].id == i
  {
    if events != [] {
      NestedIds(events[..|events| - 1]);
    }
  }

  // ---------------------------------------------------------------------
  // What a program records, and when
  // ---------------------------------------------------------------------

  /** Whether the program runs to its end. */
  predicate Completes(p: Prog) {
    match p
    case Fail => false
    case Span(_, body) => Completes(body)
    case Then(a, b) => Completes(a) && Completes(b)
    case _ => true
  }

  lemma {:induction false} ExecCompletes(clock: Clock, t: Trace, p: Prog)
    ensures Exec(clock, t, p).1 == Completes(p)
    decreases p
  {
    match p
    case Span(m, body) => ExecCompletes(clock, Enter(clock, t, m), body);
    case Then(a, b) =>
      ExecCompletes(clock, t, a);
      ExecCompletes(clock, Exec(clock, t, a).0, b);
    case _ =>
  }

  datatype Label = Opened(name: string) | Closed(name: string) | Noted(name: string)

  function LabelOf(e: Event): Label {
    match e
    case Start(_, _, name, _) => Opened(name)
    case End(_, name, _, _) => Closed(name)
    case Other(name, _) => Noted(name)
  }

  function Labels(events: seq<Event>): (r: seq<Label>)
    ensures |r| == |events|
  {
    seq(|events|, i requires 0 <= i < |events| => LabelOf(events[i]))
  }

  /** What the program opens, closes and notes, up to a failure. */
  function Script(p: Prog): seq<Label> {
    match p
    case Emit(name) => [Noted(name)]
    case Span(name, body) => [Opened(name)] + Script(body) + [Closed(name)]
    case Then(a, b) => Script(a) + if Completes(a) then Script(b) else []
    case _ => []
  }

  lemma {:induction false} LabelsAppend(events: seq<Event>, e: Event)
    ensures Labels(events + [e])
         == Labels(events) + [LabelOf(e)]
  {
  }

  lemma {:induction false} SpanRecords(clock: Clock, t: Trace, inner: Trace, name: string, script: seq<Label>)
    requires inner.stack != [] && |t.events| < |inner.events|
    requires Labels(inner.events) == Labels(Enter(clock, t, name).events) + script
    ensures Labels(Exit(clock, inner, |t.events|, name).events)
         == Labels(t.events) + ([Opened(name)] + script + [Closed(name)])
  {
    LabelsAppend(t.events, Start(|t.events|, Top(t.stack), name, clock(t.ticks)));
    LabelsAppend(inner.events, Exit(clock, inner, |t.events|, name).events[|inner.events|]);
  }

  /** Every program records exactly its script. */
  lemma {:induction false} ScriptExact(clock: Clock, t: Trace, p: Prog)
    ensures Labels(Exec(clock, t, p).0.events)
         == Labels(t.events) + Script(p)
    decreases p
  {
    match p
    case Skip => assert Labels(t.events) + [] == Labels(t.events);
    case Fail => assert Labels(t.events) + [] == Labels(t.events);
    case Emit(name) => LabelsAppend(t.events, Other(name, clock(t.ticks)));
    case Span(name, body) =>
      ScriptExact(clock, Enter(clock, t, name), body);
      SpanRecords(clock, t, Exec(clock, Enter(clock, t, name), body).0, name, Script(body));
    case Then(a, b) =>
      ExecCompletes(clock, t, a);
      ScriptExact(clock, t, a);
      if Completes(a) {
        ScriptExact(clock, Exec(clock, t, a).0, b);
        assert Labels(t.events) + Script(a) + Script(b) == Labels(t.events) + (Script(a) + Script(b));
      } else {
        assert Script(a) + [] == Script(a);
      }
  }

  /** Clock readings taken for these events. */
  function Readings(events: seq<Event>): nat {
    if events == [] then 0
    else Readings(events[..|events| - 1]) + if events[|events| - 1].End? then 2 else 1
  }

  /** Every event carries the next reading of the clock; a duration is the reading
      before it minus the time the span started. */
  predicate Timed(clock: Clock, events: seq<Event>) {
    events != [] ==>
      var front, e := events[..|events| - 1], events[|events| - 1];
      var k := Readings(front);
      && Timed(clock, front)
      && if e.End? then e.id < |front| && e.duration == clock(k) - front[e.id].time && e.time == clock(k + 1)
         else e.time == clock(k)
  }

  predicate InStep(clock: Clock, t: Trace) {
    Timed(clock, t.events) && t.ticks == Readings(t.events)
  }

  lemma {:induction false} NoteTimed(clock: Clock, events: seq<Event>, e: Event)
    requires Timed(clock, events) && !e.End? && e.time == clock(Readings(events))
    ensures Timed(clock, events + [e])
    ensures Readings(events + [e]) == Readings(events) + 1
  {
    var more := events + [e];
    assert more[..|more| - 1] == events && more[|more| - 1] == e;
  }

  lemma {:induction false} EnterTimed(clock: Clock, t: Trace, name: string)
    requires InStep(clock, t)
    ensures InStep(clock, Enter(clock, t, name))
    ensures InStep(clock, Exec(clock, t, Emit(name)).0)
  {
    NoteTimed(clock, t.events, Start(|t.events|, Top(t.stack), name, clock(t.ticks)));
    NoteTimed(clock, t.events, Other(name, clock(t.ticks)));
  }

  lemma {:induction false} ExitTimed(clock: Clock, t: Trace, id: nat, name: string)
    requires InStep(clock, t) && t.stack != [] && id < |t.events|
    ensures InStep(clock, Exit(clock, t, id, name))
  {
    NestedAppend(t.events, Exit(clock, t, id, name).events[|t.events|]);
  }

  /** Every program keeps the readings in step with the events. */
  lemma {:induction false} ExecTimed(clock: Clock, t: Trace, p: Prog)
    requires InStep(clock, t)
    ensures InStep(clock, Exec(clock, t, p).0)
    decreases p
  {
    match p
    case Emit(name) => EnterTimed(clock, t, name);
    case Span(name, body) =>
      EnterTimed(clock, t, name);
      ExecTimed(clock, Enter(clock, t, name), body);
      ExitTimed(clock, Exec(clock, Enter(clock, t, name), body).0, |t.events|, name);
    case Then(a, b) =>
      ExecTimed(clock, t, a);
      if Exec(clock, t, a).1 {
        ExecTimed(clock, Exec(clock, t, a).0, b);
      }
    case _ =>
  }

  /** The trace of a whole program: its script, read off the clock. */
  lemma {:induction false} TraceExact(clock: Clock, p: Prog)
    ensures Labels(Exec(clock, EMPTY, p).0.events) == Script(p)
    ensures Timed(clock, Exec(clock, EMPTY, p).0.events)
  {
    ScriptExact(clock, EMPTY, p);
    ExecTimed(clock, EMPTY, p);
  }

  // ---------------------------------------------------------------------
  // Durations
  // ---------------------------------------------------------------------

  /** The start event an end event refers to has this parent. */
  predicate ClosesChildOf(front: seq<Event>, e: Event, parent: Option<nat>) {
    e.End? && e.id < |front| && front[e.id].Start? && front[e.id].parent == parent
  }

  /** Total duration of the finished direct children of a span. */
  function ChildSum(events: seq<Event>, parent: Option<nat>): real {
    if events == [] then 0.0
    else
      var front, last := events[..|events| - 1], events[|events| - 1];
      ChildSum(front, parent) + (if ClosesChildOf(front, last, parent) then last.duration else 0.0)
  }

  lemma ChildSumAppend(events: seq<Event>, e: Event, parent: Option<nat>)
    ensures ChildSum(events + [e], parent)
         == ChildSum(events, parent) + if ClosesChildOf(events, e, parent) then e.duration else 0.0
  {
    NestedAppend(events, e);
  }

  /** What holds of every trace between two steps. */
  predicate Sound(t: Trace) {
    && (forall k | 0 <= k < |t.stack| :: t.stack[k] < |t.events|)
    && (forall i | 0 <= i < |t.events| && t.events[i].Start? && t.events[i].parent.Some? ::
          t.events[i].parent.value < i)
    && (forall i | 0 <= i < |t.events| && t.events[i].End? ::
          && t.events[i].id < |t.events|
          && t.events[i].id !in t.stack
          && ChildSum(t.events, Some(t.events[i].id)) <= t.events[i].duration)
  }

  lemma {:induction false} FreshHasNoChildren(events: seq<Event>, q: nat)
    requires forall i | 0 <= i < |events| && events[i].Start? && events[i].parent.Some? :: events[i].parent.value < i
    requires q >= |events|
    ensures ChildSum(events, Some(q)) == 0.0
  {
    if events != [] {
      FreshHasNoChildren(events[..|events| - 1], q);
    }
  }

  /** How a step may change the child sums: only the current span's sum grows,
      by at most the elapsed time. */
  predicate Grows(clock: Clock, t: Trace, t': Trace) {
    && ChildSum(t'.events, Top(t.stack)) <= ChildSum(t.events, Top(t.stack)) + clock(t'.ticks) - clock(t.ticks)
    && (forall q: nat | q < |t.events| && Some(q) != Top(t.stack) :: ChildSum(t'.events, Some(q)) == ChildSum(t.events, Some(q)))
    && (Top(t.stack) != None ==> ChildSum(t'.events, None) == ChildSum(t.events, None))
  }

  lemma OtherSound(clock: Clock, t: Trace, name: string)
    requires Sound(t) && Monotonic(clock)
    ensures var t' := Exec(clock, t, Emit(name)).0; Sound(t') && Grows(clock, t, t')
  {
    var e := Other(name, clock(t.ticks));
    forall q ensures ChildSum(t.events + [e], q) == ChildSum(t.events, q) {
      ChildSumAppend(t.events, e, q);
    }
  }

  lemma EnterSound(clock: Clock, t: Trace, name: string)
    requires Sound(t)
    ensures var t' := Enter(clock, t, name);
            Sound(t') && ChildSum(t'.events, Some(|t.events|)) == 0.0
            && forall q :: ChildSum(t'.events, q) == ChildSum(t.events, q)
  {
    var t' := Enter(clock, t, name);
    forall q ensures ChildSum(t'.events, q) == ChildSum(t.events, q) {
      ChildSumAppend(t.events, t'.events[|t.events|], q);
    }
    FreshHasNoChildren(t.events, |t.events|);
  }

  lemma ExitSound(clock: Clock, t: Trace, inner: Trace, name: string)
    requires Sound(t) && Sound(inner) && Monotonic(clock)
    requires var inside := Enter(clock, t, name);
             && inside.events <= inner.events && inside.stack == inner.stack && inside.ticks <= inner.ticks
             && Grows(clock, inside, inner)
    ensures var t' := Exit(clock, inner, |t.events|, name); Sound(t') && Grows(clock, t, t')
  {
    var inside := Enter(clock, t, name);
    EnterSound(clock, t, name);
    var id := |t.events|;
    assert inner.events[id] == inside.events[id];
    var t' := Exit(clock, inner, id, name);
    var e := t'.events[|inner.events|];
    forall q ensures ChildSum(t'.events, q) == ChildSum(inner.events, q) + if q == Top(t.stack) then e.duration else 0.0 {
      ChildSumAppend(inner.events, e, q);
    }
    assert Top(t.stack) != Some(id);
    forall i | 0 <= i < |t'.events| && t'.events[i].End?
      ensures t'.events[i].id !in t'.stack && ChildSum(t'.events, Some(t'.events[i].id)) <= t'.events[i].duration
    {
      assert t'.stack == t.stack;
      if i < |inner.events| {
        assert t'.events[i] == inner.events[i];
        assert t.stack == inner.stack[..|inner.stack| - 1];
      }
    }
  }

  lemma {:induction false} ExecSound(clock: Clock, t: Trace, p: Prog)
    requires Sound(t) && Monotonic(clock)
    ensures Sound(Exec(clock, t, p).0) && Grows(clock, t, Exec(clock, t, p).0)
    decreases p
  {
    match p
    case Skip =>
    case Fail =>
    case Emit(name) => OtherSound(clock, t, name);
    case Span(name, body) =>
      EnterSound(clock, t, name);
      ExecSound(clock, Enter(clock, t, name), body);
      ExitSound(clock, t, Exec(clock, Enter(clock, t, name), body).0, name);
    case Then(first, second) =>
      ExecSound(clock, t, first);
      var (mid, ok) := Exec(clock, t, first);
      if ok {
        ExecSound(clock, mid, second);
      }
  }

  /** With a clock that never runs backwards, the direct children of every span
      together last at most as long as the span itself, and the top-level spans
      at most as long as the whole run. */
  lemma ChildrenFitInParent(clock: Clock, p: Prog)
    requires Monotonic(clock)
    ensures var t := Exec(clock, EMPTY, p).0;
            && (forall i | 0 <= i < |t.events| && t.events[i].End? ::
                  ChildSum(t.events, Some(t.events[i].id)) <= t.events[i].duration)
            && ChildSum(t.events, None) <= clock(t.ticks) - clock(0)
  {
    ExecSound(clock, EMPTY, p);
  }
}
