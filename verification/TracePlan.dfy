/** Trace plans as they are written down, validated, scheduled and flattened. */
module TracePlan {
  import opened Decimal
  import opened FiniteSets
  import opened Trace
  import opened Wrappers

  datatype Kind = Add | Preempt | Unsupported

  datatype PlanEvent = PlanEvent(kind: Kind, time: real, gpuCount: int, targets: seq<string>, grace: real)

  /** `maximum` is the size of the allocated pool, `declaredMaximum` what the
      plan says it is. */
  datatype Plan = Plan(
    schemaVersion: int,
    capacityUnit: string,
    timeUnit: string,
    declaredMaximum: int,
    maximum: nat,
    initialAvailable: int,
    unavailableTargets: seq<string>,
    events: seq<PlanEvent>,
    traceEnd: real,
    expectedPath: seq<int>)

  const PREFIX := "pool-slot-"

  /** The slot a target selector names, if it names one of the pool. */
  function TargetSlot(target: string, maximum: nat): (r: Option<nat>)
    ensures r.Some? ==> r.value < maximum
  {
    if !(PREFIX <= target) then None
    else
      match Parse(target[|PREFIX|..])
      case None => None
      case Some(slot) => if slot < maximum then Some(slot) else None
  }

  /** Exactly the printed selectors of a slot of the pool, zero-padded or not,
      name it. */
  lemma TargetExact(target: string, maximum: nat, slot: nat)
    ensures TargetSlot(target, maximum) == Some(slot)
       <==> slot < maximum && exists width: nat :: target == PREFIX + Padded(slot, width)
  {
    if PREFIX <= target {
      var rest := target[|PREFIX|..];
      assert target == PREFIX + rest;
      ParseExact(rest, slot);
      if TargetSlot(target, maximum) == Some(slot) {
        var width: nat :| rest == Padded(slot, width);
        assert target == PREFIX + Padded(slot, width);
      }
    }
    if slot < maximum && exists width: nat :: target == PREFIX + Padded(slot, width) {
      var width: nat :| target == PREFIX + Padded(slot, width);
      TargetRoundTrip(slot, width, maximum);
    }
  }

  /** Selectors round-trip for exactly the slots of the pool; zero-padded ones
      name the same slot. */
  lemma TargetRoundTrip(slot: nat, width: nat, maximum: nat)
    ensures TargetSlot(PREFIX + Padded(slot, width), maximum) == if slot < maximum then Some(slot) else None
  {
    var target := PREFIX + Padded(slot, width);
    assert target[|PREFIX|..] == Padded(slot, width);
    PadKeepsValue(Print(slot), width);
    ParsePrint(slot);
  }

  predicate TargetsOk(targets: seq<string>, maximum: nat) {
    forall i | 0 <= i < |targets| :: TargetSlot(targets[i], maximum).Some?
  }

  function SlotsOf(targets: seq<string>, maximum: nat): (slots: seq<nat>)
    requires TargetsOk(targets, maximum)
    ensures |slots| == |targets|
    ensures forall i | 0 <= i < |slots| :: slots[i] < maximum && TargetSlot(targets[i], maximum) == Some(slots[i])
  {
    seq(|targets|, i requires 0 <= i < |targets| => TargetSlot(targets[i], maximum).value)
  }

  // ---------------------------------------------------------------------
  // Meaning of a plan
  // ---------------------------------------------------------------------

  predicate EventOk(e: PlanEvent, p: Plan) {
    && !e.kind.Unsupported?
    && 0.0 <= e.time <= p.traceEnd
    && e.targets != [] && |e.targets| == e.gpuCount
    && TargetsOk(e.targets, p.maximum)
    && Distinct(SlotsOf(e.targets, p.maximum))
    && (e.kind.Preempt? ==> e.grace > 0.0)
  }

  predicate EventsOk(events: seq<PlanEvent>, p: Plan) {
    && (forall i | 0 <= i < |events| :: EventOk(events[i], p))
    && (forall i | 0 < i < |events| :: events[i - 1].time <= events[i].time)
  }

  /** When the event takes effect: a preemption at its grace deadline. */
  function Effect(e: PlanEvent): real {
    if e.kind.Add? then e.time else e.time + e.grace
  }

  function EventTransitions(e: PlanEvent, maximum: nat): (r: seq<Transition<nat>>)
    requires TargetsOk(e.targets, maximum)
    ensures |r| == |e.targets|
    ensures forall i | 0 <= i < |r| :: r[i] == Transition(Effect(e), e.kind.Add?, SlotsOf(e.targets, maximum)[i])
  {
    seq(|e.targets|, i requires 0 <= i < |e.targets| =>
      Transition(Effect(e), e.kind.Add?, SlotsOf(e.targets, maximum)[i]))
  }

  predicate AllTargetsOk(events: seq<PlanEvent>, maximum: nat) {
    forall i | 0 <= i < |events| :: TargetsOk(events[i].targets, maximum)
  }

  /** All transitions of the plan, in event order. */
  function Transitions(events: seq<PlanEvent>, maximum: nat): seq<Transition<nat>>
    requires AllTargetsOk(events, maximum)
  {
    if events == [] then []
    else Transitions(events[..|events| - 1], maximum) + EventTransitions(events[|events| - 1], maximum)
  }

  function Unavailable(p: Plan): set<nat>
    requires TargetsOk(p.unavailableTargets, p.maximum)
  {
    set slot | slot in SlotsOf(p.unavailableTargets, p.maximum)
  }

  /** Slots available before the first transition. */
  function Initial(p: Plan): set<nat>
    requires TargetsOk(p.unavailableTargets, p.maximum)
  {
    Range(p.maximum) - Unavailable(p)
  }

  predicate FormatOk(p: Plan) {
    p.schemaVersion == 1 && p.capacityUnit == "gpu" && p.timeUnit == "second" && p.declaredMaximum == p.maximum
  }

  /** A slot of the pool is initially available exactly when no target prints it
      as unavailable. */
  lemma InitialExact(p: Plan, slot: nat)
    requires TargetsOk(p.unavailableTargets, p.maximum)
    ensures slot in Initial(p) <==>
              slot < p.maximum && forall width: nat :: PREFIX + Padded(slot, width) !in p.unavailableTargets
  {
    var slots := SlotsOf(p.unavailableTargets, p.maximum);
    if slot in Unavailable(p) {
      var i :| 0 <= i < |slots| && slots[i] == slot;
      TargetExact(p.unavailableTargets[i], p.maximum, slot);
    } else {
      forall width: nat ensures slot < p.maximum ==> PREFIX + Padded(slot, width) !in p.unavailableTargets {
        if slot < p.maximum && PREFIX + Padded(slot, width) in p.unavailableTargets {
          var i :| 0 <= i < |slots| && p.unavailableTargets[i] == PREFIX + Padded(slot, width);
          TargetRoundTrip(slot, width, p.maximum);
        }
      }
    }
  }

  predicate HeaderOk(p: Plan) {
    && FormatOk(p)
    && 0 < p.initialAvailable <= p.maximum
    && TargetsOk(p.unavailableTargets, p.maximum)
    && |Unavailable(p)| == p.maximum - p.initialAvailable
    && (exists i | 0 <= i < |p.events| :: p.events[i].kind.Add?)
    && (exists i | 0 <= i < |p.events| :: p.events[i].kind.Preempt?)
  }

  /** The target prints some slot of the pool. */
  ghost predicate Prints(target: string, maximum: nat) {
    exists k: nat, width: nat :: k < maximum && target == PREFIX + Padded(k, width)
  }

  lemma {:induction false} PrintsExact(target: string, maximum: nat)
    ensures TargetSlot(target, maximum).Some?
       <==> Prints(target, maximum)
  {
    if TargetSlot(target, maximum).Some? {
      TargetExact(target, maximum, TargetSlot(target, maximum).value);
    }
    if Prints(target, maximum) {
      var k: nat, width: nat :| k < maximum && target == PREFIX + Padded(k, width);
      TargetExact(target, maximum, k);
    }
  }

  /** Two targets print the same slot. */
  ghost predicate SameSlot(a: string, b: string) {
    exists k: nat, v: nat, w: nat :: a == PREFIX + Padded(k, v) && b == PREFIX + Padded(k, w)
  }

  lemma {:induction false} SameSlotExact(a: string, b: string, maximum: nat)
    requires TargetSlot(a, maximum).Some? && TargetSlot(b, maximum).Some?
    ensures TargetSlot(a, maximum) == TargetSlot(b, maximum) <==> SameSlot(a, b)
  {
    var k, l := TargetSlot(a, maximum).value, TargetSlot(b, maximum).value;
    TargetExact(a, maximum, k);
    TargetExact(b, maximum, l);
    if SameSlot(a, b) {
      var n: nat, v: nat, w: nat :| a == PREFIX + Padded(n, v) && b == PREFIX + Padded(n, w);
      TargetRoundTrip(n, v, maximum);
      TargetRoundTrip(n, w, maximum);
    }
  }

  /** Which events are accepted, said of what is written in the plan. */
  lemma {:induction false} EventExact(e: PlanEvent, p: Plan)
    ensures EventOk(e, p) <==>
              && (e.kind.Add? || (e.kind.Preempt? && e.grace > 0.0))
              && 0.0 <= e.time <= p.traceEnd && 0 < |e.targets| == e.gpuCount
              && (forall i | 0 <= i < |e.targets| :: Prints(e.targets[i], p.maximum))
              && (forall i, j | 0 <= i < j < |e.targets| :: !SameSlot(e.targets[i], e.targets[j]))
  {
    forall i | 0 <= i < |e.targets| ensures TargetSlot(e.targets[i], p.maximum).Some? <==> Prints(e.targets[i], p.maximum) {
      PrintsExact(e.targets[i], p.maximum);
    }
    if TargetsOk(e.targets, p.maximum) {
      var slots := SlotsOf(e.targets, p.maximum);
      forall i, j | 0 <= i < j < |slots| ensures slots[i] == slots[j] <==> SameSlot(e.targets[i], e.targets[j]) {
        SameSlotExact(e.targets[i], e.targets[j], p.maximum);
      }
    }
  }

  predicate WellFormed(p: Plan) {
    HeaderOk(p) && EventsOk(p.events, p)
  }

  function PlanTransitions(p: Plan): seq<Transition<nat>>
    requires WellFormed(p)
  {
    Transitions(p.events, p.maximum)
  }

  /** An acceptable plan, said without simulating the pool: it is well formed,
      every slot on its own alternates, and counting added and revoked GPUs gives
      the declared capacity path. */
  ghost predicate Acceptable(p: Plan) {
    && WellFormed(p)
    && (forall slot :: SlotAlternates(PlanTransitions(p), slot, slot in Initial(p)))
    && exists times :: Enumerates(times, TimesOf(PlanTransitions(p)))
         && CapacityIs(p, times, p.expectedPath)
  }

  // ---------------------------------------------------------------------
  // Validation
  // ---------------------------------------------------------------------

  datatype Reason =
    | BadHeader | BadEvent(index: nat)
    | AddsAvailable(slot: nat) | PreemptsUnavailable(slot: nat)
    | ExceedsMaximum | PathMismatch

  datatype Verdict = Accept | Reject(reason: Reason)

  /** A transition as the validator stores it: the slot and the direction share
      one signed number. */
  datatype Coded = Coded(time: real, index: nat, code: int)

  function Encode(up: bool, slot: nat): (code: int)
    ensures code != 0
  {
    if up then slot + 1 else -(slot + 1)
  }

  function Decode(c: Coded): Transition<nat>
    requires c.code != 0
  {
    Transition(c.time, c.code > 0, (if c.code > 0 then c.code else -c.code) - 1)
  }

  predicate CodesOk(codes: seq<Coded>) {
    && (forall i | 0 <= i < |codes| :: codes[i].code != 0)
    && (forall i, j | 0 <= i < j < |codes| :: codes[i].index <= codes[j].index)
  }

  function Decoded(codes: seq<Coded>): (ts: seq<Transition<nat>>)
    requires CodesOk(codes)
    ensures |ts| == |codes|
    ensures forall i | 0 <= i < |codes| :: ts[i] == Decode(codes[i])
  {
    seq(|codes|, i requires 0 <= i < |codes| => Decode(codes[i]))
  }

  method CheckTargets(targets: seq<string>, maximum: nat) returns (ok: bool, slots: seq<nat>)
    ensures ok <==> TargetsOk(targets, maximum)
    ensures ok ==> slots == SlotsOf(targets, maximum)
  {
    slots := [];
    var i := 0;
    while i < |targets|
      invariant 0 <= i == |slots| <= |targets|
      invariant forall j | 0 <= j < i :: TargetSlot(targets[j], maximum) == Some(slots[j])
    {
      var slot := TargetSlot(targets[i], maximum);
      if slot.None? {
        return false, slots;
      }
      slots := slots + [slot.value];
      i := i + 1;
    }
    return true, slots;
  }

  method CheckHeader(p: Plan) returns (ok: bool, available: set<nat>)
    ensures ok <==> HeaderOk(p)
    ensures ok ==> available == Initial(p)
  {
    available := {};
    if p.schemaVersion != 1 || p.capacityUnit != "gpu" || p.timeUnit != "second" || p.declaredMaximum != p.maximum {
      return false, available;
    }
    if !(0 < p.initialAvailable <= p.maximum) {
      return false, available;
    }
    var parsed, slots := CheckTargets(p.unavailableTargets, p.maximum);
    if !parsed {
      return false, available;
    }
    var unavailable := set slot | slot in slots;
    assert unavailable == Unavailable(p);
    var hasAdd, hasPreempt := false, false;
    var i := 0;
    while i < |p.events|
      invariant 0 <= i <= |p.events|
      invariant hasAdd <==> exists j | 0 <= j < i :: p.events[j].kind.Add?
      invariant hasPreempt <==> exists j | 0 <= j < i :: p.events[j].kind.Preempt?
    {
      hasAdd := hasAdd || p.events[i].kind.Add?;
      hasPreempt := hasPreempt || p.events[i].kind.Preempt?;
      i := i + 1;
    }
    ok := |unavailable| == p.maximum - p.initialAvailable && hasAdd && hasPreempt;
    available := Range(p.maximum) - unavailable;
  }

  method CheckEvent(e: PlanEvent, p: Plan) returns (ok: bool, slots: seq<nat>)
    ensures ok <==> EventOk(e, p)
    ensures ok ==> slots == SlotsOf(e.targets, p.maximum)
  {
    slots := [];
    if e.kind.Unsupported? || e.time < 0.0 || e.time > p.traceEnd || |e.targets| != e.gpuCount || e.targets == [] {
      return false, slots;
    }
    ok, slots := CheckTargets(e.targets, p.maximum);
    if !ok {
      return;
    }
    var i := 0;
    while i < |slots|
      invariant 0 <= i <= |slots|
      invariant Distinct(slots[..i])
    {
      if slots[i] in slots[..i] {
        var k :| 0 <= k < i && slots[..i][k] == slots[i];
        assert slots[k] == slots[i];
        return false, slots;
      }
      i := i + 1;
    }
    assert slots[..i] == slots;
    ok := e.kind.Preempt? ==> e.grace > 0.0;
  }

  method AppendEvent(codes: seq<Coded>, e: PlanEvent, k: nat, slots: seq<nat>, maximum: nat) returns (r: seq<Coded>)
    requires CodesOk(codes) && forall i | 0 <= i < |codes| :: codes[i].index < k
    requires TargetsOk(e.targets, maximum) && slots == SlotsOf(e.targets, maximum)
    ensures CodesOk(r) && forall i | 0 <= i < |r| :: r[i].index <= k
    ensures Decoded(r)
         == Decoded(codes) + EventTransitions(e, maximum)
  {
    r := codes;
    var j := 0;
    while j < |slots|
      invariant 0 <= j <= |slots|
      invariant CodesOk(r) && forall i | 0 <= i < |r| :: r[i].index <= k
      invariant Decoded(r) == Decoded(codes) + EventTransitions(e, maximum)[..j]
    {
      r := r + [Coded(Effect(e), k, Encode(e.kind.Add?, slots[j]))];
      j := j + 1;
    }
  }

  /** Reads the events into coded transitions; rejects at the first bad event. */
  method Collect(p: Plan) returns (ok: bool, codes: seq<Coded>, bad: nat)
    ensures ok <==> EventsOk(p.events, p)
    ensures ok ==> CodesOk(codes) && Decoded(codes) == Transitions(p.events, p.maximum)
  {
    codes, bad := [], 0;
    var last := -1.0;
    var k := 0;
    while k < |p.events|
      invariant 0 <= k <= |p.events|
      invariant EventsOk(p.events[..k], p)
      invariant last == if k == 0 then -1.0 else p.events[k - 1].time
      invariant CodesOk(codes) && forall i | 0 <= i < |codes| :: codes[i].index < k
      invariant Decoded(codes) == Transitions(p.events[..k], p.maximum)
    {
      var e := p.events[k];
      var fine, slots := CheckEvent(e, p);
      if !fine || e.time < last {
        return false, codes, k;
      }
      last := e.time;
      codes := AppendEvent(codes, e, k, slots, p.maximum);
      assert p.events[..k + 1][..k] == p.events[..k];
      k := k + 1;
    }
    assert p.events[..k] == p.events;
    return true, codes, k;
  }

  /** All transitions of one instant, in event order. The event indices of
      `codes` never fall, so selecting by time leaves them in index order. */
  method ApplyInstant(start: set<nat>, codes: seq<Coded>, t: real) returns (r: Verdict, available: set<nat>)
    requires CodesOk(codes)
    ensures r.Accept?
       <==> Apply(start, At(Decoded(codes), t)).Some?
    ensures r.Accept? ==> Apply(start, At(Decoded(codes), t)) == Some(available)
    ensures r.Reject? ==> r.reason.AddsAvailable? || r.reason.PreemptsUnavailable?
  {
    available := start;
    ghost var ts := Decoded(codes);
    var i := 0;
    while i < |codes|
      invariant 0 <= i <= |codes|
      invariant Apply(start, At(ts, t)) == Apply(available, At(ts[i..], t))
    {
      assert ts[i..][0] == ts[i] && ts[i..][1..] == ts[i + 1..];
      if codes[i].time == t {
        var delta := if codes[i].code > 0 then 1 else -1;
        var slot := (if codes[i].code > 0 then codes[i].code else -codes[i].code) - 1;
        assert At(ts[i..], t)[1..] == At(ts[i + 1..], t);
        if delta > 0 {
          if slot in available {
            return Reject(AddsAvailable(slot)), available;
          }
          available := available + {slot};
        } else {
          if slot !in available {
            return Reject(PreemptsUnavailable(slot)), available;
          }
          available := available - {slot};
        }
      }
      i := i + 1;
    }
    r := Accept;
  }

  lemma {:induction false} ApplyStaysInside(avail: set<nat>, ts: seq<Transition<nat>>, maximum: nat)
    requires forall slot | slot in avail :: slot < maximum
    requires forall x | x in ts :: x.slot < maximum
    requires Apply(avail, ts).Some?
    ensures forall slot | slot in Apply(avail, ts).value :: slot < maximum
    decreases |ts|
  {
    if ts != [] {
      assert ts[0] in ts;
      ApplyStaysInside(if ts[0].up then avail + {ts[0].slot} else avail - {ts[0].slot}, ts[1..], maximum);
    }
  }

  /** A capacity path that continues `done`. */
  function After(done: seq<int>, rest: Option<seq<int>>): (r: Option<seq<int>>)
    ensures done == [] ==> r == rest
  {
    if rest.None? then None
    else
      assert done == [] ==> done + rest.value == rest.value;
      Some(done + rest.value)
  }

  lemma PathStep(now: set<nat>, next: set<nat>, times: seq<real>, k: nat, ts: seq<Transition<nat>>, done: seq<int>)
    requires k < |times| && Apply(now, At(ts, times[k])) == Some(next)
    ensures After(done, Path(now, times[k..], ts))
         == After(done + [|next|], Path(next, times[k + 1..], ts))
  {
    assert times[k..][1..] == times[k + 1..];
    var rest := Path(next, times[k + 1..], ts);
    if rest.Some? {
      assert done + ([|next|] + rest.value) == (done + [|next|]) + rest.value;
    }
  }

  /** The capacity path of the slot-set simulation, one value per instant. The
      pool can never be exceeded. */
  method Simulate(start: set<nat>, codes: seq<Coded>, maximum: nat, times: seq<real>)
    returns (r: Verdict, path: seq<int>)
    requires CodesOk(codes)
    requires forall slot | slot in start :: slot < maximum
    requires forall x | x in Decoded(codes) :: x.slot < maximum
    ensures r.Accept?
       <==> Path(start, times, Decoded(codes)).Some?
    ensures r.Accept? ==> path == [|start|] + Path(start, times, Decoded(codes)).value
    ensures r != Reject(ExceedsMaximum)
  {
    var available: set<nat> := start;
    path := [|available|];
    ghost var ts := Decoded(codes);
    assert path[1..] == [] && times[0..] == times;
    var k := 0;
    while k < |times|
      invariant 0 <= k <= |times| && |path| == k + 1 && path[0] == |start|
      invariant forall slot | slot in available :: slot < maximum
      invariant Path(start, times, ts) == After(path[1..], Path(available, times[k..], ts))
    {
      var now: set<nat> := available;
      r, available := ApplyInstant(now, codes, times[k]);
      if r.Reject? {
        return;
      }
      AtMembers(ts, times[k]);
      ApplyStaysInside(now, At(ts, times[k]), maximum);
      SizeBound(available, maximum);
      if |available| > maximum {
        return Reject(ExceedsMaximum), path;
      }
      PathStep(now, available, times, k, ts, path[1..]);
      assert (path + [|available|])[1..] == path[1..] + [|available|];
      path := path + [|available|];
      k := k + 1;
    }
    assert path == [|start|] + path[1..];
    r := Accept;
  }

  lemma InitialSize(p: Plan)
    requires HeaderOk(p)
    ensures |Initial(p)| == p.initialAvailable
  {
    var range := Range(p.maximum);
    forall slot | slot in Unavailable(p) ensures slot in range {
      var i :| 0 <= i < |p.unavailableTargets| && SlotsOf(p.unavailableTargets, p.maximum)[i] == slot;
    }
    assert Unavailable(p) <= range;
    assert |range - Unavailable(p)| == |range| - |Unavailable(p)|;
  }

  lemma {:induction false} TransitionsInside(events: seq<PlanEvent>, maximum: nat)
    requires AllTargetsOk(events, maximum)
    ensures forall x | x in Transitions(events, maximum) :: x.slot < maximum
  {
    if events != [] {
      TransitionsInside(events[..|events| - 1], maximum);
      var last := EventTransitions(events[|events| - 1], maximum);
      assert forall i | 0 <= i < |last| :: last[i].slot < maximum;
    }
  }

  /** The validator accepts exactly the acceptable plans, and the check that the
      pool size is exceeded never fires. */
  method ValidateTracePlan(p: Plan) returns (v: Verdict)
    ensures v.Accept? <==> Acceptable(p)
    ensures v != Reject(ExceedsMaximum)
  {
    var headerOk, available := CheckHeader(p);
    if !headerOk {
      return Reject(BadHeader);
    }
    var eventsOk, codes, bad := Collect(p);
    if !eventsOk {
      return Reject(BadEvent(bad));
    }
    var raw := seq(|codes|, i requires 0 <= i < |codes| => codes[i].time);
    var times := SortTimes(raw);
    ghost var ts := PlanTransitions(p);
    assert Enumerates(times, TimesOf(ts)) by {
      forall t ensures t in raw <==> t in TimesOf(ts) {
        TimesOfIndex(ts, t);
        assert forall i | 0 <= i < |codes| :: ts[i].time == raw[i];
      }
    }
    TransitionsInside(p.events, p.maximum);
    var path;
    v, path := Simulate(available, codes, p.maximum, times);
    AcceptableExact(p, times);
    if v.Accept? && path != p.expectedPath {
      v := Reject(PathMismatch);
    }
  }

  lemma TimesOfIndex<T>(ts: seq<Transition<T>>, t: real)
    ensures t in TimesOf(ts) <==> exists i | 0 <= i < |ts| :: ts[i].time == t
  {
    if exists i | 0 <= i < |ts| :: ts[i].time == t {
      var i :| 0 <= i < |ts| && ts[i].time == t;
      assert ts[i] in ts;
    }
  }

  /** Acceptability is the success of the slot-set simulation with the declared
      capacity path. */
  lemma AcceptableExact(p: Plan, times: seq<real>)
    requires WellFormed(p) && Enumerates(times, TimesOf(PlanTransitions(p)))
    ensures var path := Path(Initial(p), times, PlanTransitions(p));
            Acceptable(p) <==> path.Some? && p.expectedPath == [|Initial(p)|] + path.value
  {
    var ts := PlanTransitions(p);
    SimulationFactorises(Initial(p), times, ts);
    InitialSize(p);
    CapacityExact(p, times, p.expectedPath);
    if Path(Initial(p), times, ts).Some? {
      PathIsTotals(Initial(p), times, ts);
    }
    forall other | Enumerates(other, TimesOf(ts)) ensures other == times {
      EnumerationUnique(other, times);
    }
  }

  // ---------------------------------------------------------------------
  // Counts-only capacity timeline
  // ---------------------------------------------------------------------

  lemma {:induction false} NetConcat<T>(a: seq<Transition<T>>, b: seq<Transition<T>>)
    ensures Net(a + b) == Net(a) + Net(b)
  {
    if a == [] {
      assert a + b == b;
    } else {
      NetConcat(a[1..], b);
      assert (a + b)[1..] == a[1..] + b;
    }
  }

  lemma {:induction false} UniformNet<T>(ts: seq<Transition<T>>, time: real, up: bool, t: real)
    requires forall i | 0 <= i < |ts| :: ts[i].time == time && ts[i].up == up
    ensures Net(At(ts, t)) == if t != time then 0 else if up then |ts| else -|ts|
  {
    if ts != [] {
      UniformNet(ts[1..], time, up, t);
      if t == time {
        assert At(ts, t)[1..] == At(ts[1..], t);
      }
    }
  }

  /** The net change per instant, computed from the GPU counts alone. */
  predicate CountsOf(counts: map<real, int>, ts: seq<Transition<nat>>) {
    && counts.Keys == TimesOf(ts)
    && forall t | t in counts :: counts[t] == Net(At(ts, t))
  }

  lemma CountsStep(counts: map<real, int>, ts: seq<Transition<nat>>, e: PlanEvent, p: Plan)
    requires CountsOf(counts, ts) && EventOk(e, p)
    ensures var change := if e.kind.Add? then e.gpuCount else -e.gpuCount;
            var now := if Effect(e) in counts then counts[Effect(e)] else 0;
            CountsOf(counts[Effect(e) := now + change], ts + EventTransitions(e, p.maximum))
  {
    var more := EventTransitions(e, p.maximum);
    forall t ensures t in TimesOf(ts + more) <==> t in TimesOf(ts) || t == Effect(e) {
      TimesOfIndex(ts, t);
      TimesOfIndex(more, t);
      TimesOfIndex(ts + more, t);
      if t == Effect(e) {
        assert (ts + more)[|ts|].time == t;
      }
      if t in TimesOf(ts) {
        var i :| 0 <= i < |ts| && ts[i].time == t;
        assert (ts + more)[i].time == t;
      }
    }
    forall t ensures Net(At(ts + more, t))
      == Net(At(ts, t)) + if t != Effect(e) then 0 else if e.kind.Add? then e.gpuCount else -e.gpuCount
    {
      AtConcat(ts, more, t);
      NetConcat(At(ts, t), At(more, t));
      UniformNet(more, Effect(e), e.kind.Add?, t);
    }
    AtEmpty(ts, Effect(e));
  }

  /** Accumulates the net change per instant; `order` lists the instants. */
  method CapacityEvents(p: Plan) returns (counts: map<real, int>, order: seq<real>)
    requires WellFormed(p)
    ensures CountsOf(counts, PlanTransitions(p))
    ensures forall t :: t in order <==> t in counts
  {
    counts, order := map[], [];
    var k := 0;
    while k < |p.events|
      invariant 0 <= k <= |p.events|
      invariant CountsOf(counts, Transitions(p.events[..k], p.maximum))
      invariant forall t :: t in order <==> t in counts
    {
      var e := p.events[k];
      var t := Effect(e);
      var change := if e.kind.Add? then e.gpuCount else -e.gpuCount;
      CountsStep(counts, Transitions(p.events[..k], p.maximum), e, p);
      assert p.events[..k + 1][..k] == p.events[..k];
      if t !in counts {
        order := order + [t];
      }
      counts := counts[t := (if t in counts then counts[t] else 0) + change];
      k := k + 1;
    }
    assert p.events[..k] == p.events;
  }

  method RunningTotals(start: int, times: seq<real>, counts: map<real, int>, ghost ts: seq<Transition<nat>>)
    returns (values: seq<int>)
    requires CountsOf(counts, ts) && forall t | t in times :: t in counts
    ensures values == [start] + Totals(start, times, ts)
  {
    var available := start;
    values := [available];
    var i := 0;
    assert times[0..] == times;
    while i < |times|
      invariant 0 <= i <= |times|
      invariant [start] + Totals(start, times, ts) == values + Totals(available, times[i..], ts)
    {
      assert times[i..][1..] == times[i + 1..];
      available := available + counts[times[i]];
      values := values + [available];
      i := i + 1;
    }
  }

  /** GPUs added at or before `t`. */
  function Added(events: seq<PlanEvent>, t: real): int {
    if events == [] then 0
    else
      var e := events[|events| - 1];
      Added(events[..|events| - 1], t) + if e.kind.Add? && e.time <= t then e.gpuCount else 0
  }

  /** GPUs whose grace period ended at or before `t`. */
  function Revoked(events: seq<PlanEvent>, t: real): int {
    if events == [] then 0
    else
      var e := events[|events| - 1];
      Revoked(events[..|events| - 1], t) + if e.kind.Preempt? && e.time + e.grace <= t then e.gpuCount else 0
  }

  lemma {:induction false} UniformUpTo<T>(ts: seq<Transition<T>>, time: real, up: bool, t: real)
    requires forall i | 0 <= i < |ts| :: ts[i].time == time && ts[i].up == up
    ensures NetUpTo(ts, t) == if time > t then 0 else if up then |ts| else -|ts|
  {
    if ts != [] {
      UniformUpTo(ts[1..], time, up, t);
    }
  }

  lemma {:induction false} PlanNetUpTo(events: seq<PlanEvent>, p: Plan, t: real)
    requires AllTargetsOk(events, p.maximum) && forall i | 0 <= i < |events| :: EventOk(events[i], p)
    ensures NetUpTo(Transitions(events, p.maximum), t)
         == Added(events, t) - Revoked(events, t)
  {
    if events != [] {
      var front, e := events[..|events| - 1], events[|events| - 1];
      PlanNetUpTo(front, p, t);
      NetUpToConcat(Transitions(front, p.maximum), EventTransitions(e, p.maximum), t);
      UniformUpTo(EventTransitions(e, p.maximum), Effect(e), e.kind.Add?, t);
    }
  }

  /** Capacities over the instants of a plan, said of its events alone: initial
      GPUs, plus those added, minus those whose grace period has ended. */
  predicate CapacityIs(p: Plan, times: seq<real>, values: seq<int>) {
    && |values| == |times| + 1 && values[0] == p.initialAvailable
    && forall k | 0 <= k < |times| :: values[k + 1] == p.initialAvailable + Added(p.events, times[k]) - Revoked(p.events, times[k])
  }

  lemma CapacityExact(p: Plan, times: seq<real>, values: seq<int>)
    requires WellFormed(p) && Enumerates(times, TimesOf(PlanTransitions(p)))
    ensures values == [p.initialAvailable] + Totals(p.initialAvailable, times, PlanTransitions(p))
       <==> CapacityIs(p, times, values)
  {
    var totals := Totals(p.initialAvailable, times, PlanTransitions(p));
    forall k | 0 <= k < |times|
      ensures totals[k] == p.initialAvailable + Added(p.events, times[k]) - Revoked(p.events, times[k])
    {
      TotalsExact(p.initialAvailable, times, PlanTransitions(p), k);
      PlanNetUpTo(p.events, p, times[k]);
    }
    if CapacityIs(p, times, values) {
      assert values == [p.initialAvailable] + totals;
    }
  }

  /** The schedule's capacity timeline, from counts only: it has exactly the
      instants of the simulation and the capacities that the events say; for an
      acceptable plan these are the simulated and the declared ones. */
  method CapacityTimeline(p: Plan) returns (times: seq<real>, values: seq<int>)
    requires WellFormed(p)
    ensures Enumerates(times, TimesOf(PlanTransitions(p)))
    ensures CapacityIs(p, times, values)
    ensures Acceptable(p) ==>
              && values == p.expectedPath
              && Path(Initial(p), times, PlanTransitions(p)) == Some(values[1..])
  {
    var counts, order := CapacityEvents(p);
    times := SortTimes(order);
    values := RunningTotals(p.initialAvailable, times, counts, PlanTransitions(p));
    TimelineMatches(p, times, values);
    CapacityExact(p, times, values);
  }

  /** Fast form refines the simulated one. */
  lemma TimelineMatches(p: Plan, times: seq<real>, values: seq<int>)
    requires WellFormed(p) && Enumerates(times, TimesOf(PlanTransitions(p)))
    requires values == [p.initialAvailable] + Totals(p.initialAvailable, times, PlanTransitions(p))
    ensures Acceptable(p) ==>
              && values == p.expectedPath
              && Path(Initial(p), times, PlanTransitions(p)) == Some(values[1..])
  {
    AcceptableExact(p, times);
    InitialSize(p);
    if Acceptable(p) {
      PathIsTotals(Initial(p), times, PlanTransitions(p));
    }
  }

  // ---------------------------------------------------------------------
  // Flattening
  // ---------------------------------------------------------------------

  /** One GPU changes; a preemption row carries its grace period. */
  datatype Row = Row(time: real, add: bool, node: string, grace: real)

  function RowTransition(r: Row): Transition<string> {
    Transition(if r.add then r.time else r.time + r.grace, r.add, r.node)
  }

  function RowTransitions(rows: seq<Row>): (ts: seq<Transition<string>>)
    ensures |ts| == |rows|
  {
    seq(|rows|, i requires 0 <= i < |rows| => RowTransition(rows[i]))
  }

  /** The worker id of a slot: its position in the sorted id list. */
  function NameOf(ids: seq<string>): nat -> string {
    (slot: nat) => if slot < |ids| then ids[slot] else ""
  }

  lemma NamesInjective(ids: seq<string>)
    requires Distinct(ids)
    ensures InjectiveOn(NameOf(ids), Range(|ids|))
  {
  }

  function TotalGpus(events: seq<PlanEvent>): int {
    if events == [] then 0 else TotalGpus(events[..|events| - 1]) + events[|events| - 1].gpuCount
  }

  lemma {:induction false} RenameConcat<S, T>(a: seq<Transition<S>>, b: seq<Transition<S>>, f: S -> T)
    ensures Rename(a + b, f) == Rename(a, f) + Rename(b, f)
  {
    if a == [] {
      assert a + b == b;
    } else {
      var x := Transition(a[0].time, a[0].up, f(a[0].slot));
      RenameConcat(a[1..], b, f);
      assert (a + b)[1..] == a[1..] + b;
      assert Rename(a + b, f) == [x] + (Rename(a[1..], f) + Rename(b, f));
    }
  }

  lemma {:induction false} RenameIndex<S, T>(ts: seq<Transition<S>>, f: S -> T, i: nat)
    requires i < |ts|
    ensures Rename(ts, f)[i]
         == Transition(ts[i].time, ts[i].up, f(ts[i].slot))
  {
    if i > 0 {
      RenameIndex(ts[1..], f, i - 1);
    }
  }

  /** The row of the event's `j`-th target: its time, kind and grace period, and
      the worker whose position the selector prints. */
  ghost predicate Describes(row: Row, e: PlanEvent, j: nat, ids: seq<string>) {
    && row.time == e.time && row.add == e.kind.Add? && row.grace == (if e.kind.Preempt? then e.grace else 0.0)
    && j < |e.targets|
    && exists k: nat, width: nat :: k < |ids| && e.targets[j] == PREFIX + Padded(k, width) && row.node == ids[k]
  }

  /** Target `j` of event `i` has its row behind those of all earlier targets. */
  ghost predicate RowOf(rows: seq<Row>, events: seq<PlanEvent>, ids: seq<string>, i: nat, j: nat)
    requires i < |events|
  {
    var n := TotalGpus(events[..i]) + j;
    0 <= n < |rows| && Describes(rows[n], events[i], j, ids)
  }

  ghost predicate RowsDescribe(rows: seq<Row>, events: seq<PlanEvent>, ids: seq<string>) {
    forall i, j | 0 <= i < |events| && 0 <= j < |events[i].targets| :: RowOf(rows, events, ids, i, j)
  }

  lemma DescribeStep(rows: seq<Row>, more: seq<Row>, events: seq<PlanEvent>, k: nat, ids: seq<string>)
    requires k < |events| && |rows| == TotalGpus(events[..k]) && RowsDescribe(rows, events[..k], ids)
    requires |more| == |events[k].targets| && forall j | 0 <= j < |more| :: Describes(more[j], events[k], j, ids)
    ensures RowsDescribe(rows + more, events[..k + 1], ids)
  {
    var next := events[..k + 1];
    forall i, j | 0 <= i < |next| && 0 <= j < |next[i].targets| ensures RowOf(rows + more, next, ids, i, j) {
      assert next[..i] == events[..i];
      if i < k {
        assert events[..k][..i] == events[..i];
        assert RowOf(rows, events[..k], ids, i, j);
      } else {
        assert (rows + more)[|rows| + j] == more[j];
      }
    }
  }

  /** The row is right both as text and as a transition. */
  ghost predicate RowGood(row: Row, e: PlanEvent, j: nat, p: Plan, ids: seq<string>)
    requires EventOk(e, p)
  {
    && Describes(row, e, j, ids)
    && RowTransition(row) == Rename(EventTransitions(e, p.maximum), NameOf(ids))[j]
  }

  method TargetRow(e: PlanEvent, j: nat, p: Plan, ids: seq<string>) returns (row: Row)
    requires EventOk(e, p) && |ids| == p.maximum && j < |e.targets|
    ensures RowGood(row, e, j, p, ids)
  {
    var slot := TargetSlot(e.targets[j], p.maximum).value;
    row := Row(e.time, e.kind.Add?, ids[slot], if e.kind.Preempt? then e.grace else 0.0);
    RenameIndex(EventTransitions(e, p.maximum), NameOf(ids), j);
    TargetExact(e.targets[j], p.maximum, slot);
  }

  method EventRows(e: PlanEvent, p: Plan, ids: seq<string>) returns (rows: seq<Row>)
    requires EventOk(e, p) && |ids| == p.maximum
    ensures |rows| == e.gpuCount && forall i | 0 <= i < |rows| :: Describes(rows[i], e, i, ids)
    ensures RowTransitions(rows)
         == Rename(EventTransitions(e, p.maximum), NameOf(ids))
  {
    rows := [];
    var j := 0;
    while j < |e.targets|
      invariant 0 <= j == |rows| <= |e.targets|
      invariant forall i | 0 <= i < j :: RowGood(rows[i], e, i, p, ids)
    {
      var row := TargetRow(e, j, p, ids);
      rows := rows + [row];
      j := j + 1;
    }
    GoodRows(rows, e, p, ids);
  }

  lemma GoodRows(rows: seq<Row>, e: PlanEvent, p: Plan, ids: seq<string>)
    requires EventOk(e, p) && |rows| == |e.targets|
    requires forall i | 0 <= i < |rows| :: RowGood(rows[i], e, i, p, ids)
    ensures RowTransitions(rows)
         == Rename(EventTransitions(e, p.maximum), NameOf(ids))
  {
    forall i | 0 <= i < |rows| ensures RowTransitions(rows)[i] == Rename(EventTransitions(e, p.maximum), NameOf(ids))[i] {
      assert RowGood(rows[i], e, i, p, ids);
    }
  }

  lemma RowsStep(rows: seq<Row>, more: seq<Row>, p: Plan, k: nat, f: nat -> string)
    requires EventsOk(p.events, p) && k < |p.events|
    requires RowTransitions(rows) == Rename(Transitions(p.events[..k], p.maximum), f)
    requires RowTransitions(more) == Rename(EventTransitions(p.events[k], p.maximum), f)
    ensures TotalGpus(p.events[..k + 1])
         == TotalGpus(p.events[..k]) + p.events[k].gpuCount
    ensures RowTransitions(rows + more)
         == Rename(Transitions(p.events[..k + 1], p.maximum), f)
  {
    assert p.events[..k + 1][..k] == p.events[..k];
    RenameConcat(Transitions(p.events[..k], p.maximum), EventTransitions(p.events[k], p.maximum), f);
    assert RowTransitions(rows + more) == RowTransitions(rows) + RowTransitions(more);
  }

  predicate TimeOrdered(rows: seq<Row>) {
    forall i, j | 0 <= i < j < |rows| :: rows[i].time <= rows[j].time
  }

  predicate AllBefore(rows: seq<Row>, t: real) {
    forall i | 0 <= i < |rows| :: rows[i].time <= t
  }

  lemma OrderStep(rows: seq<Row>, more: seq<Row>, before: real, now: real)
    requires TimeOrdered(rows) && AllBefore(rows, before) && before <= now
    requires forall i | 0 <= i < |more| :: more[i].time == now
    ensures TimeOrdered(rows + more) && AllBefore(rows + more, now)
  {
  }

  /** `rows` flattens the first `k` events. */
  ghost predicate RowsUpTo(p: Plan, ids: seq<string>, k: nat, rows: seq<Row>)
    requires WellFormed(p)
  {
    && k <= |p.events|
    && |rows| == TotalGpus(p.events[..k]) && RowsDescribe(rows, p.events[..k], ids)
    && TimeOrdered(rows) && (if k == 0 then rows == [] else AllBefore(rows, p.events[k - 1].time))
    && RowTransitions(rows) == Rename(Transitions(p.events[..k], p.maximum), NameOf(ids))
  }

  method AppendRows(rows: seq<Row>, p: Plan, ids: seq<string>, k: nat) returns (r: seq<Row>)
    requires WellFormed(p) && |ids| == p.maximum && k < |p.events| && RowsUpTo(p, ids, k, rows)
    ensures RowsUpTo(p, ids, k + 1, r)
  {
    var more := EventRows(p.events[k], p, ids);
    RowsStep(rows, more, p, k, NameOf(ids));
    DescribeStep(rows, more, p.events, k, ids);
    OrderStep(rows, more, if k == 0 then p.events[k].time else p.events[k - 1].time, p.events[k].time);
    r := rows + more;
  }

  method PlanRows(p: Plan, ids: seq<string>) returns (rows: seq<Row>)
    requires WellFormed(p) && |ids| == p.maximum
    ensures |rows| == TotalGpus(p.events) && RowsDescribe(rows, p.events, ids)
    ensures TimeOrdered(rows)
    ensures RowTransitions(rows)
         == Rename(PlanTransitions(p), NameOf(ids))
  {
    rows := [];
    var k := 0;
    while k < |p.events|
      invariant 0 <= k <= |p.events| && RowsUpTo(p, ids, k, rows)
    {
      rows := AppendRows(rows, p, ids, k);
      k := k + 1;
    }
    assert p.events[..k] == p.events;
  }

  /** Flattening an acceptable plan keeps its meaning: the rows are in time
      order, one per GPU, and replaying them GPU by GPU over worker ids with
      their grace deadlines gives the declared capacity path. It is refused
      exactly when fewer than two workers were discovered, or not as many as the
      pool has. */
  method BuildTrace(p: Plan, ids: seq<string>) returns (rows: Option<seq<Row>>)
    requires Acceptable(p) && Distinct(ids)
    ensures rows.None? <==> |ids| < 2 || |ids| != p.maximum
    ensures rows.Some? ==>
              && |rows.value| == TotalGpus(p.events) && RowsDescribe(rows.value, p.events, ids)
              && TimeOrdered(rows.value)
              && ReplayMatches(p, ids, rows.value)
  {
    if |ids| < 2 || |ids| != p.maximum {
      return None;
    }
    var flat := PlanRows(p, ids);
    forall times | Enumerates(times, TimesOf(PlanTransitions(p)))
      ensures ReplayPath(p, ids, flat, times).Some?
      ensures [p.initialAvailable] + ReplayPath(p, ids, flat, times).value == p.expectedPath
    {
      FlattenedPath(p, ids, times);
    }
    rows := Some(flat);
  }

  /** Replay of the rows over worker ids, starting from the available workers. */
  function ReplayPath(p: Plan, ids: seq<string>, rows: seq<Row>, times: seq<real>): Option<seq<int>>
    requires HeaderOk(p)
  {
    Path(Image(Initial(p), NameOf(ids)), times, RowTransitions(rows))
  }

  ghost predicate ReplayMatches(p: Plan, ids: seq<string>, rows: seq<Row>)
    requires WellFormed(p)
  {
    forall times | Enumerates(times, TimesOf(PlanTransitions(p))) ::
      && ReplayPath(p, ids, rows, times).Some?
      && [p.initialAvailable] + ReplayPath(p, ids, rows, times).value == p.expectedPath
  }

  lemma FlattenedPath(p: Plan, ids: seq<string>, times: seq<real>)
    requires Acceptable(p) && Distinct(ids) && |ids| == p.maximum
    requires Enumerates(times, TimesOf(PlanTransitions(p)))
    ensures var path := Path(Image(Initial(p), NameOf(ids)), times, Rename(PlanTransitions(p), NameOf(ids)));
            path.Some? && [p.initialAvailable] + path.value == p.expectedPath
  {
    var domain := Range(|ids|);
    NamesInjective(ids);
    TransitionsInside(p.events, p.maximum);
    RenamePath(Initial(p), times, PlanTransitions(p), NameOf(ids), domain);
    AcceptableExact(p, times);
    InitialSize(p);
  }
}
