/** Preemption and token-replay recovery, as a state machine over its steps. */
module Recovery {
  import opened Decoding
  import opened EventQueue
  import opened GpuRuntime
  import opened Wrappers
  import RouteHistogram

  /** Decoder, prompt and output length (512 in the experiments). */
  datatype Config = Config(next: Decoder, prompt: seq<Token>, n: nat) {
    function Reference(): seq<Token> {
      Generate(next, prompt, n)
    }
  }

  /** The engine side of the current segment. */
  datatype Engine = Engine(prompt: seq<Token>, out: seq<Token>, budget: nat, paused: bool)

  datatype Phase =
    | Serving                         // `measure` is still consuming events
    | Returned(output: seq<Token>)    // `measure` returned this output
    | Frozen(snap: Snapshot)          // snapshot taken, handoff not yet done

  /** A request that passed every final check. */
  datatype Served = Served(output: seq<Token>, counts: seq<nat>, segments: seq<seq<Token>>)

  datatype Status = Running | Failed(failure: Failure)

  datatype State = State(
    status: Status,
    phase: Phase,
    engine: Engine,
    queue: seq<Event>,          // the current worker's shared event list
    request: RequestId,
    meter: Meter,
    carried: seq<Token>,        // tokens delivered by earlier segments
    delivered: seq<nat>,        // delivery counts of earlier segments
    segments: seq<seq<Token>>,  // what each earlier segment generated
    served: seq<Served>,
    pool: seq<PoolWorker>)      // last one is the current worker

  /** What the engine reports beside the tokens when a request is snapshotted. */
  datatype Observed = Observed(kvBlocks: nat, routes: RouteHistogram.Metadata) {
    predicate Good() {
      kvBlocks > 0 && RoutesOk(routes)
    }
  }

  datatype Action =
    | Decode                        // the engine commits one more token
    | Emit                          // the engine sends its cumulative output
    | Arrive(event: Event)          // any event that is not an output
    | Deliver                       // the client thread consumes one output event
    | Pause                         // a revocation pauses generation
    | Freeze(seen: Observed)        // the paused request is snapshotted
    | Handoff(group: set<nat>)      // the rest is moved to a worker on `group`
    | Finish                        // the main loop sees the completed request

  function Init(cfg: Config, group: set<nat>): State {
    State(Running, Serving, Engine(cfg.prompt, [], cfg.n, false), [], 0, FRESH_METER, [], [], [], [],
          [PoolWorker(group, false)])
  }

  function Fail(s: State, failure: Failure): State {
    s.(status := Failed(failure))
  }

  function Outputs(request: RequestId): Selector {
    Selector(Output, Some(request))
  }

  function Offset(base: nat, counts: seq<nat>): (r: seq<nat>)
    ensures |r| == |counts|
  {
    seq(|counts|, i requires 0 <= i < |counts| => base + counts[i])
  }

  /** The delivery check at the end of a request. */
  predicate CountsComplete(counts: seq<nat>, n: nat) {
    && counts != []
    && counts[|counts| - 1] == n
    && forall i | 0 <= i < |counts| - 1 :: counts[i] < counts[i + 1]
  }

  function DeliverStep(s: State): State {
    if s.phase.Returned? then s
    else
      var (outcome, q) := Poll(Queue(s.queue, false, {}), Outputs(s.request), None);
      match outcome
      case Got(e) =>
        if !StreamUpdateOk(s.meter.previous, e) then Fail(s, StreamRevised)
        else
          var s' := s.(queue := q.events, meter := Absorb(s.meter, e));
          if !e.finished then s'
          else if |e.tokens| != s.engine.budget then Fail(s', PartialOutput)
          else if s.phase.Serving? then s'.(phase := Returned(e.tokens))
          else s'
      case Raised(_) => Fail(s, WorkerFault)
      case _ => s
  }

  /** The snapshot of what the engine has committed. */
  function EngineSnapshot(cfg: Config, carried: seq<Token>, e: Engine, m: Meter, seen: Observed): Result<Snapshot, Failure> {
    var report := EngineReport(true, e.prompt, e.prompt + e.out, e.out, seen.kvBlocks, seen.routes);
    TakeSnapshot(cfg.prompt, carried, cfg.Reference(), cfg.n, report, m)
  }

  function FreezeStep(cfg: Config, s: State, seen: Observed): State {
    if !s.engine.paused || s.phase.Frozen? then s
    else if exists e | e in s.queue :: e.Raises() then Fail(s, WorkerFault)
    else
      match EngineSnapshot(cfg, s.carried, s.engine, s.meter, seen)
      case Err(failure) => Fail(s, failure)
      case Ok(snap) => s.(phase := Frozen(snap))
  }

  /** Stop the source, then create the target and ask it for the rest only. */
  function HandoffStep(s: State, group: set<nat>): State {
    if !s.phase.Frozen? then s
    else
      var snap := s.phase.snap;
      var stopped := Stop(s.pool);
      if group * Active(stopped) != {} then Fail(s, GpuOverlap)
      else
        s.(phase := Serving,
           engine := Engine(snap.tokens, [], snap.remaining, false),
           queue := [],
           request := s.request + 1,
           meter := FRESH_METER,
           carried := snap.clientPrefix,
           delivered := s.delivered + Offset(|s.carried|, snap.partial),
           segments := s.segments + [snap.newOutput],
           pool := stopped + [PoolWorker(group, false)])
  }

  function Stop(pool: seq<PoolWorker>): (r: seq<PoolWorker>) {
    if pool == [] then [] else pool[|pool| - 1 := pool[|pool| - 1].(closed := true)]
  }

  function FinishStep(cfg: Config, s: State): State {
    if !s.phase.Returned? || s.engine.paused then s
    else
      var combined := s.carried + s.phase.output;
      var counts := s.delivered + Offset(|s.carried|, s.meter.deliveries);
      if combined != cfg.Reference() || |combined| != cfg.n then Fail(s, SequenceMismatch)
      else if !CountsComplete(counts, cfg.n) then Fail(s, DeliveryCounts)
      else
        s.(phase := Serving,
           engine := Engine(cfg.prompt, [], cfg.n, false),
           request := s.request + 1,
           meter := FRESH_METER,
           carried := [], delivered := [], segments := [],
           served := s.served + [Served(combined, counts, s.segments + [s.phase.output])])
  }

  /** One step; an action that is not enabled changes nothing. */
  function Step(cfg: Config, s: State, a: Action): State {
    if s.status.Failed? then s
    else
      match a
      case Decode =>
        if s.engine.paused || |s.engine.out| >= s.engine.budget then s
        else s.(engine := s.engine.(out := s.engine.out + [cfg.next(s.engine.prompt + s.engine.out)]))
      case Emit =>
        var out := s.engine.out;
        s.(queue := s.queue + [Event(Output, Some(s.request), |out|, out, |out| == s.engine.budget)])
      case Arrive(e) => if e.kind.Output? then s else s.(queue := s.queue + [e])
      case Deliver => DeliverStep(s)
      case Pause => s.(engine := s.engine.(paused := true))
      case Freeze(seen) => FreezeStep(cfg, s, seen)
      case Handoff(group) => HandoffStep(s, group)
      case Finish => FinishStep(cfg, s)
  }

  function Run(cfg: Config, group: set<nat>, actions: seq<Action>): State {
    if actions == [] then Init(cfg, group)
    else Step(cfg, Run(cfg, group, actions[..|actions| - 1]), actions[|actions| - 1])
  }

  // ---------------------------------------------------------------------
  // Delivery counts
  // ---------------------------------------------------------------------

  /** `counts` climbs strictly from just above `from` up to `to`; it is empty
      exactly when there is nothing to climb. */
  predicate Climbs(counts: seq<nat>, from: nat, to: nat) {
    if counts == [] then from == to
    else from < counts[0] && Climbs(counts[1..], counts[0], to)
  }

  lemma {:induction false} ClimbsConcat(a: seq<nat>, b: seq<nat>, x: nat, y: nat, z: nat)
    requires Climbs(a, x, y) && Climbs(b, y, z)
    ensures Climbs(a + b, x, z)
  {
    if a == [] {
      assert a + b == b;
    } else {
      ClimbsConcat(a[1..], b, a[0], y, z);
      assert (a + b)[1..] == a[1..] + b;
    }
  }

  lemma {:induction false} ClimbsOffset(base: nat, counts: seq<nat>, from: nat, to: nat)
    requires Climbs(counts, from, to)
    ensures Climbs(Offset(base, counts), base + from, base + to)
  {
    if counts != [] {
      ClimbsOffset(base, counts[1..], counts[0], to);
      assert Offset(base, counts)[1..] == Offset(base, counts[1..]);
    }
  }

  lemma {:induction false} ClimbsComplete(counts: seq<nat>, from: nat, to: nat)
    requires Climbs(counts, from, to) && from < to
    ensures CountsComplete(counts, to) && counts[0] > from
  {
    if |counts| > 1 {
      ClimbsBound(counts[1..], counts[0], to);
      ClimbsComplete(counts[1..], counts[0], to);
      forall i | 0 <= i < |counts| - 1 ensures counts[i] < counts[i + 1] {
        if i > 0 {
          assert counts[i] == counts[1..][i - 1] && counts[i + 1] == counts[1..][i];
        }
      }
    }
  }

  lemma {:induction false} ClimbsBound(counts: seq<nat>, from: nat, to: nat)
    requires Climbs(counts, from, to)
    ensures from <= to && (counts != [] ==> from < to)
  {
    if counts != [] {
      ClimbsBound(counts[1..], counts[0], to);
    }
  }

  // ---------------------------------------------------------------------
  // Invariant
  // ---------------------------------------------------------------------

  function Flatten(segments: seq<seq<Token>>): seq<Token> {
    if segments == [] then [] else Flatten(segments[..|segments| - 1]) + segments[|segments| - 1]
  }

  /** The carried prefix is a proper prefix of the reference and the engine is
      continuing exactly from it. */
  predicate EngineOk(cfg: Config, carried: seq<Token>, e: Engine) {
    && |carried| < cfg.n
    && carried == Generate(cfg.next, cfg.prompt, |carried|)
    && e.prompt == cfg.prompt + carried
    && e.budget == cfg.n - |carried|
    && |e.out| <= e.budget
    && e.out == Generate(cfg.next, e.prompt, |e.out|)
  }

  predicate EventOk(e: Event, eng: Engine) {
    && e.tokens <= eng.out
    && e.generated == |e.tokens|
    && (e.finished <==> |e.tokens| == eng.budget)
  }

  /** Queued outputs of the current request are prefixes of the engine output
      of non-falling length, none shorter than what was consumed; no output
      belongs to a later request. */
  predicate QueueOk(queue: seq<Event>, request: RequestId, eng: Engine, seen: nat) {
    && (forall e | e in queue && e.kind.Output? :: e.request.Some? && e.request.value <= request)
    && (forall e | e in queue && Outputs(request).Matches(e) :: EventOk(e, eng) && seen <= |e.tokens|)
    && (forall i, j | 0 <= i < j < |queue| && Outputs(request).Matches(queue[i]) && Outputs(request).Matches(queue[j]) ::
          |queue[i].tokens| <= |queue[j].tokens|)
  }

  /** Seen tokens, count, visible tokens and recorded deliveries agree. */
  predicate MeterOk(m: Meter, out: seq<Token>) {
    && m.previous <= out
    && m.count == |m.previous|
    && m.visible == m.previous
    && Climbs(m.deliveries, 0, m.count)
  }

  predicate PhaseOk(cfg: Config, s: State) {
    match s.phase
    case Serving => true
    case Returned(output) =>
      && |s.engine.out| == s.engine.budget
      && output == s.engine.out
      && s.meter.count == s.engine.budget
    case Frozen(snap) =>
      && s.engine.paused
      && SnapOk(cfg, s.carried, s.engine.out, snap)
  }

  /** The snapshot holds exactly what was committed and what is missing. */
  predicate SnapOk(cfg: Config, carried: seq<Token>, out: seq<Token>, snap: Snapshot) {
    && 0 < |carried + out| < cfg.n
    && snap.tokens == cfg.prompt + (carried + out)
    && snap.newOutput == out
    && snap.remaining == cfg.n - |carried + out|
    && snap.clientPrefix == carried + out
    && Climbs(snap.partial, 0, |out|)
  }

  /** What the recovery protocol promises about a finished request. */
  predicate ServedOk(cfg: Config, r: Served) {
    && r.output == cfg.Reference()
    && Flatten(r.segments) == cfg.Reference()
    && CountsComplete(r.counts, cfg.n)
  }

  predicate PoolOk(pool: seq<PoolWorker>) {
    pool != [] && forall i | 0 <= i < |pool| - 1 :: pool[i].closed
  }

  predicate Inv(cfg: Config, s: State) {
    && EngineOk(cfg, s.carried, s.engine)
    && QueueOk(s.queue, s.request, s.engine, |s.meter.previous|)
    && MeterOk(s.meter, s.engine.out)
    && Climbs(s.delivered, 0, |s.carried|)
    && Flatten(s.segments) == s.carried
    && PhaseOk(cfg, s)
    && PoolOk(s.pool)
    && forall r | r in s.served :: ServedOk(cfg, r)
  }

  /** The failures that come from outside the protocol; no other can occur. */
  const EXTERNAL := {WorkerFault, NotMidGeneration, NoKvBlocks, RoutesInvalid}

  /** The revocations that the protocol can survive. */
  predicate MidGeneration(cfg: Config, s: State) {
    0 < |s.carried| + |s.engine.out| < cfg.n
  }

  /** A `Freeze` in this state takes a snapshot. */
  predicate Snapshots(s: State) {
    s.status.Running? && s.engine.paused && !s.phase.Frozen?
  }

  predicate FaultFree(queue: seq<Event>) {
    forall e | e in queue :: !e.Raises()
  }

  // ---------------------------------------------------------------------
  // Every step keeps the invariant
  // ---------------------------------------------------------------------

  lemma {:induction false} DecodeKeeps(cfg: Config, s: State)
    requires s.status.Running? && Inv(cfg, s)
    ensures Inv(cfg, Step(cfg, s, Decode))
    ensures Step(cfg, s, Decode).status.Running?
  {
    var s' := Step(cfg, s, Decode);
    if s' != s {
      assert s.engine.out <= s'.engine.out;
      assert s'.engine.out == Generate(cfg.next, s.engine.prompt, |s'.engine.out|);
      forall e | e in s.queue && Outputs(s.request).Matches(e) ensures EventOk(e, s'.engine) {
        assert EventOk(e, s.engine);
      }
    }
  }

  lemma {:induction false} EmitKeeps(cfg: Config, s: State)
    requires s.status.Running? && Inv(cfg, s)
    ensures Inv(cfg, Step(cfg, s, Emit)) && Step(cfg, s, Emit).status.Running?
  {
  }

  lemma {:induction false} ArriveKeeps(cfg: Config, s: State, e: Event)
    requires s.status.Running? && Inv(cfg, s)
    ensures Inv(cfg, Step(cfg, s, Action.Arrive(e)))
    ensures Step(cfg, s, Action.Arrive(e)).status.Running?
  {
  }

  /** Consuming one output event never trips the stream checks. */
  lemma {:induction false} DeliverKeeps(cfg: Config, s: State)
    requires s.status.Running? && Inv(cfg, s)
    ensures var s' := Step(cfg, s, Deliver);
            && Inv(cfg, s')
            && (s'.status.Running? || s'.status.failure == WorkerFault)
            && (FaultFree(s.queue) ==> s'.status.Running?)
  {
    var sel := Outputs(s.request);
    var i := FirstHit(s.queue, sel);
    if !s.phase.Returned? && i < |s.queue| && !s.queue[i].Raises() {
      DeliverTakes(s, i);
      AbsorbKeeps(s.meter, s.queue[i], s.engine.out);
      RemoveKeeps(s.queue, i, s.request, s.engine, |s.meter.previous|);
    }
  }

  /** The event that is taken passes the stream and length checks. */
  lemma DeliverTakes(s: State, i: nat)
    requires !s.phase.Returned? && QueueOk(s.queue, s.request, s.engine, |s.meter.previous|) && MeterOk(s.meter, s.engine.out)
    requires i == FirstHit(s.queue, Outputs(s.request)) && i < |s.queue| && !s.queue[i].Raises()
    ensures var e := s.queue[i];
            && EventOk(e, s.engine) && StreamUpdateOk(s.meter.previous, e)
            && DeliverStep(s) == s.(queue := s.queue[..i] + s.queue[i + 1..], meter := Absorb(s.meter, e),
                                    phase := if e.finished && s.phase.Serving? then Returned(e.tokens) else s.phase)
  {
    var e := s.queue[i];
    assert e in s.queue && Outputs(s.request).Matches(e);
  }

  lemma AbsorbKeeps(m: Meter, e: Event, out: seq<Token>)
    requires MeterOk(m, out) && e.tokens <= out && StreamUpdateOk(m.previous, e)
    ensures MeterOk(Absorb(m, e), out) && Absorb(m, e).previous == e.tokens
  {
    if e.generated > m.count {
      assert Climbs([e.generated][1..], e.generated, e.generated);
      ClimbsConcat(m.deliveries, [e.generated], 0, m.count, e.generated);
    } else {
      assert e.tokens == m.previous;
    }
  }

  /** The meter after arbitrary output events of one measurement. */
  function Absorbed(events: seq<Event>): Result<Meter, Failure> {
    if events == [] then Ok(FRESH_METER)
    else
      match Absorbed(events[..|events| - 1])
      case Err(failure) => Err(failure)
      case Ok(m) =>
        var e := events[|events| - 1];
        if StreamUpdateOk(m.previous, e) then Ok(Absorb(m, e)) else Err(StreamRevised)
  }

  /** Each event carries its own count and extends all earlier ones. */
  predicate GrowingPrefixes(events: seq<Event>) {
    && (forall i | 0 <= i < |events| :: |events[i].tokens| == events[i].generated)
    && (forall i, j | 0 <= i < j < |events| :: events[i].tokens <= events[j].tokens)
  }

  /** The stream checks accept exactly the streams of growing prefixes, whoever
      produced them, and then visible tokens and recorded counts agree with the
      last event: counts climb strictly from nothing to all its tokens. */
  lemma {:induction false} StreamChecksExact(events: seq<Event>)
    ensures Absorbed(events).Ok? <==> GrowingPrefixes(events)
    ensures Absorbed(events).Ok? ==>
              var m := Absorbed(events).value;
              MeterOk(m, m.previous) && m.previous == if events == [] then [] else events[|events| - 1].tokens
  {
    if events != [] {
      var front, e := events[..|events| - 1], events[|events| - 1];
      StreamChecksExact(front);
      if Absorbed(front).Ok? {
        var m := Absorbed(front).value;
        GrowingAppend(front, e);
        assert events == front + [e];
        if StreamUpdateOk(m.previous, e) {
          AbsorbKeeps(m, e, e.tokens);
        }
      } else if GrowingPrefixes(events) {
        assert GrowingPrefixes(front);
      }
    }
  }

  /** The recorded counts of any accepted stream are exactly the positive lengths
      of its events. */
  lemma {:induction false} DeliveriesExact(events: seq<Event>, k: nat)
    requires Absorbed(events).Ok?
    ensures k in Absorbed(events).value.deliveries
       <==> k > 0 && exists i | 0 <= i < |events| :: |events[i].tokens| == k
  {
    if events != [] {
      var front, e := events[..|events| - 1], events[|events| - 1];
      DeliveriesExact(front, k);
      StreamChecksExact(front);
      assert forall i | 0 <= i < |front| :: front[i] == events[i];
      assert |events[|front|].tokens| == |e.tokens|;
      var m := Absorbed(front).value;
      if e.generated == m.count && front != [] {
        assert |front[|front| - 1].tokens| == m.count;
      }
    }
  }

  lemma GrowingAppend(events: seq<Event>, e: Event)
    requires GrowingPrefixes(events)
    ensures GrowingPrefixes(events + [e])
       <==> StreamUpdateOk(if events == [] then [] else events[|events| - 1].tokens, e)
  {
    var more, previous := events + [e], if events == [] then [] else events[|events| - 1].tokens;
    if GrowingPrefixes(more) {
      assert |more[|events|].tokens| == more[|events|].generated;
      if events != [] {
        assert more[|events| - 1].tokens <= more[|events|].tokens;
      }
    }
    if StreamUpdateOk(previous, e) {
      forall i, j | 0 <= i < j < |more| ensures more[i].tokens <= more[j].tokens {
        if j == |events| {
          assert events[i].tokens <= previous <= e.tokens;
        }
      }
    }
  }

  lemma RemoveKeeps(queue: seq<Event>, i: nat, request: RequestId, eng: Engine, seen: nat)
    requires i < |queue| && QueueOk(queue, request, eng, seen)
    requires Outputs(request).Matches(queue[i])
    requires forall j | 0 <= j < i :: !Outputs(request).Matches(queue[j])
    ensures QueueOk(queue[..i] + queue[i + 1..], request, eng, |queue[i].tokens|)
  {
    var rest := queue[..i] + queue[i + 1..];
    forall k | 0 <= k < |rest|
      ensures rest[k] in queue
      ensures Outputs(request).Matches(rest[k]) ==> k >= i && |queue[i].tokens| <= |rest[k].tokens|
    {
      assert rest[k] == if k < i then queue[k] else queue[k + 1];
    }
  }

  /** The back-fill entry completes the climb of the delivery counts. */
  lemma BackfillClimbs(m: Meter, out: seq<Token>)
    requires MeterOk(m, out)
    ensures Climbs(if |m.visible| == |out| then m.deliveries else m.deliveries + [|out|], 0, |out|)
  {
    if |m.visible| < |out| {
      assert Climbs([|out|][1..], |out|, |out|);
      ClimbsConcat(m.deliveries, [|out|], 0, m.count, |out|);
    }
  }

  /** The outcomes of a snapshot, for an engine that continues the reference. */
  lemma {:induction false} SnapshotOutcome(cfg: Config, carried: seq<Token>, e: Engine, m: Meter, seen: Observed)
    requires EngineOk(cfg, carried, e) && MeterOk(m, e.out)
    ensures var r := EngineSnapshot(cfg, carried, e, m, seen);
            if !(0 < |carried| + |e.out| < cfg.n) then r == Err(NotMidGeneration)
            else if seen.kvBlocks == 0 then r == Err(NoKvBlocks)
            else if !RoutesOk(seen.routes) then r == Err(RoutesInvalid)
            else r.Ok? && SnapOk(cfg, carried, e.out, r.value)
                 && r.value.partial == if |m.visible| == |e.out| then m.deliveries else m.deliveries + [|e.out|]
  {
    var full := carried + e.out;
    if 0 < |full| < cfg.n {
      GenerateReplay(cfg.next, cfg.prompt, |carried|, |e.out|);
      GeneratePrefix(cfg.next, cfg.prompt, |full|, cfg.n);
      assert e.prompt + e.out == cfg.prompt + full;
      assert carried + m.visible <= full;
      BackfillExact(full, carried + m.visible);
      BackfillClimbs(m, e.out);
    }
  }

  /** A snapshot fails exactly when the request has produced nothing yet or
      everything already, or the engine reports no KV blocks or bad routes; no
      check of the tokens can fail. */
  lemma {:induction false} FreezeExact(cfg: Config, s: State, seen: Observed)
    requires s.status.Running? && Inv(cfg, s)
    requires s.engine.paused && !s.phase.Frozen? && FaultFree(s.queue)
    ensures var s' := Step(cfg, s, Freeze(seen));
            && (MidGeneration(cfg, s) && seen.Good() ==> s'.status.Running? && s'.phase.Frozen?)
            && (!MidGeneration(cfg, s) ==> s'.status == Failed(NotMidGeneration))
            && (MidGeneration(cfg, s) && seen.kvBlocks == 0 ==> s'.status == Failed(NoKvBlocks))
            && (MidGeneration(cfg, s) && seen.kvBlocks > 0 && !RoutesOk(seen.routes) ==> s'.status == Failed(RoutesInvalid))
            && Inv(cfg, s')
  {
    SnapshotOutcome(cfg, s.carried, s.engine, s.meter, seen);
  }

  /** The handoff installs exactly the frozen prefix and asks for exactly the
      missing tokens; the new worker never shares a GPU with an open one. */
  lemma {:induction false} HandoffKeeps(cfg: Config, s: State, group: set<nat>)
    requires s.status.Running? && Inv(cfg, s)
    ensures Inv(cfg, Step(cfg, s, Handoff(group)))
    ensures Step(cfg, s, Handoff(group)).status.Running?
  {
    if s.phase.Frozen? {
      var snap := s.phase.snap;
      NoneActive(Stop(s.pool));
      GenerateReplay(cfg.next, cfg.prompt, |s.carried|, |s.engine.out|);
      ClimbsOffset(|s.carried|, snap.partial, 0, |s.engine.out|);
      ClimbsConcat(s.delivered, Offset(|s.carried|, snap.partial), 0, |s.carried|, |s.carried| + |s.engine.out|);
      FlattenAppend(s.segments, snap.newOutput);
    }
  }

  /** The final sequence and delivery-count checks are implied. */
  lemma {:induction false} FinishKeeps(cfg: Config, s: State)
    requires s.status.Running? && Inv(cfg, s)
    ensures Inv(cfg, Step(cfg, s, Finish))
    ensures Step(cfg, s, Finish).status.Running?
  {
    if s.phase.Returned? && !s.engine.paused {
      FinalChecksPass(cfg, s);
      assert Step(cfg, s, Finish).engine.prompt == cfg.prompt + [];
    }
  }

  lemma {:induction false} FinalChecksPass(cfg: Config, s: State)
    requires Inv(cfg, s) && s.phase.Returned?
    ensures s.carried + s.phase.output == cfg.Reference()
    ensures Flatten(s.segments + [s.phase.output])
         == cfg.Reference()
    ensures CountsComplete(s.delivered + Offset(|s.carried|, s.meter.deliveries), cfg.n)
  {
    GenerateReplay(cfg.next, cfg.prompt, |s.carried|, s.engine.budget);
    var last := Offset(|s.carried|, s.meter.deliveries);
    ClimbsOffset(|s.carried|, s.meter.deliveries, 0, s.engine.budget);
    ClimbsConcat(s.delivered, last, 0, |s.carried|, cfg.n);
    ClimbsComplete(s.delivered + last, 0, cfg.n);
    FlattenAppend(s.segments, s.phase.output);
  }

  lemma FlattenAppend(segments: seq<seq<Token>>, last: seq<Token>)
    ensures Flatten(segments + [last])
         == Flatten(segments) + last
  {
    assert (segments + [last])[..|segments|] == segments;
  }

  lemma {:induction false} StepKeeps(cfg: Config, s: State, a: Action)
    requires s.status.Running? && Inv(cfg, s)
    ensures var s' := Step(cfg, s, a);
            && Inv(cfg, s')
            && (s'.status.Running? || s'.status.failure in EXTERNAL)
            && (FaultFree(s.queue) ==> (s'.status.Running? <==> (a.Freeze? && Snapshots(s) ==> MidGeneration(cfg, s) && a.seen.Good())))
  {
    match a
    case Decode => DecodeKeeps(cfg, s);
    case Emit => EmitKeeps(cfg, s);
    case Arrive(e) => ArriveKeeps(cfg, s, e);
    case Deliver => DeliverKeeps(cfg, s);
    case Pause => PauseKeeps(cfg, s);
    case Freeze(seen) =>
      if Snapshots(s) && FaultFree(s.queue) {
        FreezeExact(cfg, s, seen);
      }
    case Handoff(group) => HandoffKeeps(cfg, s, group);
    case Finish => FinishKeeps(cfg, s);
  }

  lemma PauseKeeps(cfg: Config, s: State)
    requires s.status.Running? && Inv(cfg, s)
    ensures Inv(cfg, Step(cfg, s, Pause)) && Step(cfg, s, Pause).status.Running?
  {
  }

  /** Only arrivals can bring a fault into the queue. */
  lemma QueueStaysFaultFree(cfg: Config, s: State, a: Action)
    requires FaultFree(s.queue) && (a.Arrive? ==> !a.event.Raises())
    ensures FaultFree(Step(cfg, s, a).queue)
  {
  }

  // ---------------------------------------------------------------------
  // Whole runs
  // ---------------------------------------------------------------------

  /** Replay transparency. On every interleaving of decoding, late delivery,
      any number of revocations, handoffs and further requests, every request
      that completes gave the client exactly the uninterrupted reference, each
      token once, with strictly increasing delivery counts ending at `n`. The
      run can stop early only because the worker failed, its engine reported no
      KV blocks or bad routes, or a revocation hit a request outside
      generation. */
  lemma {:induction false} ReplayIsTransparent(cfg: Config, group: set<nat>, actions: seq<Action>)
    requires cfg.n > 0
    ensures var s := Run(cfg, group, actions);
            && (s.status.Running? || s.status.failure in EXTERNAL)
            && (forall r | r in s.served :: ServedOk(cfg, r))
            && Inv(cfg, s)
  {
    if actions == [] {
      assert Init(cfg, group).engine.prompt == cfg.prompt + [];
    } else {
      ReplayIsTransparent(cfg, group, actions[..|actions| - 1]);
      var s := Run(cfg, group, actions[..|actions| - 1]);
      if s.status.Running? {
        StepKeeps(cfg, s, actions[|actions| - 1]);
      }
    }
  }

  /** Every snapshot of the run is taken in the middle of generation, with KV
      blocks and acceptable routes. */
  predicate Survivable(cfg: Config, group: set<nat>, actions: seq<Action>) {
    actions != [] ==>
      var front, a := actions[..|actions| - 1], actions[|actions| - 1];
      && Survivable(cfg, group, front)
      && (a.Freeze? && Snapshots(Run(cfg, group, front)) ==> MidGeneration(cfg, Run(cfg, group, front)) && a.seen.Good())
  }

  /** No fatal or generation-error event arrives. */
  predicate NoFaults(actions: seq<Action>) {
    forall a | a in actions && a.Arrive? :: !a.event.Raises()
  }

  /** Without worker faults, the runtime checks of the protocol all pass exactly
      when every revocation hits a request in the middle of generation for which
      the engine reports KV blocks and acceptable routes. */
  lemma {:induction false} SurvivesExactly(cfg: Config, group: set<nat>, actions: seq<Action>)
    requires cfg.n > 0 && NoFaults(actions)
    ensures Run(cfg, group, actions).status.Running?
       <==> Survivable(cfg, group, actions)
    ensures FaultFree(Run(cfg, group, actions).queue)
  {
    if actions != [] {
      var front, a := actions[..|actions| - 1], actions[|actions| - 1];
      assert a in actions && forall x | x in front :: x in actions;
      SurvivesExactly(cfg, group, front);
      ReplayIsTransparent(cfg, group, front);
      if Run(cfg, group, front).status.Running? {
        StepKeeps(cfg, Run(cfg, group, front), a);
        QueueStaysFaultFree(cfg, Run(cfg, group, front), a);
      }
    }
  }

  /** A revocation that arrives before the first token is not survivable. */
  lemma EarlyRevocationFails(cfg: Config, group: set<nat>, seen: Observed)
    requires cfg.n > 0
    ensures Run(cfg, group, [Pause, Freeze(seen)]).status
         == Failed(NotMidGeneration)
  {
    assert [Pause, Freeze(seen)][..1] == [Pause];
    assert Run(cfg, group, [Pause]) == Step(cfg, Init(cfg, group), Pause) by {
      assert [Pause][..0] == [];
    }
  }

  /** At most one worker is open, so GPU ownership stays exclusive. */
  lemma OwnershipStaysExclusive(cfg: Config, group: set<nat>, actions: seq<Action>)
    requires cfg.n > 0
    ensures Exclusive(Run(cfg, group, actions).pool)
  {
    ReplayIsTransparent(cfg, group, actions);
  }

  /** The GPU group that serves: the one of the last handoff of a frozen
      request, or the first one. */
  function Holder(cfg: Config, group: set<nat>, actions: seq<Action>): set<nat> {
    if actions == [] then group
    else
      var front, a := actions[..|actions| - 1], actions[|actions| - 1];
      var s := Run(cfg, group, front);
      if a.Handoff? && s.status.Running? && s.phase.Frozen? then a.group else Holder(cfg, group, front)
  }

  predicate LastHolds(pool: seq<PoolWorker>, group: set<nat>) {
    PoolOk(pool) && pool[|pool| - 1] == PoolWorker(group, false)
  }

  lemma {:induction false} LastIsActive(pool: seq<PoolWorker>, group: set<nat>)
    requires LastHolds(pool, group)
    ensures Active(pool) == group
  {
    forall g ensures g in Active(pool) <==> g in group {
      ActiveMembers(pool, g);
    }
  }

  /** On every run the GPUs in use are exactly those of the serving group. */
  lemma {:induction false} ServingGroupHolds(cfg: Config, group: set<nat>, actions: seq<Action>)
    requires cfg.n > 0
    ensures LastHolds(Run(cfg, group, actions).pool, Holder(cfg, group, actions))
    ensures Active(Run(cfg, group, actions).pool)
         == Holder(cfg, group, actions)
  {
    if actions != [] {
      var front, a := actions[..|actions| - 1], actions[|actions| - 1];
      var s := Run(cfg, group, front);
      ServingGroupHolds(cfg, group, front);
      ReplayIsTransparent(cfg, group, front);
      if s.status.Running? {
        StepPool(cfg, s, a, Holder(cfg, group, front));
      }
    }
    LastIsActive(Run(cfg, group, actions).pool, Holder(cfg, group, actions));
  }

  lemma {:induction false} StepPool(cfg: Config, s: State, a: Action, holder: set<nat>)
    requires s.status.Running? && Inv(cfg, s) && LastHolds(s.pool, holder)
    ensures LastHolds(Step(cfg, s, a).pool, if a.Handoff? && s.phase.Frozen? then a.group else holder)
  {
    if a.Handoff? {
      HandoffKeeps(cfg, s, a.group);
    } else {
      assert Step(cfg, s, a).pool == s.pool;
    }
  }

  /** A fault fails the run exactly when the client's wait or a snapshot meets
      it. */
  lemma {:induction false} FaultsExact(cfg: Config, s: State, seen: Observed)
    requires s.status.Running?
    ensures Step(cfg, s, Deliver).status == Failed(WorkerFault) <==>
              !s.phase.Returned? && exists i :: IsFirst(s.queue, Outputs(s.request), i) && s.queue[i].Raises()
    ensures Step(cfg, s, Freeze(seen)).status == Failed(WorkerFault) <==>
              Snapshots(s) && exists i | 0 <= i < |s.queue| :: s.queue[i].Raises()
  {
    var i := FirstHit(s.queue, Outputs(s.request));
    assert i < |s.queue| ==> IsFirst(s.queue, Outputs(s.request), i);
    forall j | IsFirst(s.queue, Outputs(s.request), j) ensures i == j {
    }
    if exists e | e in s.queue :: e.Raises() {
      var e :| e in s.queue && e.Raises();
      var j :| 0 <= j < |s.queue| && s.queue[j] == e;
    }
  }

  lemma {:induction false} SegmentLengths(segments: seq<seq<Token>>)
    ensures |Flatten(segments)| == SumLengths(segments)
  {
    if segments != [] {
      SegmentLengths(segments[..|segments| - 1]);
    }
  }

  function SumLengths(segments: seq<seq<Token>>): nat {
    if segments == [] then 0 else SumLengths(segments[..|segments| - 1]) + |segments[|segments| - 1]|
  }

  /** Segment lengths of a served request sum to exactly `n`. */
  lemma SegmentsSumToN(cfg: Config, group: set<nat>, actions: seq<Action>, r: Served)
    requires cfg.n > 0 && r in Run(cfg, group, actions).served
    ensures SumLengths(r.segments) == cfg.n
  {
    ReplayIsTransparent(cfg, group, actions);
    SegmentLengths(r.segments);
  }
}
