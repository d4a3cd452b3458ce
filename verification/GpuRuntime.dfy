/** The host side of a GPU worker: stream books, snapshots, GPU ownership. */
module GpuRuntime {
  import opened Decoding
  import opened EventQueue
  import opened Wrappers
  import RouteHistogram

  datatype Failure =
    | WorkerFault          // fatal or generation-error event
    | NotMidGeneration     // snapshot of a request with no output yet, or already complete
    | NoKvBlocks           // the engine holds no KV blocks for the request
    | RoutesInvalid        // the expert routes of the request are not acceptable
    | SnapshotIncorrect    // frozen tokens differ from prompt, prefix or reference
    | BackfillMismatch     // the client saw tokens the engine did not commit
    | StreamRevised        // streamed count or prefix is inconsistent
    | PartialOutput        // finished with fewer tokens than requested
    | SequenceMismatch     // combined client sequence differs from the reference
    | DeliveryCounts       // counts duplicated, revised or incomplete
    | GpuOverlap           // two open workers on one GPU

  // ---------------------------------------------------------------------
  // Stream bookkeeping of `measure`
  // ---------------------------------------------------------------------

  /** What one measurement has accumulated: the last cumulative tokens, the
      largest count, what the client can see, and the recorded delivery counts. */
  datatype Meter = Meter(previous: seq<Token>, count: nat, visible: seq<Token>, deliveries: seq<nat>)

  const FRESH_METER := Meter([], 0, [], [])

  /** No revised tokens, falling counts or truncated chunks. */
  predicate StreamUpdateOk(previous: seq<Token>, e: Event) {
    && e.generated >= |previous|
    && |e.tokens| == e.generated
    && e.tokens[..|previous|] == previous
  }

  function Absorb(m: Meter, e: Event): Meter
    requires StreamUpdateOk(m.previous, e)
  {
    if e.generated > m.count
    then Meter(e.tokens, e.generated, e.tokens, m.deliveries + [e.generated])
    else m.(previous := e.tokens)
  }

  // ---------------------------------------------------------------------
  // Snapshots
  // ---------------------------------------------------------------------

  /** What the engine reports about a paused request. */
  datatype EngineReport = EngineReport(found: bool, prompt: seq<Token>, tokens: seq<Token>, output: seq<Token>,
                                       kvBlocks: nat, routes: RouteHistogram.Metadata)

  /** Shape of the served checkpoint. */
  const LAYERS: nat := 32
  const EXPERTS: nat := 40
  const TOP_K: nat := 8

  predicate RoutesOk(m: RouteHistogram.Metadata) {
    RouteHistogram.RoutesOk(m, LAYERS, EXPERTS, TOP_K)
  }

  datatype Snapshot = Snapshot(
    tokens: seq<Token>,         // prompt and generated prefix, to be installed on the next worker
    newOutput: seq<Token>,      // what this segment generated
    remaining: nat,             // tokens still to generate
    clientPrefix: seq<Token>,
    pending: seq<Token>,        // back-filled tokens
    partial: seq<nat>)          // delivery counts of this segment, back-fill included

  /** Completes the client-visible tokens from the frozen output. */
  function Backfill(actual: seq<Token>, visible: seq<Token>): Result<(seq<Token>, seq<Token>), Failure> {
    if |visible| <= |actual| && actual[..|visible|] == visible
    then Ok((visible + actual[|visible|..], actual[|visible|..]))
    else Err(BackfillMismatch)
  }

  function TakeSnapshot(prompt: seq<Token>, carried: seq<Token>, reference: seq<Token>, n: nat,
                        report: EngineReport, m: Meter): Result<Snapshot, Failure>
  {
    var full := carried + report.output;
    if !(0 < |full| < n) then Err(NotMidGeneration)
    else if || !report.found
            || report.prompt != prompt + carried
            || report.tokens != prompt + full
            || |full| > |reference|
            || full != reference[..|full|] then Err(SnapshotIncorrect)
    else if report.kvBlocks == 0 then Err(NoKvBlocks)
    else
      match Backfill(full, carried + m.visible)
      case Err(failure) => Err(failure)
      case Ok((client, pending)) =>
        if !RoutesOk(report.routes) then Err(RoutesInvalid)
        else Ok(Snapshot(prompt + full, report.output, n - |full|, client, pending,
                    if pending == [] then m.deliveries else m.deliveries + [|report.output|]))
  }

  /** Back-filling returns exactly the committed output, split at what the
      client had already seen, and it fails exactly when the client saw
      something that was not committed. */
  lemma BackfillExact(actual: seq<Token>, visible: seq<Token>)
    ensures Backfill(actual, visible).Ok? <==> visible <= actual
    ensures visible <= actual ==>
              && Backfill(actual, visible).value.0 == actual
              && visible + Backfill(actual, visible).value.1 == actual
  {
    if visible <= actual {
      assert visible + actual[|visible|..] == actual;
    }
  }

  /** Whatever an engine reports, a snapshot is accepted exactly when the request
      was found with KV blocks and acceptable routes, and the report continues the
      prompt by a proper, non-empty prefix of the reference that
      extends what the client has; it then carries exactly that prefix. */
  lemma SnapshotExact(prompt: seq<Token>, carried: seq<Token>, reference: seq<Token>, n: nat, report: EngineReport, m: Meter)
    ensures var full := carried + report.output;
            var r := TakeSnapshot(prompt, carried, reference, n, report, m);
            && (r.Ok? <==>
                  && report.found && report.kvBlocks > 0 && RoutesOk(report.routes)
                  && report.prompt == prompt + carried && report.tokens == prompt + full
                  && 0 < |full| < n && full <= reference && carried + m.visible <= full)
            && (r.Ok? ==>
                  && r.value.clientPrefix == full && r.value.tokens == report.tokens
                  && |r.value.clientPrefix| + r.value.remaining == n
                  && carried + m.visible + r.value.pending == full)
  {
    BackfillExact(carried + report.output, carried + m.visible);
  }

  // ---------------------------------------------------------------------
  // GPU ownership
  // ---------------------------------------------------------------------

  datatype PoolWorker = PoolWorker(group: set<nat>, closed: bool)

  /** GPUs of the workers that are not closed. */
  function Active(workers: seq<PoolWorker>): set<nat> {
    if workers == [] then {}
    else (if workers[0].closed then {} else workers[0].group) + Active(workers[1..])
  }

  /** No GPU belongs to two open workers. */
  predicate Exclusive(workers: seq<PoolWorker>) {
    forall i, j | 0 <= i < j < |workers| ::
      workers[i].closed || workers[j].closed || workers[i].group !! workers[j].group
  }

  lemma {:induction false} ActiveMembers(workers: seq<PoolWorker>, g: nat)
    ensures g in Active(workers) <==> exists i | 0 <= i < |workers| :: !workers[i].closed && g in workers[i].group
  {
    if workers != [] {
      ActiveMembers(workers[1..], g);
      if g in Active(workers[1..]) {
        var i :| 0 <= i < |workers[1..]| && !workers[1..][i].closed && g in workers[1..][i].group;
        assert workers[i + 1] == workers[1..][i];
      }
      if exists i | 0 <= i < |workers| :: !workers[i].closed && g in workers[i].group {
        var i :| 0 <= i < |workers| && !workers[i].closed && g in workers[i].group;
        if i > 0 {
          assert workers[1..][i - 1] == workers[i];
        }
      }
    }
  }

  lemma LaunchKeepsExclusive(workers: seq<PoolWorker>, group: set<nat>)
    requires Exclusive(workers) && group !! Active(workers)
    ensures Exclusive(workers + [PoolWorker(group, false)])
  {
    forall i | 0 <= i < |workers| && !workers[i].closed ensures workers[i].group !! group {
      forall g | g in workers[i].group ensures g !in group {
        ActiveMembers(workers, g);
      }
    }
  }

  lemma {:induction false} NoneActive(workers: seq<PoolWorker>)
    requires forall w | w in workers :: w.closed
    ensures Active(workers) == {}
  {
    if workers != [] {
      NoneActive(workers[1..]);
    }
  }

  class GPUPool {
    var workers: seq<PoolWorker>

    constructor ()
      ensures workers == []
    {
      workers := [];
    }

    /** Launching is refused exactly when a requested GPU is still in use, and
        an accepted launch keeps GPU ownership exclusive. */
    method Launch(group: set<nat>) returns (ok: bool)
      requires Exclusive(workers)
      modifies this
      ensures Exclusive(workers)
      ensures ok <==> group !! old(Active(workers))
      ensures workers == if ok then old(workers) + [PoolWorker(group, false)] else old(workers)
    {
      var active: set<nat> := {};
      var i := |workers|;
      while i > 0
        invariant 0 <= i <= |workers|
        invariant active == Active(workers[i..])
      {
        i := i - 1;
        assert workers[i..][1..] == workers[i + 1..];
        if !workers[i].closed {
          active := workers[i].group + active;
        }
      }
      assert workers[0..] == workers;
      ok := group !! active;
      if ok {
        LaunchKeepsExclusive(workers, group);
        workers := workers + [PoolWorker(group, false)];
      }
    }

    /** Closing a worker releases its GPUs and touches no other worker. */
    method CloseWorker(i: nat)
      requires i < |workers| && Exclusive(workers)
      modifies this
      ensures Exclusive(workers)
      ensures workers == old(workers)[i := old(workers)[i].(closed := true)]
    {
      workers := workers[i := workers[i].(closed := true)];
    }

    /** Closes every worker, last launched first. */
    method Close()
      requires Exclusive(workers)
      modifies this
      ensures Exclusive(workers) && Active(workers) == {}
      ensures |workers| == old(|workers|)
      ensures forall i | 0 <= i < |workers| :: workers[i].closed && workers[i].group == old(workers[i].group)
    {
      var i := |workers|;
      while i > 0
        invariant 0 <= i <= |workers| == old(|workers|)
        invariant Exclusive(workers)
        invariant forall j | 0 <= j < |workers| :: workers[j].group == old(workers[j].group)
        invariant forall j | i <= j < |workers| :: workers[j].closed
      {
        i := i - 1;
        CloseWorker(i);
      }
      NoneActive(workers);
    }
  }

  // ---------------------------------------------------------------------
  // One worker
  // ---------------------------------------------------------------------

  class GPUWorker {
    var events: seq<Event>
    var closedStream: bool
    var cancelledRequests: set<RequestId>
    var clientVisible: map<RequestId, seq<Token>>
    var liveDeliveries: map<RequestId, seq<nat>>

    function QueueView(): Queue
      reads this
    {
      Queue(events, closedStream, cancelledRequests)
    }

    constructor ()
      ensures QueueView() == Queue([], false, {}) && clientVisible == map[] && liveDeliveries == map[]
    {
      events, closedStream, cancelledRequests := [], false, {};
      clientVisible, liveDeliveries := map[], map[];
    }

    method Receive(e: Event)
      modifies this`events
      ensures events == old(events) + [e]
    {
      events := events + [e];
    }

    method CancelMeasurement(request: RequestId)
      modifies this`cancelledRequests
      ensures cancelledRequests == old(cancelledRequests) + {request}
    {
      cancelledRequests := cancelledRequests + {request};
    }

    /** One pass of `wait` while the lock is held. */
    method Wait(sel: Selector, guard: Option<RequestId>) returns (outcome: Outcome)
      modifies this`events
      ensures (outcome, QueueView()) == Poll(old(QueueView()), sel, guard)
    {
      if guard.Some? && guard.value in cancelledRequests {
        return Preempted;
      }
      var i := 0;
      while i < |events|
        invariant 0 <= i <= |events|
        invariant events == old(events)
        invariant FirstHit(events, sel) == i + FirstHit(events[i..], sel)
      {
        assert events[i..][1..] == events[i + 1..];
        if events[i].Raises() {
          return Raised(events[i]);
        }
        if sel.Matches(events[i]) {
          outcome := Got(events[i]);
          events := events[..i] + events[i + 1..];
          return;
        }
        i := i + 1;
      }
      outcome := if closedStream then StreamClosed else Blocked;
    }

    /** Body of the `measure` loop for one output event: either the event is
        refused and nothing visible changes, or the meter, the client-visible
        tokens and the recorded deliveries move together. */
    method Update(request: RequestId, m: Meter, e: Event) returns (r: Result<Meter, Failure>)
      requires request in clientVisible ==> clientVisible[request] == m.visible
      requires request in liveDeliveries && liveDeliveries[request] == m.deliveries
      requires request !in clientVisible ==> m.visible == []
      modifies this`clientVisible, this`liveDeliveries
      ensures r == if StreamUpdateOk(m.previous, e) then Ok(Absorb(m, e)) else Err(StreamRevised)
      ensures r.Err? ==> clientVisible == old(clientVisible) && liveDeliveries == old(liveDeliveries)
      ensures r.Ok? ==>
                && (if request in clientVisible then clientVisible[request] else []) == r.value.visible
                && liveDeliveries == old(liveDeliveries)[request := r.value.deliveries]
                && clientVisible.Keys <= old(clientVisible.Keys) + {request}
                && forall other | other in old(clientVisible) && other != request ::
                     other in clientVisible && clientVisible[other] == old(clientVisible[other])
    {
      if !(e.generated >= |m.previous| && |e.tokens| == e.generated && e.tokens[..|m.previous|] == m.previous) {
        return Err(StreamRevised);
      }
      var next := m.(previous := e.tokens);
      if e.generated > m.count {
        next := Meter(e.tokens, e.generated, e.tokens, m.deliveries + [e.generated]);
        clientVisible := clientVisible[request := e.tokens];
        liveDeliveries := liveDeliveries[request := next.deliveries];
      }
      return Ok(next);
    }

    /** Wall-clock snapshot of a paused request; on success its measurement is
        cancelled, on failure the worker is left as it was. */
    method SnapshotRunning(request: RequestId, prompt: seq<Token>, carried: seq<Token>, reference: seq<Token>,
                           n: nat, report: EngineReport, ghost m: Meter) returns (r: Result<Snapshot, Failure>)
      requires m.visible == if request in clientVisible then clientVisible[request] else []
      requires m.deliveries == if request in liveDeliveries then liveDeliveries[request] else []
      modifies this`cancelledRequests
      ensures r == TakeSnapshot(prompt, carried, reference, n, report, m)
      ensures cancelledRequests == if r.Ok? then old(cancelledRequests) + {request} else old(cancelledRequests)
    {
      var full := carried + report.output;
      if !(0 < |full| < n) {
        return Err(NotMidGeneration);
      }
      if !report.found || report.prompt != prompt + carried || report.tokens != prompt + full
         || |full| > |reference| || full != reference[..|full|] {
        return Err(SnapshotIncorrect);
      }
      if report.kvBlocks == 0 {
        return Err(NoKvBlocks);
      }
      var visible := carried + (if request in clientVisible then clientVisible[request] else []);
      var partial := if request in liveDeliveries then liveDeliveries[request] else [];
      var filled := Backfill(full, visible);
      if filled.Err? {
        return Err(filled.failure);
      }
      var (client, pending) := filled.value;
      if pending != [] {
        partial := partial + [|report.output|];
      }
      var routed := RouteHistogram.ValidateRouteHistogram(report.routes, LAYERS, EXPERTS, TOP_K);
      if routed.None? {
        return Err(RoutesInvalid);
      }
      CancelMeasurement(request);
      return Ok(Snapshot(prompt + full, report.output, n - |full|, client, pending, partial));
    }
  }
}
