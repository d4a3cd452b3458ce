/** The event list that one reader fills and several waiting threads share. */
module EventQueue {
  import opened Decoding
  import opened Wrappers

  type RequestId = nat

  /** Event kinds that the protocol names; any further kind is `Other`. */
  datatype Kind =
    | Output
    | GenerationPaused
    | Metadata
    | ReplayTokensInstalled
    | Other(name: string)
    | Fatal
    | GenerationError

  datatype Event = Event(
    kind: Kind,
    request: Option<RequestId>,
    generated: int,
    tokens: seq<Token>,
    finished: bool)
  {
    /** Events at which every waiter raises instead of returning. */
    predicate Raises() {
      kind.Fatal? || kind.GenerationError?
    }
  }

  /** What a waiter asks for: a kind and, unless the command carried no request
      id, that request id. */
  datatype Selector = Selector(kind: Kind, request: Option<RequestId>) {
    predicate Matches(e: Event) {
      e.kind == kind && (request.None? || e.request == request)
    }
  }

  datatype Queue = Queue(events: seq<Event>, closed: bool, cancelled: set<RequestId>)

  datatype Outcome = Got(event: Event) | Raised(event: Event) | Preempted | StreamClosed | Blocked

  /** Index of the first event at which a scan for `sel` stops, or `|events|`. */
  function FirstHit(events: seq<Event>, sel: Selector): (i: nat)
    ensures i <= |events|
    ensures i < |events| ==> events[i].Raises() || sel.Matches(events[i])
    ensures forall j | 0 <= j < i :: !events[j].Raises() && !sel.Matches(events[j])
  {
    if events == [] then 0
    else if events[0].Raises() || sel.Matches(events[0]) then 0
    else 1 + FirstHit(events[1..], sel)
  }

  /** One pass of `wait` under the lock. */
  function Poll(q: Queue, sel: Selector, guard: Option<RequestId>): (Outcome, Queue) {
    if guard.Some? && guard.value in q.cancelled then (Preempted, q)
    else
      var i := FirstHit(q.events, sel);
      if i < |q.events| then
        if q.events[i].Raises() then (Raised(q.events[i]), q)
        else (Got(q.events[i]), q.(events := q.events[..i] + q.events[i + 1..]))
      else if q.closed then (StreamClosed, q)
      else (Blocked, q)
  }

  /** Event `i` is the first one that raises or that `sel` accepts. */
  predicate IsFirst(events: seq<Event>, sel: Selector, i: int) {
    && 0 <= i < |events| && (events[i].Raises() || sel.Matches(events[i]))
    && forall j | 0 <= j < i :: !events[j].Raises() && !sel.Matches(events[j])
  }

  /** What a pass does, said of the events alone. A cancelled waiter is preempted
      whatever is queued; otherwise the first event that raises or matches
      decides, and the stream is closed or blocked only when there is none. */
  lemma PollExact(q: Queue, sel: Selector, guard: Option<RequestId>)
    ensures var (outcome, q') := Poll(q, sel, guard);
            && (outcome.Preempted? <==> guard.Some? && guard.value in q.cancelled)
            && (outcome.Preempted? ==> q' == q)
            && (!outcome.Preempted? ==>
                  && (forall i | IsFirst(q.events, sel, i) ::
                        if q.events[i].Raises() then outcome == Raised(q.events[i]) && q' == q
                        else outcome == Got(q.events[i]) && q' == q.(events := q.events[..i] + q.events[i + 1..]))
                  && ((forall i | 0 <= i < |q.events| :: !q.events[i].Raises() && !sel.Matches(q.events[i])) ==>
                        outcome == (if q.closed then StreamClosed else Blocked) && q' == q))
  {
    var k := FirstHit(q.events, sel);
    forall i | IsFirst(q.events, sel, i) ensures i == k {
      assert k < |q.events|;
    }
  }

  // ---------------------------------------------------------------------
  // Whole runs of arrivals and waits
  // ---------------------------------------------------------------------

  datatype Act =
    | Arrive(event: Event)
    | Wait(sel: Selector, guard: Option<RequestId>)
    | Cancel(request: RequestId)
    | CloseStream

  datatype Receipt = Receipt(sel: Selector, event: Event)

  datatype History = History(queue: Queue, arrived: seq<Event>, receipts: seq<Receipt>)

  const EMPTY := History(Queue([], false, {}), [], [])

  function QueueStep(h: History, a: Act): History {
    match a
    case Arrive(e) =>
      h.(queue := h.queue.(events := h.queue.events + [e]), arrived := h.arrived + [e])
    case Wait(sel, guard) =>
      var (outcome, q) := Poll(h.queue, sel, guard);
      h.(queue := q,
         receipts := if outcome.Got? then h.receipts + [Receipt(sel, outcome.event)] else h.receipts)
    case Cancel(r) => h.(queue := h.queue.(cancelled := h.queue.cancelled + {r}))
    case CloseStream => h.(queue := h.queue.(closed := true))
  }

  function QueueRun(acts: seq<Act>): History {
    if acts == [] then EMPTY else QueueStep(QueueRun(acts[..|acts| - 1]), acts[|acts| - 1])
  }

  /** A request is cancelled, and the stream closed, exactly when that happened
      before. */
  lemma {:induction false} QueueFlags(acts: seq<Act>, r: RequestId)
    ensures r in QueueRun(acts).queue.cancelled
       <==> Cancel(r) in acts
    ensures QueueRun(acts).queue.closed <==> CloseStream in acts
  {
    if acts != [] {
      var front, a := acts[..|acts| - 1], acts[|acts| - 1];
      QueueFlags(front, r);
      assert forall x :: x in acts <==> x in front || x == a;
      match a
      case Wait(sel, guard) => PollExact(QueueRun(front).queue, sel, guard);
      case _ =>
    }
  }

  /** Once a request was cancelled, no wait guarded by it receives an event or
      moves the queue. */
  lemma CancelledReceivesNothing(acts: seq<Act>, sel: Selector, r: RequestId)
    requires Cancel(r) in acts
    ensures QueueRun(acts + [Wait(sel, Some(r))])
         == QueueRun(acts)
  {
    QueueFlags(acts, r);
    RunAppend(acts, Wait(sel, Some(r)));
    PollExact(QueueRun(acts).queue, sel, Some(r));
  }

  /** The events of `events` that `sel` would accept, in order. */
  function Select(events: seq<Event>, sel: Selector): seq<Event> {
    if events == [] then []
    else (if sel.Matches(events[0]) then [events[0]] else []) + Select(events[1..], sel)
  }

  /** The events that waiters using exactly `sel` received, in order. */
  function ReceivedBy(receipts: seq<Receipt>, sel: Selector): seq<Event> {
    if receipts == [] then []
    else
      var last := receipts[|receipts| - 1];
      ReceivedBy(receipts[..|receipts| - 1], sel) + (if last.sel == sel then [last.event] else [])
  }

  lemma {:induction false} SelectConcat(a: seq<Event>, b: seq<Event>, sel: Selector)
    ensures Select(a + b, sel)
         == Select(a, sel) + Select(b, sel)
  {
    if a == [] {
      assert a + b == b;
    } else {
      SelectConcat(a[1..], b, sel);
      assert (a + b)[1..] == a[1..] + b;
    }
  }

  /** Two selectors that no arrived event can be returned for both. */
  predicate Separate(a: Selector, b: Selector, arrived: seq<Event>) {
    forall e | e in arrived :: !(a.Matches(e) && b.Matches(e) && !e.Raises())
  }

  /** Every wait of the run uses `sel` itself or a selector separate from it. */
  predicate Keyed(acts: seq<Act>, sel: Selector, arrived: seq<Event>) {
    forall a | a in acts && a.Wait? :: a.sel == sel || Separate(a.sel, sel, arrived)
  }

  lemma {:induction false} ArrivedOnlyGrows(acts: seq<Act>)
    requires acts != []
    ensures QueueRun(acts[..|acts| - 1]).arrived <= QueueRun(acts).arrived
    ensures forall e | e in QueueRun(acts[..|acts| - 1]).arrived :: e in QueueRun(acts).arrived
  {
  }

  lemma {:induction false} QueuedArrived(acts: seq<Act>)
    ensures forall e | e in QueueRun(acts).queue.events :: e in QueueRun(acts).arrived
  {
    if acts != [] {
      QueuedArrived(acts[..|acts| - 1]);
    }
  }

  /** What the waiters of a key consumed, followed by what is still queued for
      it, is exactly what arrived for it, in order. */
  predicate Demultiplexed(acts: seq<Act>, sel: Selector) {
    var h := QueueRun(acts);
    Select(h.arrived, sel) == ReceivedBy(h.receipts, sel) + Select(h.queue.events, sel)
  }

  /** Demultiplexing: for every interleaving of arrivals, waits, cancellations
      and stream closure, each key gets its own stream. */
  lemma {:induction false} Demultiplex(acts: seq<Act>, sel: Selector)
    requires Keyed(acts, sel, QueueRun(acts).arrived)
    ensures Demultiplexed(acts, sel)
  {
    if acts != [] {
      var front, a := acts[..|acts| - 1], acts[|acts| - 1];
      ArrivedOnlyGrows(acts);
      assert forall x | x in front :: x in acts;
      Demultiplex(front, sel);
      var h, h' := QueueRun(front), QueueRun(acts);
      if a.Arrive? {
        SelectConcat(h.arrived, [a.event], sel);
        SelectConcat(h.queue.events, [a.event], sel);
      } else if a.Wait? {
        QueuedArrived(front);
        DemultiplexWait(h, h', a, sel);
      }
    }
  }

  /** Removing an event that `sel` does not accept, or the first one it does. */
  lemma {:induction false} SelectRemove(events: seq<Event>, i: nat, sel: Selector)
    requires i < |events|
    requires sel.Matches(events[i]) ==> forall j | 0 <= j < i :: !sel.Matches(events[j])
    ensures Select(events, sel)
         == (if sel.Matches(events[i]) then [events[i]] else []) + Select(events[..i] + events[i + 1..], sel)
  {
    if i == 0 {
      assert events[..0] + events[1..] == events[1..];
    } else {
      SelectRemove(events[1..], i - 1, sel);
      var rest := events[..i] + events[i + 1..];
      assert rest[0] == events[0];
      assert rest[1..] == events[1..][..i - 1] + events[1..][i..];
    }
  }

  lemma {:induction false} DemultiplexWait(h: History, h': History, a: Act, sel: Selector)
    requires a.Wait? && h' == QueueStep(h, a)
    requires forall e | e in h.queue.events :: e in h.arrived
    requires a.sel == sel || Separate(a.sel, sel, h.arrived)
    ensures ReceivedBy(h'.receipts, sel) + Select(h'.queue.events, sel)
         == ReceivedBy(h.receipts, sel) + Select(h.queue.events, sel)
  {
    var events := h.queue.events;
    var i := FirstHit(events, a.sel);
    if Poll(h.queue, a.sel, a.guard).0.Got? {
      assert events[i] in h.arrived;
      SelectRemove(events, i, sel);
      assert h'.receipts == h.receipts + [Receipt(a.sel, events[i])];
      assert h'.receipts[..|h.receipts|] == h.receipts;
    }
  }

  /** A condition on the selectors alone: the same key, or keys that differ in
      kind or in a request id that both of them name. */
  predicate KeysApart(a: Selector, b: Selector) {
    || a == b
    || a.kind != b.kind || a.kind.Fatal? || a.kind.GenerationError?
    || (a.request.Some? && b.request.Some? && a.request != b.request)
  }

  predicate WaitsUse(acts: seq<Act>, sels: set<Selector>) {
    forall x | x in acts && x.Wait? :: x.sel in sels
  }

  lemma {:induction false} RunAppend(acts: seq<Act>, a: Act)
    ensures QueueRun(acts + [a]) == QueueStep(QueueRun(acts), a)
  {
    assert (acts + [a])[..|acts|] == acts;
  }

  lemma {:induction false} TakeOnly(a: Selector, e: Event)
    requires a.Matches(e) && !e.Raises()
    ensures QueueRun([] + [Arrive(e)] + [Wait(a, None)])
         == History(Queue([], false, {}), [e], [Receipt(a, e)])
  {
    RunAppend([], Arrive(e));
    RunAppend([] + [Arrive(e)], Wait(a, None));
    assert QueueRun([] + [Arrive(e)]) == History(Queue([e], false, {}), [e], []);
    assert FirstHit([e], a) == 0;
    assert [e][..0] + [e][1..] == [];
  }

  /** One waiter takes what belongs to the other. */
  lemma {:induction false} OverlapSteals(a: Selector, b: Selector, e: Event)
    requires a != b && a.Matches(e) && b.Matches(e) && !e.Raises()
    ensures !Demultiplexed([] + [Arrive(e)] + [Wait(a, None)], b)
  {
    TakeOnly(a, e);
    assert ReceivedBy([Receipt(a, e)], b) == [] by {
      assert [Receipt(a, e)][..0] == [];
    }
    assert Select([e], b) != [] && Select([], b) == [];
  }

  /** Every waiter of the set gets exactly its own stream on every run. */
  ghost predicate NobodySteals(sels: set<Selector>) {
    forall acts, b | WaitsUse(acts, sels) && b in sels :: Demultiplexed(acts, b)
  }

  /** Any number of waiters share the queue without stealing from one another on
      every run exactly when their keys are pairwise apart. */
  lemma KeyingExact(sels: set<Selector>)
    ensures NobodySteals(sels) <==> forall a, b | a in sels && b in sels :: KeysApart(a, b)
  {
    if forall a, b | a in sels && b in sels :: KeysApart(a, b) {
      forall acts, b | WaitsUse(acts, sels) && b in sels ensures Demultiplexed(acts, b) {
        forall x: Act | x in acts && x.Wait? ensures x.sel == b || Separate(x.sel, b, QueueRun(acts).arrived) {
          assert KeysApart(x.sel, b);
        }
        Demultiplex(acts, b);
      }
    } else {
      var a, b :| a in sels && b in sels && !KeysApart(a, b);
      var e := Event(a.kind, if a.request.Some? then a.request else b.request, 0, [], false);
      OverlapSteals(a, b, e);
      assert WaitsUse([] + [Arrive(e)] + [Wait(a, None)], sels);
    }
  }

  /** The events that precede the first raising one. */
  function Clean(events: seq<Event>): (c: seq<Event>)
    ensures |c| <= |events| && c == events[..|c|]
  {
    if events == [] || events[0].Raises() then [] else [events[0]] + Clean(events[1..])
  }

  function EventsOf(receipts: seq<Receipt>): (events: seq<Event>)
    ensures |events| == |receipts|
  {
    seq(|receipts|, i requires 0 <= i < |receipts| => receipts[i].event)
  }

  lemma {:induction false} CleanIs(events: seq<Event>, k: nat)
    requires k <= |events|
    requires forall j | 0 <= j < k :: !events[j].Raises()
    ensures Clean(events) == events[..k] + Clean(events[k..])
  {
    if k > 0 {
      CleanIs(events[1..], k - 1);
      assert events[1..][k - 1..] == events[k..];
    }
  }

  lemma {:induction false} CleanAppend(events: seq<Event>, e: Event)
    ensures Clean(events + [e])
         == if |Clean(events)| < |events| || e.Raises() then Clean(events) else Clean(events) + [e]
  {
    if events != [] {
      CleanAppend(events[1..], e);
      assert (events + [e])[1..] == events[1..] + [e];
    }
  }

  /** Conservation up to the first failure: the events handed to waiters
      together with those still queued before the first fatal or
      generation-error event are exactly the events that arrived before it. */
  predicate ConservedToFailure(h: History) {
    && multiset(EventsOf(h.receipts)) + multiset(Clean(h.queue.events)) == multiset(Clean(h.arrived))
    && h.queue.events[|Clean(h.queue.events)|..] == h.arrived[|Clean(h.arrived)|..]
  }

  lemma {:induction false} CleanRemove(events: seq<Event>, i: nat)
    requires i < |events|
    requires forall j | 0 <= j <= i :: !events[j].Raises()
    ensures var without := events[..i] + events[i + 1..];
            && Clean(events) == events[..i] + [events[i]] + Clean(events[i + 1..])
            && Clean(without) == events[..i] + Clean(events[i + 1..])
            && without[|Clean(without)|..] == events[|Clean(events)|..]
  {
    var without := events[..i] + events[i + 1..];
    CleanIs(events, i + 1);
    assert events[..i + 1] == events[..i] + [events[i]];
    assert without[i..] == events[i + 1..] && without[..i] == events[..i];
    CleanIs(without, i);
    var k := |Clean(events[i + 1..])|;
    assert without[i + k..] == events[i + 1..][k..] == events[i + 1 + k..];
  }

  lemma {:induction false} ConservedByWait(h: History, sel: Selector, guard: Option<RequestId>)
    requires ConservedToFailure(h)
    ensures ConservedToFailure(QueueStep(h, Wait(sel, guard)))
  {
    if Poll(h.queue, sel, guard).0.Got? {
      ConservedByTake(h, QueueStep(h, Wait(sel, guard)), sel, FirstHit(h.queue.events, sel));
    }
  }

  /** Handing event `i` to a waiter. */
  lemma {:induction false} ConservedByTake(h: History, h': History, sel: Selector, i: nat)
    requires ConservedToFailure(h)
    requires i < |h.queue.events| && forall j | 0 <= j <= i :: !h.queue.events[j].Raises()
    requires h'.queue.events == h.queue.events[..i] + h.queue.events[i + 1..]
    requires h'.receipts == h.receipts + [Receipt(sel, h.queue.events[i])] && h'.arrived == h.arrived
    ensures ConservedToFailure(h')
  {
    var q := h.queue.events;
    assert EventsOf(h'.receipts) == EventsOf(h.receipts) + [q[i]];
    CleanTake(EventsOf(h.receipts), q, i);
  }

  lemma {:induction false} CleanTake(got: seq<Event>, q: seq<Event>, i: nat)
    requires i < |q| && forall j | 0 <= j <= i :: !q[j].Raises()
    ensures var rest := q[..i] + q[i + 1..];
            && multiset(got + [q[i]]) + multiset(Clean(rest)) == multiset(got) + multiset(Clean(q))
            && rest[|Clean(rest)|..] == q[|Clean(q)|..]
  {
    CleanRemove(q, i);
    MoveOne(got, q[..i], q[i], Clean(q[i + 1..]), Clean(q), Clean(q[..i] + q[i + 1..]));
  }

  lemma MoveOne(got: seq<Event>, before: seq<Event>, e: Event, after: seq<Event>, all: seq<Event>, rest: seq<Event>)
    requires all == before + [e] + after && rest == before + after
    ensures multiset(got + [e]) + multiset(rest)
         == multiset(got) + multiset(all)
  {
  }

  /** No failure so far and `e` is none either. */
  predicate StaysClean(events: seq<Event>, e: Event) {
    |Clean(events)| == |events| && !e.Raises()
  }

  /** The part behind the first failure, of the queue and of all arrivals. */
  lemma ArrivalKeepsTail(queued: seq<Event>, arrived: seq<Event>, e: Event)
    requires queued[|Clean(queued)|..] == arrived[|Clean(arrived)|..]
    ensures StaysClean(queued, e) <==> StaysClean(arrived, e)
    ensures (queued + [e])[|Clean(queued + [e])|..]
         == (arrived + [e])[|Clean(arrived + [e])|..]
  {
    assert |queued| - |Clean(queued)| == |arrived| - |Clean(arrived)|;
    CleanAppend(queued, e);
    CleanAppend(arrived, e);
  }

  lemma ArrivalKeepsCount(got: seq<Event>, queued: seq<Event>, arrived: seq<Event>, e: Event)
    requires multiset(got) + multiset(Clean(queued)) == multiset(Clean(arrived))
    requires StaysClean(queued, e) <==> StaysClean(arrived, e)
    ensures multiset(got) + multiset(Clean(queued + [e]))
         == multiset(Clean(arrived + [e]))
  {
    CleanAppend(queued, e);
    CleanAppend(arrived, e);
  }

  lemma ConservedByArrival(h: History, e: Event)
    requires ConservedToFailure(h)
    ensures ConservedToFailure(QueueStep(h, Arrive(e)))
  {
    ArrivalKeepsTail(h.queue.events, h.arrived, e);
    ArrivalKeepsCount(EventsOf(h.receipts), h.queue.events, h.arrived, e);
  }

  lemma {:induction false} ConservedOnRuns(acts: seq<Act>)
    ensures ConservedToFailure(QueueRun(acts))
  {
    if acts != [] {
      var front, a := acts[..|acts| - 1], acts[|acts| - 1];
      ConservedOnRuns(front);
      match a
      case Arrive(e) => ConservedByArrival(QueueRun(front), e);
      case Wait(sel, guard) => ConservedByWait(QueueRun(front), sel, guard);
      case _ => assert QueueRun(acts).queue.events == QueueRun(front).queue.events;
    }
  }

  /** On every run nothing that arrived after a fatal or generation-error event
      is ever returned to a waiter: the returned events, each as often as it was
      returned, are among those that arrived before the first failure. */
  lemma NothingReturnedPastFailure(acts: seq<Act>)
    ensures var h := QueueRun(acts);
            && multiset(EventsOf(h.receipts)) <= multiset(Clean(h.arrived))
            && forall r | r in h.receipts :: r.event in Clean(h.arrived)
  {
    ConservedOnRuns(acts);
    var h := QueueRun(acts);
    forall r | r in h.receipts ensures r.event in Clean(h.arrived) {
      var i :| 0 <= i < |h.receipts| && h.receipts[i] == r;
      assert EventsOf(h.receipts)[i] == r.event;
      assert r.event in multiset(EventsOf(h.receipts));
      assert r.event in multiset(Clean(h.arrived));
    }
  }
}
