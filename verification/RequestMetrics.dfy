/** Folding router metric rows into one row per request, and evidence of restored
    KV blocks into one number per request. The window around the requests is five
    seconds wider on each side; a zero bound has a meaning of its own, which
    differs between the filter and the fold. */
module RequestMetrics {
  import opened Wrappers

  datatype Row = Row(isRequest: bool, request: string, timestamp: real, payload: int)

  /** Requests as sent: first send time and last completion time. */
  datatype Window = Window(ids: set<string>, firstSent: real, lastDone: real) {
    /** Five seconds around the requests. */
    predicate Contains(t: real) {
      firstSent - 5.0 <= t <= lastDone + 5.0
    }

    /** The rows the fold looks at; a zero first send switches the window off. */
    predicate Eligible(r: Row) {
      r.isRequest && r.request in ids && (firstSent == 0.0 || Contains(r.timestamp))
    }
  }

  /** The row kept for `id` after the one-pass fold. */
  function Kept(rows: seq<Row>, w: Window, id: string): Option<Row> {
    if rows == [] then None
    else
      var before, r := Kept(rows[..|rows| - 1], w, id), rows[|rows| - 1];
      if w.Eligible(r) && r.request == id && (before.None? || r.timestamp >= before.value.timestamp) then Some(r)
      else before
  }

  /** `k` is the last eligible row of `id` with the largest timestamp. */
  predicate IsLatest(rows: seq<Row>, w: Window, id: string, k: int) {
    && 0 <= k < |rows| && w.Eligible(rows[k]) && rows[k].request == id
    && forall j | 0 <= j < |rows| && w.Eligible(rows[j]) && rows[j].request == id ::
         if j <= k then rows[j].timestamp <= rows[k].timestamp else rows[j].timestamp < rows[k].timestamp
  }

  /** The fold keeps, per request, the last row of maximal in-window timestamp,
      and nothing exactly when there is no eligible row. */
  lemma {:induction false} KeptIsLatest(rows: seq<Row>, w: Window, id: string)
    ensures match Kept(rows, w, id)
            case None => forall j | 0 <= j < |rows| :: !(w.Eligible(rows[j]) && rows[j].request == id)
            case Some(r) => exists k :: IsLatest(rows, w, id, k) && rows[k] == r
  {
    if rows != [] {
      var front, n := rows[..|rows| - 1], |rows| - 1;
      KeptIsLatest(front, w, id);
      assert forall j | 0 <= j < n :: front[j] == rows[j];
      var before := Kept(front, w, id);
      if w.Eligible(rows[n]) && rows[n].request == id && (before.None? || rows[n].timestamp >= before.value.timestamp) {
        assert IsLatest(rows, w, id, n);
      } else if before.Some? {
        var k :| IsLatest(front, w, id, k) && front[k] == before.value;
        assert IsLatest(rows, w, id, k);
      }
    }
  }

  function InWindow(rows: seq<Row>, w: Window): seq<Row> {
    if rows == [] then []
    else
      var r := rows[|rows| - 1];
      InWindow(rows[..|rows| - 1], w) + (if w.Contains(r.timestamp) then [r] else [])
  }

  /** The window filter as the analyser applies it: nothing at all unless both
      bounds are non-zero. */
  function MetricsInRequestWindow(rows: seq<Row>, w: Window): seq<Row> {
    if w.firstSent == 0.0 || w.lastDone == 0.0 then [] else InWindow(rows, w)
  }

  /** The filter keeps order and multiplicity; it keeps one row exactly when its
      timestamp is at most five seconds outside the requests. */
  lemma {:induction false} InWindowExact(a: seq<Row>, b: seq<Row>, w: Window)
    ensures InWindow(a + b, w)
         == InWindow(a, w) + InWindow(b, w)
  {
    if b == [] {
      assert a + b == a;
    } else {
      var front, last := b[..|b| - 1], b[|b| - 1];
      InWindowExact(a, front, w);
      assert (a + b)[..|a + b| - 1] == a + front && (a + b)[|a + b| - 1] == last;
      var one := if w.Contains(last.timestamp) then [last] else [];
      assert InWindow(a + b, w) == InWindow(a, w) + InWindow(front, w) + one;
    }
  }

  lemma {:induction false} InWindowOne(r: Row, w: Window)
    ensures InWindow([r], w) == if w.firstSent - 5.0 <= r.timestamp <= w.lastDone + 5.0 then [r] else []
  {
    assert [r][..0] == [];
  }

  lemma {:induction false} InWindowKeeps(rows: seq<Row>, w: Window, id: string)
    requires w.firstSent != 0.0
    ensures Kept(InWindow(rows, w), w, id) == Kept(rows, w, id)
  {
    if rows != [] {
      var front, r := rows[..|rows| - 1], rows[|rows| - 1];
      InWindowKeeps(front, w, id);
      var kept := InWindow(front, w);
      assert (kept + [r])[..|kept|] == kept;
      assert kept + [] == kept;
    }
  }

  /** Filtering by the window first leaves the fold unchanged exactly when both
      bounds are non-zero or no row is eligible anyway; with a zero bound the
      filter drops everything. */
  lemma PrefilterNeutral(rows: seq<Row>, w: Window)
    ensures (forall id :: Kept(MetricsInRequestWindow(rows, w), w, id) == Kept(rows, w, id)) <==>
              (w.firstSent != 0.0 && w.lastDone != 0.0) || forall j | 0 <= j < |rows| :: !w.Eligible(rows[j])
    ensures w.firstSent == 0.0 || w.lastDone == 0.0 ==>
              forall id :: Kept(MetricsInRequestWindow(rows, w), w, id) == None
  {
    if w.firstSent != 0.0 && w.lastDone != 0.0 {
      forall id ensures Kept(MetricsInRequestWindow(rows, w), w, id) == Kept(rows, w, id) {
        InWindowKeeps(rows, w, id);
      }
    } else if exists j | 0 <= j < |rows| :: w.Eligible(rows[j]) {
      var j :| 0 <= j < |rows| && w.Eligible(rows[j]);
      KeptIsLatest(rows, w, rows[j].request);
      assert Kept(MetricsInRequestWindow(rows, w), w, rows[j].request) != Kept(rows, w, rows[j].request);
    } else {
      forall id ensures Kept(rows, w, id) == None {
        KeptIsLatest(rows, w, id);
      }
    }
  }

  method MatchingRequestMetrics(rows: seq<Row>, w: Window) returns (latest: map<string, Row>)
    ensures forall id :: (if id in latest then Some(latest[id]) else None) == Kept(rows, w, id)
  {
    latest := map[];
    var i := 0;
    while i < |rows|
      invariant 0 <= i <= |rows|
      invariant forall id :: (if id in latest then Some(latest[id]) else None) == Kept(rows[..i], w, id)
    {
      assert rows[..i + 1][..i] == rows[..i];
      var r := rows[i];
      if r.isRequest && r.request in w.ids && !(w.firstSent != 0.0 && !w.Contains(r.timestamp)) {
        if r.request !in latest || r.timestamp >= latest[r.request].timestamp {
          latest := latest[r.request := r];
        }
      }
      i := i + 1;
    }
    assert rows[..i] == rows;
  }

  // ---------------------------------------------------------------------
  // KV-restore evidence from two sources
  // ---------------------------------------------------------------------

  /** One report that a request restored some blocks. */
  datatype Report = Report(request: string, succeeded: bool, blocks: int) {
    predicate Counts() {
      succeeded && blocks > 0
    }
  }

  /** `m` holds, for exactly the requests with evidence, the largest report. */
  predicate MaximumOf(m: map<string, int>, reports: seq<Report>) {
    && (forall r | r in reports && r.Counts() :: r.request in m && r.blocks <= m[r.request])
    && (forall id | id in m :: exists r | r in reports && r.Counts() :: r.request == id && r.blocks == m[id])
  }

  method AddEvidence(m0: map<string, int>, ghost before: seq<Report>, reports: seq<Report>) returns (m: map<string, int>)
    requires MaximumOf(m0, before)
    ensures MaximumOf(m, before + reports)
  {
    m := m0;
    var i := 0;
    assert before + reports[..0] == before;
    while i < |reports|
      invariant 0 <= i <= |reports|
      invariant MaximumOf(m, before + reports[..i])
    {
      var r := reports[i];
      ghost var seen := before + reports[..i];
      assert before + reports[..i + 1] == seen + [r];
      ghost var previous := m;
      if r.succeeded && r.blocks > 0 {
        var old' := if r.request in m then m[r.request] else 0;
        m := m[r.request := if old' >= r.blocks then old' else r.blocks];
      }
      EvidenceStep(previous, m, seen, r);
      i := i + 1;
    }
    assert reports[..i] == reports;
  }

  lemma EvidenceStep(m: map<string, int>, m': map<string, int>, seen: seq<Report>, r: Report)
    requires MaximumOf(m, seen)
    requires m' == if !r.Counts() then m
                   else m[r.request := if r.request in m && m[r.request] >= r.blocks then m[r.request] else r.blocks]
    ensures MaximumOf(m', seen + [r])
  {
    forall id | id in m' ensures exists x | x in seen + [r] && x.Counts() :: x.request == id && x.blocks == m'[id] {
      if id in m && m'[id] == m[id] {
        var x :| x in seen && x.Counts() && x.request == id && x.blocks == m[id];
        assert x in seen + [r];
      } else {
        assert r in seen + [r];
      }
    }
  }

  /** Evidence from router metrics and from raw responses, at most once per
      request. */
  method TrueRestoreEvidence(router: seq<Report>, responses: seq<Report>) returns (m: map<string, int>)
    ensures MaximumOf(m, router + responses)
  {
    m := AddEvidence(map[], [], router);
    assert [] + router == router;
    m := AddEvidence(m, router, responses);
  }

  /** The evidence depends only on which reports there are, not on their order,
      source or repetition. */
  lemma EvidenceOrderFree(a: seq<Report>, b: seq<Report>, ma: map<string, int>, mb: map<string, int>)
    requires MaximumOf(ma, a) && MaximumOf(mb, b)
    requires forall r :: r in a <==> r in b
    ensures ma == mb
  {
    forall id ensures id in ma ==> id in mb && ma[id] <= mb[id] {
      if id in ma {
        var r :| r in a && r.Counts() && r.request == id && r.blocks == ma[id];
        assert r in b;
      }
    }
    forall id ensures id in mb ==> id in ma && mb[id] <= ma[id] {
      if id in mb {
        var r :| r in b && r.Counts() && r.request == id && r.blocks == mb[id];
        assert r in a;
      }
    }
  }
}
