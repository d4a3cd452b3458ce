/** Delivery counts: exactly the lengths at which the client received something. */
module RecoveryCounts {
  import opened Decoding
  import opened EventQueue
  import opened GpuRuntime
  import opened Recovery
  import opened Wrappers

  /** The output event that a `Deliver` in this state consumes. */
  function Taken(s: State): Option<Event> {
    var i := FirstHit(s.queue, Outputs(s.request));
    if s.status.Running? && s.phase.Serving? && i < |s.queue| && !s.queue[i].Raises() then Some(s.queue[i]) else None
  }

  /** Lengths of the current request's output at which the client received
      something: what it consumed, and what a snapshot back-filled. */
  function Points(cfg: Config, group: set<nat>, actions: seq<Action>): set<nat> {
    if actions == [] then {}
    else
      var front, a := actions[..|actions| - 1], actions[|actions| - 1];
      NextPoints(Run(cfg, group, front), Run(cfg, group, actions), a, Points(cfg, group, front))
  }

  function NextPoints(s: State, s': State, a: Action, before: set<nat>): set<nat> {
    if |s'.served| > |s.served| then {}
    else if a.Deliver? && Taken(s).Some? then before + {|s.carried| + |Taken(s).value.tokens|}
    else if a.Freeze? && s'.phase.Frozen? && !s.phase.Frozen? then before + {|s.carried| + |s.engine.out|}
    else before
  }

  /** The counts recorded so far. */
  function CountsSoFar(s: State): seq<nat> {
    s.delivered + Offset(|s.carried|, if s.phase.Frozen? then s.phase.snap.partial else s.meter.deliveries)
  }

  ghost predicate CountsAre(s: State, points: set<nat>) {
    forall k: nat :: k in CountsSoFar(s) <==> k > 0 && k in points
  }

  lemma {:induction false} ClimbsEnd(counts: seq<nat>, from: nat, to: nat)
    requires Climbs(counts, from, to) && from < to
    ensures to in counts
  {
    if counts[0] < to {
      ClimbsBound(counts[1..], counts[0], to);
      ClimbsEnd(counts[1..], counts[0], to);
    } else {
      ClimbsBound(counts[1..], counts[0], to);
    }
  }

  lemma {:induction false} OffsetMembers(base: nat, counts: seq<nat>, k: nat)
    ensures k in Offset(base, counts) <==> exists c | c in counts :: k == base + c
  {
    var shifted := Offset(base, counts);
    if k in shifted {
      var i :| 0 <= i < |shifted| && shifted[i] == k;
      assert counts[i] in counts;
    }
    if exists c | c in counts :: k == base + c {
      var c :| c in counts && k == base + c;
      var i :| 0 <= i < |counts| && counts[i] == c;
      assert shifted[i] == k;
    }
  }

  /** The length reached so far is on record. */
  lemma {:induction false} ReachedIsCounted(cfg: Config, s: State)
    requires Inv(cfg, s) && !s.phase.Frozen? && |s.carried| + s.meter.count > 0
    ensures |s.carried| + s.meter.count in CountsSoFar(s)
  {
    var k := |s.carried| + s.meter.count;
    if s.meter.count > 0 {
      ClimbsEnd(s.meter.deliveries, 0, s.meter.count);
      OffsetMembers(|s.carried|, s.meter.deliveries, k);
    } else {
      ClimbsEnd(s.delivered, 0, |s.carried|);
    }
  }

  /** A new count joins the record. */
  lemma {:induction false} CountJoins(delivered: seq<nat>, base: nat, counts: seq<nat>, c: nat, k: nat)
    ensures k in delivered + Offset(base, counts + [c]) <==> k in delivered + Offset(base, counts) || k == base + c
  {
    assert Offset(base, counts + [c]) == Offset(base, counts) + [base + c];
  }

  lemma {:induction false} ConsumedCount(cfg: Config, s: State, k: nat)
    requires s.status.Running? && Inv(cfg, s) && Taken(s).Some?
    ensures k in CountsSoFar(DeliverStep(s))
       <==> k in CountsSoFar(s) || (k > 0 && k == |s.carried| + |Taken(s).value.tokens|)
  {
    var i := FirstHit(s.queue, Outputs(s.request));
    DeliverTakes(s, i);
    var e := s.queue[i];
    if e.generated > s.meter.count {
      CountJoins(s.delivered, |s.carried|, s.meter.deliveries, e.generated, k);
    } else if |s.carried| + s.meter.count > 0 {
      assert |e.tokens| == s.meter.count;
      ReachedIsCounted(cfg, s);
    }
  }

  lemma {:induction false} ConsumedIsCounted(cfg: Config, s: State, points: set<nat>)
    requires s.status.Running? && Inv(cfg, s) && CountsAre(s, points) && Taken(s).Some?
    ensures CountsAre(DeliverStep(s), points + {|s.carried| + |Taken(s).value.tokens|})
  {
    forall k: nat
      ensures k in CountsSoFar(DeliverStep(s))
         <==> k > 0 && k in points + {|s.carried| + |Taken(s).value.tokens|}
    {
      ConsumedCount(cfg, s, k);
      assert k in CountsSoFar(s) <==> k > 0 && k in points;
    }
  }

  lemma {:induction false} FrozenIsCounted(cfg: Config, s: State, snap: Snapshot, points: set<nat>)
    requires Inv(cfg, s) && CountsAre(s, points) && !s.phase.Frozen? && 0 < |s.carried| + |s.engine.out|
    requires snap.partial
          == if |s.meter.visible| == |s.engine.out| then s.meter.deliveries else s.meter.deliveries + [|s.engine.out|]
    ensures CountsAre(s.(phase := Frozen(snap)), points + {|s.carried| + |s.engine.out|})
  {
    var s', base, n := s.(phase := Frozen(snap)), |s.carried|, |s.engine.out|;
    if s.meter.count == n {
      ReachedIsCounted(cfg, s);
      assert CountsSoFar(s') == CountsSoFar(s);
    } else {
      forall k: nat ensures k in CountsSoFar(s') <==> k in CountsSoFar(s) || k == base + n {
        CountJoins(s.delivered, base, s.meter.deliveries, n, k);
      }
    }
  }

  lemma {:induction false} FreezeCounts(cfg: Config, s: State, seen: Observed, points: set<nat>)
    requires Inv(cfg, s) && CountsAre(s, points)
    ensures var s' := FreezeStep(cfg, s, seen);
            && s'.served == s.served
            && if s'.phase.Frozen? && !s.phase.Frozen? then CountsAre(s', points + {|s.carried| + |s.engine.out|})
               else CountsSoFar(s') == CountsSoFar(s)
  {
    FreezeShape(cfg, s, seen);
    var s', r := FreezeStep(cfg, s, seen), EngineSnapshot(cfg, s.carried, s.engine, s.meter, seen);
    if s'.phase.Frozen? && !s.phase.Frozen? {
      SnapshotOutcome(cfg, s.carried, s.engine, s.meter, seen);
      FrozenIsCounted(cfg, s, r.value, points);
    }
  }

  lemma {:induction false} FreezeShape(cfg: Config, s: State, seen: Observed)
    ensures var s', r := FreezeStep(cfg, s, seen), EngineSnapshot(cfg, s.carried, s.engine, s.meter, seen);
            || s'.(status := s.status) == s
            || (!s.phase.Frozen? && r.Ok? && s' == s.(phase := Frozen(r.value)))
  {
  }

  lemma {:induction false} HandoffCounts(cfg: Config, s: State, group: set<nat>)
    requires s.status.Running? && Inv(cfg, s)
    ensures CountsSoFar(HandoffStep(s, group)) == CountsSoFar(s)
    ensures HandoffStep(s, group).served == s.served
  {
    HandoffKeeps(cfg, s, group);
  }

  lemma {:induction false} FinishCounts(cfg: Config, s: State)
    requires s.status.Running? && Inv(cfg, s)
    ensures var s' := FinishStep(cfg, s);
            if s.phase.Returned? && !s.engine.paused
            then |s'.served| == |s.served| + 1 && s'.served[|s.served|].counts == CountsSoFar(s) && CountsSoFar(s') == []
            else s' == s
  {
    if s.phase.Returned? && !s.engine.paused {
      FinalChecksPass(cfg, s);
    }
  }

  lemma {:induction false} DeliverCounts(cfg: Config, s: State, points: set<nat>)
    requires s.status.Running? && Inv(cfg, s) && CountsAre(s, points)
    ensures var s' := DeliverStep(s); CountsAre(s', NextPoints(s, s', Deliver, points)) && s'.served == s.served
  {
    var i, s' := FirstHit(s.queue, Outputs(s.request)), DeliverStep(s);
    if !s.phase.Returned? && i < |s.queue| && !s.queue[i].Raises() {
      DeliverTakes(s, i);
    } else {
      assert s' == s || s' == Fail(s, WorkerFault);
    }
    if Taken(s).Some? {
      ConsumedIsCounted(cfg, s, points);
    } else {
      assert CountsSoFar(s') == CountsSoFar(s);
    }
  }

  lemma {:induction false} FreezeNext(s: State, s': State, seen: Observed, points: set<nat>)
    requires CountsAre(s, points) && s'.served == s.served
    requires if s'.phase.Frozen? && !s.phase.Frozen? then CountsAre(s', points + {|s.carried| + |s.engine.out|})
             else CountsSoFar(s') == CountsSoFar(s)
    ensures CountsAre(s', NextPoints(s, s', Freeze(seen), points))
  {
  }

  lemma {:induction false} QuietCounts(cfg: Config, s: State, a: Action)
    requires a.Decode? || a.Emit? || a.Arrive? || a.Pause?
    ensures CountsSoFar(Step(cfg, s, a)) == CountsSoFar(s)
    ensures Step(cfg, s, a).served == s.served
  {
  }

  lemma {:induction false} StepCounts(cfg: Config, s: State, a: Action, points: set<nat>)
    requires s.status.Running? && Inv(cfg, s) && CountsAre(s, points)
    ensures var s' := Step(cfg, s, a); CountsAre(s', NextPoints(s, s', a, points))
    ensures var s' := Step(cfg, s, a);
            |s'.served| > |s.served| ==> |s'.served| == |s.served| + 1 && s'.served[|s.served|].counts == CountsSoFar(s)
  {
    match a
    case Deliver => DeliverCounts(cfg, s, points);
    case Freeze(seen) =>
      FreezeCounts(cfg, s, seen, points);
      FreezeNext(s, FreezeStep(cfg, s, seen), seen, points);
    case Handoff(group) => HandoffCounts(cfg, s, group);
    case Finish => FinishCounts(cfg, s);
    case _ => QuietCounts(cfg, s, a);
  }

  lemma {:induction false} RunCounts(cfg: Config, group: set<nat>, actions: seq<Action>)
    requires cfg.n > 0
    ensures CountsAre(Run(cfg, group, actions), Points(cfg, group, actions))
  {
    if actions != [] {
      var front, a := actions[..|actions| - 1], actions[|actions| - 1];
      RunCounts(cfg, group, front);
      ReplayIsTransparent(cfg, group, front);
      if Run(cfg, group, front).status.Running? {
        StepCounts(cfg, Run(cfg, group, front), a, Points(cfg, group, front));
      }
    }
  }

  lemma {:induction false} JustServed(cfg: Config, s: State, a: Action, points: set<nat>, k: nat)
    requires Inv(cfg, s) && CountsAre(s, points) && |Step(cfg, s, a).served| > |s.served|
    ensures var served := Step(cfg, s, a).served;
            k in served[|served| - 1].counts <==> k > 0 && k in points
  {
    StepCounts(cfg, s, a, points);
    assert k in CountsSoFar(s) <==> k > 0 && k in points;
  }

  /** On every run, the counts of a request that has just been served are exactly
      the lengths at which the client received something in any of its segments,
      by consuming an output or by back-fill. */
  lemma {:induction false} ServedCountsExact(cfg: Config, group: set<nat>, actions: seq<Action>, a: Action, k: nat)
    requires cfg.n > 0 && |Run(cfg, group, actions + [a]).served| > |Run(cfg, group, actions).served|
    ensures var served := Run(cfg, group, actions + [a]).served;
            k in served[|served| - 1].counts <==> k > 0 && k in Points(cfg, group, actions)
  {
    var s := Run(cfg, group, actions);
    assert Run(cfg, group, actions + [a]) == Step(cfg, s, a) by {
      assert (actions + [a])[..|actions|] == actions;
    }
    RunCounts(cfg, group, actions);
    ReplayIsTransparent(cfg, group, actions);
    JustServed(cfg, s, a, Points(cfg, group, actions), k);
  }
}
