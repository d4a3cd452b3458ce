/** How recoveries end: completion, reassembled responses, the client's books. */
module RecoveryEnd {
  import opened Decoding
  import opened EventQueue
  import opened GpuRuntime
  import opened Recovery
  import opened Wrappers

  // ---------------------------------------------------------------------
  // A recovery can always be completed
  // ---------------------------------------------------------------------

  function RunFrom(cfg: Config, s: State, actions: seq<Action>): State
    decreases |actions|
  {
    if actions == [] then s else RunFrom(cfg, Step(cfg, s, actions[0]), actions[1..])
  }

  function Decodes(k: nat): (actions: seq<Action>)
    ensures |actions| == k
  {
    seq(k, _ => Decode)
  }

  lemma {:induction false} RunFromConcat(cfg: Config, s: State, a: seq<Action>, b: seq<Action>)
    ensures RunFrom(cfg, s, a + b)
         == RunFrom(cfg, RunFrom(cfg, s, a), b)
    decreases |a|
  {
    if a == [] {
      assert a + b == b;
    } else {
      RunFromConcat(cfg, Step(cfg, s, a[0]), a[1..], b);
      assert (a + b)[1..] == a[1..] + b;
    }
  }

  lemma {:induction false} DecodingAdvances(cfg: Config, s: State, k: nat)
    requires s.status.Running? && Inv(cfg, s) && !s.engine.paused
    requires |s.engine.out| + k <= s.engine.budget
    ensures var s' := RunFrom(cfg, s, Decodes(k));
            && Inv(cfg, s')
            && s' == s.(engine := s'.engine)
            && !s'.engine.paused && s'.engine.budget == s.engine.budget
            && |s'.engine.out| == |s.engine.out| + k
    decreases k
  {
    if k > 0 {
      DecodeKeeps(cfg, s);
      assert Decodes(k)[1..] == Decodes(k - 1);
      DecodingAdvances(cfg, Step(cfg, s, Decode), k - 1);
    }
  }

  /** Emitting the full output into an empty queue and delivering it returns it. */
  lemma FullOutputReturns(cfg: Config, s: State)
    requires s.status.Running? && s.phase.Serving? && MeterOk(s.meter, s.engine.out)
    requires s.queue == [] && |s.engine.out| == s.engine.budget
    ensures var e := Event(Output, Some(s.request), |s.engine.out|, s.engine.out, true);
            && Step(cfg, s, Emit).queue == [e]
            && Step(cfg, Step(cfg, s, Emit), Deliver)
               == s.(meter := Absorb(s.meter, e), phase := Returned(s.engine.out))
  {
    var e := Event(Output, Some(s.request), |s.engine.out|, s.engine.out, true);
    assert [] + [e] == [e];
    assert FirstHit([e], Outputs(s.request)) == 0;
    assert [e][..0] + [e][1..] == [];
  }

  lemma FullOutputDelivers(cfg: Config, s: State)
    requires s.status.Running? && Inv(cfg, s) && s.phase.Serving? && !s.engine.paused
    requires s.queue == [] && |s.engine.out| == s.engine.budget
    ensures var s' := Step(cfg, Step(cfg, s, Emit), Deliver);
            && s'.status.Running? && Inv(cfg, s')
            && s'.phase == Returned(s.engine.out) && !s'.engine.paused && s'.served == s.served
  {
    FullOutputReturns(cfg, s);
    EmitKeeps(cfg, s);
    DeliverKeeps(cfg, Step(cfg, s, Emit));
  }

  lemma RunThree(cfg: Config, s: State, a: Action, b: Action, c: Action)
    ensures RunFrom(cfg, s, [a, b, c])
         == Step(cfg, Step(cfg, Step(cfg, s, a), b), c)
  {
    assert [a, b, c][1..] == [b, c] && [b, c][1..] == [c] && [c][1..] == [];
    var s1 := Step(cfg, s, a);
    var s2 := Step(cfg, s1, b);
    assert RunFrom(cfg, s2, [c]) == Step(cfg, s2, c);
    assert RunFrom(cfg, s1, [b, c]) == Step(cfg, s2, c);
  }

  /** The state right after a handoff: a fresh segment for the missing tokens. */
  predicate FreshSegment(cfg: Config, s: State, k: nat) {
    && s.status.Running? && Inv(cfg, s) && s.phase.Serving?
    && !s.engine.paused && s.queue == [] && s.engine.out == [] && s.engine.budget == k
  }

  lemma FinishServes(cfg: Config, s: State)
    requires s.status.Running? && Inv(cfg, s) && s.phase.Returned? && !s.engine.paused
    ensures var s' := Step(cfg, s, Finish);
            && s'.status.Running? && |s'.served| == |s.served| + 1
            && s'.served[|s.served|].output == cfg.Reference()
  {
    FinishKeeps(cfg, s);
  }

  lemma FreshSegmentCompletes(cfg: Config, s: State, k: nat)
    requires FreshSegment(cfg, s, k)
    ensures var s' := RunFrom(cfg, s, Decodes(k) + [Emit, Deliver, Finish]);
            && s'.status.Running? && |s'.served| == |s.served| + 1
            && s'.served[|s.served|].output == cfg.Reference()
  {
    DecodingAdvances(cfg, s, k);
    var full := RunFrom(cfg, s, Decodes(k));
    FullOutputDelivers(cfg, full);
    FinishServes(cfg, Step(cfg, Step(cfg, full, Emit), Deliver));
    RunThree(cfg, full, Emit, Deliver, Finish);
    RunFromConcat(cfg, s, Decodes(k), [Emit, Deliver, Finish]);
  }

  /** After every successful snapshot, whatever had happened before, moving the
      request to any GPU group, decoding the remaining tokens and delivering
      them once completes the request with the reference output. */
  lemma RecoveryCompletes(cfg: Config, s: State, group: set<nat>)
    requires s.status.Running? && Inv(cfg, s) && s.phase.Frozen?
    ensures var rest := Decodes(s.phase.snap.remaining) + [Emit, Deliver, Finish];
            var s' := RunFrom(cfg, s, [Handoff(group)] + rest);
            && s'.status.Running? && |s'.served| == |s.served| + 1
            && s'.served[|s.served|].output == cfg.Reference()
  {
    var rest := Decodes(s.phase.snap.remaining) + [Emit, Deliver, Finish];
    HandoffKeeps(cfg, s, group);
    FreshSegmentCompletes(cfg, Step(cfg, s, Handoff(group)), s.phase.snap.remaining);
    assert ([Handoff(group)] + rest)[1..] == rest;
  }

  // ---------------------------------------------------------------------
  // Reassembling a restored response
  // ---------------------------------------------------------------------

  /** Prefix and suffix of a response restored from `restored`, or nothing when
      the committed prefix is not what follows the original prompt. */
  function CompletedResponse(prefix: seq<Token>, suffix: seq<Token>, promptTokens: nat,
                             restored: seq<Token>): Option<seq<Token>>
  {
    var cut := if promptTokens <= |restored| then promptTokens else |restored|;
    if restored != restored[..cut] + prefix then None else Some(prefix + suffix)
  }

  /** For every input, a response is reassembled exactly when the committed
      prefix is what follows the first `promptTokens` restored tokens. */
  lemma CompletedResponseExact(prefix: seq<Token>, suffix: seq<Token>, promptTokens: nat, restored: seq<Token>)
    ensures var cut := if promptTokens <= |restored| then promptTokens else |restored|;
            var r := CompletedResponse(prefix, suffix, promptTokens, restored);
            && (r.Some? <==> restored[cut..] == prefix)
            && (r.Some? ==> r.value == prefix + suffix)
  {
    var cut := if promptTokens <= |restored| then promptTokens else |restored|;
    assert restored == restored[..cut] + restored[cut..];
    if restored == restored[..cut] + prefix {
      assert restored[cut..] == (restored[..cut] + prefix)[cut..] == prefix;
    }
  }

  /** The check sees the length of the prompt only: together with a restored
      input that starts with the prompt it identifies prompt and prefix. */
  lemma RestoredPromptExact(prefix: seq<Token>, suffix: seq<Token>, prompt: seq<Token>, restored: seq<Token>)
    ensures CompletedResponse(prefix, suffix, |prompt|, restored).Some? && prompt <= restored
       <==> restored == prompt + prefix
  {
    CompletedResponseExact(prefix, suffix, |prompt|, restored);
    if prompt <= restored {
      assert restored == prompt + restored[|prompt|..];
    }
    if restored == prompt + prefix {
      assert prompt <= restored && restored[|prompt|..] == prefix;
    }
  }

  /** So a restored input that starts with another prompt of the same length is
      accepted, and with an empty prefix one that is shorter than the prompt. */
  lemma WrongPromptAccepted(prefix: seq<Token>, suffix: seq<Token>, prompt: seq<Token>, other: seq<Token>)
    requires |other| == |prompt| || (|other| < |prompt| && prefix == [])
    ensures CompletedResponse(prefix, suffix, |prompt|, other + prefix)
         == Some(prefix + suffix)
    ensures other != prompt ==> other + prefix != prompt + prefix
  {
    var restored := other + prefix;
    assert restored[..|other|] == other;
    CompletedResponseExact(prefix, suffix, |prompt|, restored);
    if restored == prompt + prefix {
      assert restored[..|prompt|] == prompt;
    }
  }

  /** Restoring from any snapshot of any run and generating the remaining tokens
      reassembles the uninterrupted reference. */
  lemma SnapshotRestoresReference(cfg: Config, s: State)
    requires Inv(cfg, s) && s.phase.Frozen?
    ensures var snap := s.phase.snap;
            CompletedResponse(snap.clientPrefix, Generate(cfg.next, snap.tokens, snap.remaining),
                              |cfg.prompt|, snap.tokens) == Some(cfg.Reference())
  {
    var snap := s.phase.snap;
    var done := |s.carried| + |s.engine.out|;
    GenerateReplay(cfg.next, cfg.prompt, |s.carried|, |s.engine.out|);
    GenerateReplay(cfg.next, cfg.prompt, done, snap.remaining);
    RestoredPromptExact(snap.clientPrefix, Generate(cfg.next, snap.tokens, snap.remaining), cfg.prompt, snap.tokens);
  }

  // ---------------------------------------------------------------------
  // The client's own bookkeeping, updated in place
  // ---------------------------------------------------------------------

  class RequestStream {
    var carried: seq<Token>
    var deliveries: seq<nat>
    var segments: seq<seq<Token>>
    var served: seq<Served>

    /** The object holds the client part of protocol state `s`. */
    ghost predicate Mirrors(s: State)
      reads this
    {
      carried == s.carried && deliveries == s.delivered && segments == s.segments && served == s.served
    }

    constructor ()
      ensures carried == [] && deliveries == [] && segments == [] && served == []
    {
      carried, deliveries, segments, served := [], [], [], [];
    }

    method Extend(counts: seq<nat>)
      modifies this`deliveries
      ensures deliveries == old(deliveries) + Offset(|carried|, counts)
    {
      var i := 0;
      while i < |counts|
        invariant 0 <= i <= |counts|
        invariant deliveries == old(deliveries) + Offset(|carried|, counts)[..i]
      {
        deliveries := deliveries + [|carried| + counts[i]];
        i := i + 1;
      }
    }

    /** Takes over a snapshot: its deliveries are appended with the old offset
        before the carried prefix moves on. */
    method Resume(snap: Snapshot, ghost s: State, ghost group: set<nat>)
      requires Mirrors(s) && s.phase == Frozen(snap)
      requires HandoffStep(s, group).status.Running? && s.status.Running?
      modifies this
      ensures Mirrors(HandoffStep(s, group))
    {
      Extend(snap.partial);
      segments := segments + [snap.newOutput];
      carried := snap.clientPrefix;
    }

    method CheckCounts(counts: seq<nat>, n: nat) returns (ok: bool)
      ensures ok <==> CountsComplete(counts, n)
    {
      if counts == [] || counts[|counts| - 1] != n {
        return false;
      }
      var i := 0;
      while i < |counts| - 1
        invariant 0 <= i <= |counts| - 1
        invariant forall j | 0 <= j < i :: counts[j] < counts[j + 1]
      {
        if counts[i + 1] <= counts[i] {
          return false;
        }
        i := i + 1;
      }
      return true;
    }

    /** Final checks of a request. In every state that satisfies the protocol
        invariant they pass, and the client is ready for the next request. */
    method Complete(cfg: Config, output: seq<Token>, counts: seq<nat>, ghost s: State) returns (ok: bool)
      requires Mirrors(s) && s.status.Running? && Inv(cfg, s)
      requires s.phase == Returned(output) && !s.engine.paused && counts == s.meter.deliveries
      modifies this
      ensures ok && Mirrors(FinishStep(cfg, s))
      ensures |served| == old(|served|) + 1 && ServedOk(cfg, served[|served| - 1])
    {
      FinishKeeps(cfg, s);
      assert Step(cfg, s, Finish) == FinishStep(cfg, s);
      var combined := carried + output;
      if combined != cfg.Reference() || |combined| != cfg.n {
        return false;
      }
      Extend(counts);
      ok := CheckCounts(deliveries, cfg.n);
      if ok {
        served := served + [Served(combined, deliveries, segments + [output])];
        carried, deliveries, segments := [], [], [];
      }
      assert FinishStep(cfg, s).served[|s.served|] in FinishStep(cfg, s).served;
    }
  }
}
