/** The idle-GPU job supervisor: it polls the GPUs, starts one child per job when
    they have been idle long enough, and stops at the first failure. */
module Supervisor {
  import opened Wrappers

  datatype Verdict = Valid | Failed | Pending

  /** What the supervisor would find at one of its looks at the world: a stop
      signal or STOP file, the job's result on disk, the memory in use on each
      GPU, the clock, and the exit code of a child that has just ended. Each
      look reads only the part it needs. */
  datatype World = World(stop: bool, verdict: Verdict, usedMib: seq<int>, time: real, code: int)

  /** Why the polling loop was left with the job still pending. */
  datatype Exit = ByIdle | ByStop

  datatype Outcome = Stopped | Blocked | Complete

  /** Where the supervisor is: at the top of a job, reading its result, polling,
      about to launch, running a child, or finished. */
  datatype Location =
    | Top | ReadResult
    | PollStop | PollResult | PollSnapshot
    | Recheck(exit: Exit)
    | Running
    | Halted(outcome: Outcome)

  datatype LogItem = Saw(idle: bool, time: real) | Launched(job: nat, exit: Exit) | SeenValid(job: nat)

  /** `stable` is the start of the current idle series, `since` its position in
      the log of everything seen and done. */
  datatype State = State(job: nat, loc: Location, stable: Option<real>, since: nat, log: seq<LogItem>)

  datatype Config = Config(jobs: nat, stableSeconds: real, maximumUsedMib: int)

  predicate AllIdle(cfg: Config, w: World) {
    forall i | 0 <= i < |w.usedMib| :: w.usedMib[i] <= cfg.maximumUsedMib
  }

  function Init(cfg: Config): State {
    State(0, if cfg.jobs == 0 then Halted(Complete) else Top, None, 0, [])
  }

  /** The job is valid: go on to the next one, or finish. */
  function NextJob(cfg: Config, s: State): State {
    s.(job := s.job + 1,
       loc := if s.job + 1 < cfg.jobs then Top else Halted(Complete),
       log := s.log + [SeenValid(s.job)])
  }

  /** Start of the idle series after a snapshot; a start at time zero counts as
      no start. */
  function StableStart(stable: Option<real>, idle: bool, time: real): Option<real> {
    if !idle then None
    else if stable.Some? && stable.value != 0.0 then stable
    else Some(time)
  }

  function SnapshotStep(cfg: Config, s: State, idle: bool, time: real): State {
    var stable := StableStart(s.stable, idle, time);
    var stableFor := if stable.None? then 0.0 else time - stable.value;
    s.(stable := stable,
       since := if idle && s.stable.Some? && s.stable.value != 0.0 then s.since else |s.log|,
       log := s.log + [Saw(idle, time)],
       loc := if stableFor >= cfg.stableSeconds then Recheck(ByIdle) else PollStop)
  }

  function Launch(s: State, exit: Exit): State {
    s.(loc := Running, log := s.log + [Launched(s.job, exit)])
  }

  /** One look at the world. */
  function Step(cfg: Config, s: State, w: World): State {
    match s.loc
    case Top => s.(loc := if w.stop then Halted(Stopped) else ReadResult)
    case ReadResult =>
      if w.verdict.Valid? then NextJob(cfg, s)
      else if w.verdict.Failed? then s.(loc := Halted(Blocked))
      else s.(loc := PollStop, stable := None)
    case PollStop => s.(loc := if w.stop then Recheck(ByStop) else PollResult)
    case PollResult => s.(loc := if w.verdict.Pending? then PollSnapshot else Top)
    case PollSnapshot => SnapshotStep(cfg, s, AllIdle(cfg, w), w.time)
    case Recheck(exit) => if w.stop then s.(loc := Top) else Launch(s, exit)
    case Running => if w.code != 0 || !w.verdict.Valid? then s.(loc := Halted(Blocked)) else NextJob(cfg, s)
    case Halted(_) => s
  }

  function Run(cfg: Config, world: seq<World>): State {
    if world == [] then Init(cfg) else Step(cfg, Run(cfg, world[..|world| - 1]), world[|world| - 1])
  }

  // ---------------------------------------------------------------------
  // Idle before every launch
  // ---------------------------------------------------------------------

  /** `log` ends with an unbroken series of idle snapshots, starting at `k`. */
  predicate IdleFrom(log: seq<LogItem>, k: nat) {
    k <= |log| && forall i | k <= i < |log| :: log[i].Saw? && log[i].idle
  }

  /** `log` ends with an unbroken series of idle snapshots that spans at least
      `seconds`. */
  predicate IdleFor(log: seq<LogItem>, seconds: real) {
    exists k | 0 <= k < |log| :: IdleFrom(log, k) && log[|log| - 1].time - log[k].time >= seconds
  }

  /** Every launch decided by idleness directly follows such a series. */
  predicate LaunchesIdle(log: seq<LogItem>, seconds: real) {
    forall i | 0 <= i < |log| && log[i].Launched? && log[i].exit.ByIdle? :: IdleFor(log[..i], seconds)
  }

  /** While polling, a stable start is the time of the first snapshot of the
      current idle series. */
  predicate SeriesOk(s: State) {
    s.stable.Some? ==>
      s.since < |s.log| && IdleFrom(s.log, s.since) && s.log[s.since].time == s.stable.value
  }

  predicate Polling(loc: Location) {
    loc.PollStop? || loc.PollResult? || loc.PollSnapshot?
  }

  predicate IdleInv(cfg: Config, s: State) {
    && LaunchesIdle(s.log, cfg.stableSeconds)
    && (Polling(s.loc) ==> SeriesOk(s))
    && (s.loc == Recheck(ByIdle) ==> IdleFor(s.log, cfg.stableSeconds))
  }

  lemma LaunchesAppend(log: seq<LogItem>, item: LogItem, seconds: real)
    requires LaunchesIdle(log, seconds)
    requires item.Launched? && item.exit.ByIdle? ==> IdleFor(log, seconds)
    ensures LaunchesIdle(log + [item], seconds)
  {
    var more := log + [item];
    forall i | 0 <= i < |more| && more[i].Launched? && more[i].exit.ByIdle? ensures IdleFor(more[..i], seconds) {
      if i < |log| {
        assert more[..i] == log[..i];
      } else {
        assert more[..i] == log;
      }
    }
  }

  lemma SnapshotKeeps(cfg: Config, s: State, idle: bool, time: real)
    requires cfg.stableSeconds > 0.0 && IdleInv(cfg, s) && s.loc.PollSnapshot?
    ensures IdleInv(cfg, SnapshotStep(cfg, s, idle, time))
  {
    var s' := SnapshotStep(cfg, s, idle, time);
    LaunchesAppend(s.log, Saw(idle, time), cfg.stableSeconds);
    if idle {
      assert s'.log[s'.since].time == s'.stable.value;
      assert IdleFrom(s'.log, s'.since);
      if s'.loc.Recheck? {
        assert s'.log[|s'.log| - 1].time - s'.log[s'.since].time >= cfg.stableSeconds;
      }
    }
  }

  lemma {:induction false} RunKeepsIdle(cfg: Config, world: seq<World>)
    requires cfg.stableSeconds > 0.0
    ensures IdleInv(cfg, Run(cfg, world))
  {
    if world != [] {
      var s, w := Run(cfg, world[..|world| - 1]), world[|world| - 1];
      RunKeepsIdle(cfg, world[..|world| - 1]);
      match s.loc
      case PollSnapshot => SnapshotKeeps(cfg, s, AllIdle(cfg, w), w.time);
      case Recheck(exit) => LaunchesAppend(s.log, Launched(s.job, exit), cfg.stableSeconds);
      case ReadResult => LaunchesAppend(s.log, SeenValid(s.job), cfg.stableSeconds);
      case Running => LaunchesAppend(s.log, SeenValid(s.job), cfg.stableSeconds);
      case _ =>
    }
  }

  // ---------------------------------------------------------------------
  // The STOP file must not disappear again
  // ---------------------------------------------------------------------

  /** The polling loop sees a stop request at look `i` that is gone at the next
      look. */
  predicate StopVanishes(cfg: Config, world: seq<World>, i: nat)
    requires i + 1 < |world|
  {
    Run(cfg, world[..i]).loc.PollStop? && world[i].stop && !world[i + 1].stop
  }

  predicate LaunchedByStop(log: seq<LogItem>) {
    exists i | 0 <= i < |log| :: log[i].Launched? && log[i].exit.ByStop?
  }

  predicate SomeStopVanishes(cfg: Config, world: seq<World>) {
    exists i | 0 <= i < |world| - 1 :: StopVanishes(cfg, world, i)
  }

  lemma RunAppend(cfg: Config, world: seq<World>, w: World)
    ensures Run(cfg, world + [w])
         == Step(cfg, Run(cfg, world), w)
  {
    assert (world + [w])[..|world|] == world;
  }

  lemma ByStopAppend(log: seq<LogItem>, item: LogItem)
    ensures LaunchedByStop(log + [item]) <==> LaunchedByStop(log) || (item.Launched? && item.exit.ByStop?)
  {
    var more := log + [item];
    if LaunchedByStop(log) {
      var i :| 0 <= i < |log| && log[i].Launched? && log[i].exit.ByStop?;
      assert more[i] == log[i];
    }
    assert more[|log|] == item;
  }

  lemma VanishesAppend(cfg: Config, world: seq<World>, w: World)
    requires world != []
    ensures SomeStopVanishes(cfg, world + [w])
       <==> SomeStopVanishes(cfg, world)
            || (Run(cfg, world[..|world| - 1]).loc.PollStop? && world[|world| - 1].stop && !w.stop)
  {
    var more, n := world + [w], |world| - 1;
    forall i | 0 <= i < n ensures StopVanishes(cfg, more, i) <==> StopVanishes(cfg, world, i) {
      assert more[..i] == world[..i];
    }
    assert more[..n] == world[..n];
    assert StopVanishes(cfg, more, n) <==> Run(cfg, world[..n]).loc.PollStop? && world[n].stop && !w.stop;
    if SomeStopVanishes(cfg, world) {
      var i :| 0 <= i < n && StopVanishes(cfg, world, i);
      assert StopVanishes(cfg, more, i);
    }
  }

  lemma StepByStop(cfg: Config, s: State, w: World)
    ensures LaunchedByStop(Step(cfg, s, w).log) <==> LaunchedByStop(s.log) || (s.loc == Recheck(ByStop) && !w.stop)
  {
    match s.loc
    case PollSnapshot => ByStopAppend(s.log, Saw(AllIdle(cfg, w), w.time));
    case Recheck(exit) => ByStopAppend(s.log, Launched(s.job, exit));
    case ReadResult => ByStopAppend(s.log, SeenValid(s.job));
    case Running => ByStopAppend(s.log, SeenValid(s.job));
    case _ =>
  }

  /** A child is launched out of a stop request exactly when the request
      vanishes between the poll that saw it and the very next look. */
  lemma {:induction false} StopLaunchExact(cfg: Config, world: seq<World>)
    ensures LaunchedByStop(Run(cfg, world).log)
       <==> SomeStopVanishes(cfg, world)
  {
    if world != [] {
      var front, w := world[..|world| - 1], world[|world| - 1];
      assert world == front + [w];
      StopLaunchExact(cfg, front);
      StepByStop(cfg, Run(cfg, front), w);
      if front != [] {
        VanishesAppend(cfg, front, w);
        RecheckOrigin(cfg, Run(cfg, front[..|front| - 1]), front[|front| - 1]);
      }
    }
  }

  lemma RecheckOrigin(cfg: Config, s: State, w: World)
    ensures Step(cfg, s, w).loc == Recheck(ByStop) <==> s.loc.PollStop? && w.stop
  {
  }

  /** Supervisor safety: with a positive stability time and no stop request that
      vanishes at once, every child starts only after an unbroken series of
      all-idle snapshots spanning at least that time. */
  lemma ChildStartsOnlyWhenIdle(cfg: Config, world: seq<World>, i: nat)
    requires cfg.stableSeconds > 0.0 && !SomeStopVanishes(cfg, world)
    requires i < |Run(cfg, world).log| && Run(cfg, world).log[i].Launched?
    ensures IdleFor(Run(cfg, world).log[..i], cfg.stableSeconds)
  {
    RunKeepsIdle(cfg, world);
    StopLaunchExact(cfg, world);
  }

  /** Once the world asks to stop, it goes on asking. */
  predicate StopIsSticky(world: seq<World>) {
    forall i | 0 <= i < |world| - 1 :: world[i].stop ==> world[i + 1].stop
  }

  predicate LaunchesOnlyWhenIdle(cfg: Config, world: seq<World>) {
    var log := Run(cfg, world).log;
    forall i | 0 <= i < |log| && log[i].Launched? :: IdleFor(log[..i], cfg.stableSeconds)
  }

  lemma StickyStopIsSafe(cfg: Config, world: seq<World>)
    requires cfg.stableSeconds > 0.0 && StopIsSticky(world)
    ensures LaunchesOnlyWhenIdle(cfg, world)
  {
    var log := Run(cfg, world).log;
    forall i | 0 <= i < |log| && log[i].Launched? ensures IdleFor(log[..i], cfg.stableSeconds) {
      ChildStartsOnlyWhenIdle(cfg, world, i);
    }
  }

  /** Four looks after which the first job is about to take its first snapshot. */
  const QUIET := World(false, Pending, [], 0.0, 0)
  const FIRST_POLL := [QUIET] + [QUIET] + [QUIET] + [QUIET]

  lemma FirstPoll(cfg: Config)
    requires cfg.jobs > 0
    ensures Run(cfg, FIRST_POLL)
         == State(0, PollSnapshot, None, 0, [])
  {
    var one := [QUIET];
    var two := one + [QUIET];
    var three := two + [QUIET];
    assert Run(cfg, one) == Step(cfg, Init(cfg), QUIET) by {
      RunAppend(cfg, [], QUIET);
      assert [] + [QUIET] == one;
    }
    RunAppend(cfg, one, QUIET);
    assert Run(cfg, two) == State(0, PollStop, None, 0, []);
    RunAppend(cfg, two, QUIET);
    RunAppend(cfg, three, QUIET);
  }

  /** With a stability time of zero or less one busy snapshot is enough. */
  lemma NoStabilityTimeLaunches(cfg: Config, busy: World)
    requires cfg.jobs > 0 && cfg.stableSeconds <= 0.0
    requires !AllIdle(cfg, busy) && !busy.stop
    ensures Run(cfg, FIRST_POLL + [busy] + [busy]).log
         == [Saw(false, busy.time), Launched(0, ByIdle)]
  {
    FirstPoll(cfg);
    RunAppend(cfg, FIRST_POLL, busy);
    RunAppend(cfg, FIRST_POLL + [busy], busy);
  }

  /** The stability time protects the GPUs in every world whose stop requests
      stay exactly when it is positive. */
  lemma StabilityTimeExact(cfg: Config)
    requires cfg.jobs > 0
    ensures (forall world | StopIsSticky(world) :: LaunchesOnlyWhenIdle(cfg, world))
       <==> cfg.stableSeconds > 0.0
  {
    if cfg.stableSeconds > 0.0 {
      forall world | StopIsSticky(world) ensures LaunchesOnlyWhenIdle(cfg, world) {
        StickyStopIsSafe(cfg, world);
      }
    } else {
      var busy := World(false, Pending, [cfg.maximumUsedMib + 1], 0.0, 0);
      assert busy.usedMib[0] > cfg.maximumUsedMib;
      var world := FIRST_POLL + [busy] + [busy];
      NoStabilityTimeLaunches(cfg, busy);
      var log := Run(cfg, world).log;
      assert log[1].Launched? && log[..1] == [Saw(false, 0.0)];
      assert !IdleFor(log[..1], cfg.stableSeconds);
      assert StopIsSticky(world) && !LaunchesOnlyWhenIdle(cfg, world);
    }
  }

  /** A STOP file removed between the two looks launches the child without a
      single snapshot, whatever the stability time. */
  lemma VanishingStopLaunches(cfg: Config, quiet: World, stop: World)
    requires cfg.jobs > 0 && !quiet.stop && quiet.verdict.Pending? && stop.stop
    ensures Run(cfg, [] + [quiet] + [quiet] + [stop] + [quiet]).log
         == [Launched(0, ByStop)]
  {
    var w1 := [] + [quiet];
    var w2 := w1 + [quiet];
    RunAppend(cfg, [], quiet);
    RunAppend(cfg, w1, quiet);
    RunAppend(cfg, w2, stop);
    assert Run(cfg, w2 + [stop]) == State(0, Recheck(ByStop), None, 0, []);
    RunAppend(cfg, w2 + [stop], quiet);
  }

  // ---------------------------------------------------------------------
  // One child per job, in order
  // ---------------------------------------------------------------------

  predicate LaunchedAtMost(log: seq<LogItem>, bound: int) {
    forall i | 0 <= i < |log| && log[i].Launched? :: log[i].job <= bound
  }

  /** Launches happen at most once per job, and only when every earlier job was
      seen valid before. */
  predicate InOrder(log: seq<LogItem>) {
    && (forall i, j | 0 <= i < j < |log| && log[i].Launched? && log[j].Launched? :: log[i].job < log[j].job)
    && (forall i | 0 <= i < |log| && log[i].Launched? ::
          forall k: nat | k < log[i].job :: SeenValid(k) in log[..i])
  }

  ghost predicate OrderInv(cfg: Config, s: State) {
    && InOrder(s.log)
    && LaunchedAtMost(s.log, if s.loc.Running? || s.loc == Halted(Blocked) then s.job else s.job - 1)
    && (forall k: nat :: SeenValid(k) in s.log <==> k < s.job)
    && s.job <= cfg.jobs
    && (s.job == cfg.jobs <==> s.loc == Halted(Complete))
  }

  lemma AppendOther(log: seq<LogItem>, item: LogItem)
    requires InOrder(log) && !item.Launched?
    ensures InOrder(log + [item])
  {
    var more := log + [item];
    forall i | 0 <= i < |more| && more[i].Launched? ensures forall k: nat | k < more[i].job :: SeenValid(k) in more[..i] {
      assert more[..i] == log[..i];
    }
  }

  lemma AppendLaunch(log: seq<LogItem>, job: nat, exit: Exit)
    requires InOrder(log) && LaunchedAtMost(log, job - 1) && forall k: nat | k < job :: SeenValid(k) in log
    ensures InOrder(log + [Launched(job, exit)])
  {
    var more := log + [Launched(job, exit)];
    forall i | 0 <= i < |more| && more[i].Launched? ensures forall k: nat | k < more[i].job :: SeenValid(k) in more[..i] {
      if i < |log| {
        assert more[..i] == log[..i];
      } else {
        assert more[..i] == log;
      }
    }
  }

  lemma NextJobKeepsOrder(cfg: Config, s: State)
    requires OrderInv(cfg, s) && (s.loc.ReadResult? || s.loc.Running?)
    ensures OrderInv(cfg, NextJob(cfg, s))
  {
    AppendOther(s.log, SeenValid(s.job));
    var s' := NextJob(cfg, s);
    forall k: nat ensures SeenValid(k) in s'.log <==> k < s'.job {
      assert SeenValid(k) in s.log <==> k < s.job;
    }
  }

  lemma SnapshotKeepsOrder(cfg: Config, s: State, idle: bool, time: real)
    requires OrderInv(cfg, s) && s.loc.PollSnapshot?
    ensures OrderInv(cfg, SnapshotStep(cfg, s, idle, time))
  {
    AppendOther(s.log, Saw(idle, time));
  }

  lemma LaunchKeepsOrder(cfg: Config, s: State, exit: Exit)
    requires OrderInv(cfg, s) && s.loc.Recheck?
    ensures OrderInv(cfg, Launch(s, exit))
  {
    AppendLaunch(s.log, s.job, exit);
  }

  lemma {:induction false} RunKeepsOrder(cfg: Config, world: seq<World>)
    ensures OrderInv(cfg, Run(cfg, world))
  {
    if world != [] {
      var s, w := Run(cfg, world[..|world| - 1]), world[|world| - 1];
      RunKeepsOrder(cfg, world[..|world| - 1]);
      match s.loc
      case PollSnapshot => SnapshotKeepsOrder(cfg, s, AllIdle(cfg, w), w.time);
      case ReadResult => NextJobKeepsOrder(cfg, s);
      case Running => NextJobKeepsOrder(cfg, s);
      case Recheck(exit) => LaunchKeepsOrder(cfg, s, exit);
      case _ =>
    }
  }

  /** On every run: at most one child per job, launched only after all earlier
      jobs were seen valid; "complete" is written only when every job was. */
  lemma JobsRunOnceInOrder(cfg: Config, world: seq<World>)
    ensures var s := Run(cfg, world);
            && InOrder(s.log)
            && (s.loc == Halted(Complete) ==> forall k: nat | k < cfg.jobs :: SeenValid(k) in s.log)
  {
    RunKeepsOrder(cfg, world);
  }

  // ---------------------------------------------------------------------
  // The log and the outcome, against the world
  // ---------------------------------------------------------------------

  /** What a look in state `s` puts into the log, said of the world: a job counts
      as valid only if its result is, and after a child only if that exited with
      zero; a child is launched only without a stop request; a snapshot is idle
      only if every GPU is within the limit. */
  predicate Logs(cfg: Config, s: State, w: World, x: LogItem) {
    match x
    case SeenValid(j) =>
      j == s.job && w.verdict.Valid? && (s.loc.ReadResult? || (s.loc.Running? && w.code == 0))
    case Launched(j, exit) => j == s.job && s.loc == Recheck(exit) && !w.stop
    case Saw(idle, t) =>
      && s.loc.PollSnapshot? && t == w.time
      && (idle <==> forall i | 0 <= i < |w.usedMib| :: w.usedMib[i] <= cfg.maximumUsedMib)
  }

  /** A result read as failed, or a child that failed or left no valid result. */
  predicate Fails(s: State, w: World) {
    || (s.loc.ReadResult? && w.verdict.Failed?)
    || (s.loc.Running? && (w.code != 0 || !w.verdict.Valid?))
  }

  predicate LookLogs(cfg: Config, world: seq<World>, k: nat, x: LogItem)
    requires k < |world|
  {
    Logs(cfg, Run(cfg, world[..k]), world[k], x)
  }

  predicate SomeLookLogs(cfg: Config, world: seq<World>, x: LogItem) {
    exists k | 0 <= k < |world| :: LookLogs(cfg, world, k, x)
  }

  predicate LookFails(cfg: Config, world: seq<World>, k: nat)
    requires k < |world|
  {
    Fails(Run(cfg, world[..k]), world[k])
  }

  predicate LookStops(cfg: Config, world: seq<World>, k: nat)
    requires k < |world|
  {
    Run(cfg, world[..k]).loc.Top? && world[k].stop
  }

  lemma {:induction false} LooksAppend(cfg: Config, world: seq<World>, w: World, x: LogItem)
    ensures SomeLookLogs(cfg, world + [w], x) <==> SomeLookLogs(cfg, world, x) || Logs(cfg, Run(cfg, world), w, x)
    ensures (exists k | 0 <= k < |world| + 1 :: LookFails(cfg, world + [w], k)) <==>
              (exists k | 0 <= k < |world| :: LookFails(cfg, world, k)) || Fails(Run(cfg, world), w)
    ensures (exists k | 0 <= k < |world| + 1 :: LookStops(cfg, world + [w], k)) <==>
              (exists k | 0 <= k < |world| :: LookStops(cfg, world, k)) || (Run(cfg, world).loc.Top? && w.stop)
  {
    var more, n := world + [w], |world|;
    assert more[..n] == world && more[n] == w;
    forall k | 0 <= k < n
      ensures LookLogs(cfg, more, k, x) <==> LookLogs(cfg, world, k, x)
      ensures LookFails(cfg, more, k) <==> LookFails(cfg, world, k)
      ensures LookStops(cfg, more, k) <==> LookStops(cfg, world, k)
    {
      assert more[..k] == world[..k] && more[k] == world[k];
    }
    assert LookLogs(cfg, more, n, x) <==> Logs(cfg, Run(cfg, world), w, x);
    assert LookFails(cfg, more, n) <==> Fails(Run(cfg, world), w);
    assert LookStops(cfg, more, n) <==> Run(cfg, world).loc.Top? && w.stop;
  }

  /** On every run the log holds exactly what the looks found; the supervisor is
      blocked exactly when one of them failed and stopped exactly when one at the
      top of a job saw a stop request. */
  lemma {:induction false} LooksExact(cfg: Config, world: seq<World>, x: LogItem)
    ensures x in Run(cfg, world).log
       <==> SomeLookLogs(cfg, world, x)
    ensures Run(cfg, world).loc == Halted(Blocked) <==> exists k | 0 <= k < |world| :: LookFails(cfg, world, k)
    ensures Run(cfg, world).loc == Halted(Stopped) <==> exists k | 0 <= k < |world| :: LookStops(cfg, world, k)
  {
    if world != [] {
      var front, w := world[..|world| - 1], world[|world| - 1];
      assert world == front + [w];
      LooksExact(cfg, front, x);
      LooksAppend(cfg, front, w, x);
    }
  }

  /** It is complete exactly when every job had a look that found it valid. */
  lemma {:induction false} CompleteExact(cfg: Config, world: seq<World>)
    ensures Run(cfg, world).loc == Halted(Complete) <==> forall j: nat | j < cfg.jobs :: SomeLookLogs(cfg, world, SeenValid(j))
  {
    RunKeepsOrder(cfg, world);
    forall j: nat ensures SomeLookLogs(cfg, world, SeenValid(j)) <==> j < Run(cfg, world).job {
      LooksExact(cfg, world, SeenValid(j));
    }
    if Run(cfg, world).job < cfg.jobs {
      assert !SomeLookLogs(cfg, world, SeenValid(Run(cfg, world).job));
    }
  }

  /** The result that was read last. */
  function LastResult(cfg: Config, world: seq<World>): Option<Verdict> {
    if world == [] then None
    else
      var front := world[..|world| - 1];
      var loc := Run(cfg, front).loc;
      if loc.ReadResult? || loc.PollResult? then Some(world[|world| - 1].verdict) else LastResult(cfg, front)
  }

  /** A child is launched, and the GPUs are polled, only while the last result
      read was pending. */
  lemma {:induction false} PollsOnlyPending(cfg: Config, world: seq<World>)
    ensures var loc := Run(cfg, world).loc; Polling(loc) || loc.Recheck? ==> LastResult(cfg, world) == Some(Pending)
  {
    if world != [] {
      PollsOnlyPending(cfg, world[..|world| - 1]);
    }
  }

  // ---------------------------------------------------------------------
  // The supervisor loops, reading a finite record of the world
  // ---------------------------------------------------------------------

  lemma LookStep(cfg: Config, world: seq<World>, k: nat)
    requires k < |world|
    ensures Run(cfg, world[..k + 1])
         == Step(cfg, Run(cfg, world[..k]), world[k])
  {
    assert world[..k + 1] == world[..k] + [world[k]];
    RunAppend(cfg, world[..k], world[k]);
  }

  lemma {:induction false} HaltedStays(cfg: Config, world: seq<World>, k: nat)
    requires k <= |world| && Run(cfg, world[..k]).loc.Halted?
    ensures Run(cfg, world) == Run(cfg, world[..k])
  {
    if k < |world| {
      var front := world[..|world| - 1];
      assert front[..k] == world[..k];
      HaltedStays(cfg, front, k);
    } else {
      assert world[..k] == world;
    }
  }

  /** The loops have made `k` looks and agree with the run so far. */
  predicate Agrees(cfg: Config, world: seq<World>, k: nat, s: State, job: nat, log: seq<LogItem>) {
    k <= |world| && s == Run(cfg, world[..k]) && s.job == job && s.log == log
  }

  /** How polling ended; it is starved when the record of the world ends. */
  datatype PollEnd = Leave(exit: Exit) | Settled | Starved

  /** Takes one snapshot and moves the start of the idle series. */
  method TakeSnapshot(cfg: Config, world: seq<World>, k: nat, job: nat, stable: Option<real>, log: seq<LogItem>, ghost s: State)
    returns (stable': Option<real>, log': seq<LogItem>, enough: bool)
    requires Agrees(cfg, world, k, s, job, log) && s.loc.PollSnapshot? && s.stable == stable && k < |world|
    ensures var s' := Step(cfg, s, world[k]);
            && Agrees(cfg, world, k + 1, s', job, log') && s'.stable == stable'
            && s'.loc == if enough then Recheck(ByIdle) else PollStop
  {
    var w := world[k];
    LookStep(cfg, world, k);
    var idle := forall i | 0 <= i < |w.usedMib| :: w.usedMib[i] <= cfg.maximumUsedMib;
    if !idle {
      stable' := None;
    } else if stable.None? || stable.value == 0.0 {
      stable' := Some(w.time);
    } else {
      stable' := stable;
    }
    log' := log + [Saw(idle, w.time)];
    var stableFor := if stable'.None? then 0.0 else w.time - stable'.value;
    enough := stableFor >= cfg.stableSeconds;
  }

  /** The two looks that precede a snapshot: stop request, then result. */
  method BeforeSnapshot(cfg: Config, world: seq<World>, start: nat, job: nat, log: seq<LogItem>, ghost s0: State)
    returns (end: Option<PollEnd>, k: nat, ghost s: State)
    requires Agrees(cfg, world, start, s0, job, log) && s0.loc.PollStop? && start < |world|
    ensures start < k && Agrees(cfg, world, k, s, job, log)
    ensures match end
            case Some(e) => PollEnded(world, e, k, s)
            case None => s.loc.PollSnapshot? && s.stable == s0.stable && k < |world|
  {
    LookStep(cfg, world, start);
    s := Step(cfg, s0, world[start]);
    k := start + 1;
    if world[start].stop {
      return Some(Leave(ByStop)), k, s;
    }
    if k == |world| {
      return Some(Starved), k, s;
    }
    LookStep(cfg, world, k);
    s := Step(cfg, s, world[k]);
    k := k + 1;
    if !world[k - 1].verdict.Pending? {
      return Some(Settled), k, s;
    }
    end := if k == |world| then Some(Starved) else None;
  }

  predicate PollEnded(world: seq<World>, end: PollEnd, k: nat, s: State) {
    match end
    case Leave(exit) => s.loc == Recheck(exit)
    case Settled => s.loc.Top?
    case Starved => k == |world| && Polling(s.loc)
  }

  /** The inner loop: polls until the GPUs were idle long enough, a stop request
      or a result on disk. */
  method Poll(cfg: Config, world: seq<World>, start: nat, job: nat, log0: seq<LogItem>, ghost s0: State)
    returns (end: PollEnd, k: nat, log: seq<LogItem>, ghost s: State)
    requires Agrees(cfg, world, start, s0, job, log0) && s0.loc.PollStop? && s0.stable.None?
    ensures start <= k && Agrees(cfg, world, k, s, job, log) && PollEnded(world, end, k, s)
    ensures start < |world| ==> start < k
  {
    k, log, s := start, log0, s0;
    var stable: Option<real> := None;
    while k < |world|
      invariant start <= k && Agrees(cfg, world, k, s, job, log)
      invariant s.loc.PollStop? && s.stable == stable
    {
      var ended, enough;
      ended, k, s := BeforeSnapshot(cfg, world, k, job, log, s);
      if ended.Some? {
        return ended.value, k, log, s;
      }
      stable, log, enough := TakeSnapshot(cfg, world, k, job, stable, log, s);
      s := Step(cfg, s, world[k]);
      k := k + 1;
      if enough {
        return Leave(ByIdle), k, log, s;
      }
    }
    end := Starved;
  }

  datatype JobEnd = Done | Halt(outcome: Outcome) | Interrupted

  /** The child of a job runs to its end. */
  method RunChild(cfg: Config, world: seq<World>, start: nat, job: nat, log0: seq<LogItem>, ghost s0: State)
    returns (end: JobEnd, k: nat, log: seq<LogItem>, ghost s: State)
    requires Agrees(cfg, world, start, s0, job, log0) && s0.loc.Running?
    ensures start <= k && JobEnded(cfg, world, end, k, job, log, s)
  {
    k, log, s := start, log0, s0;
    if k == |world| {
      return Interrupted, k, log, s;
    }
    LookStep(cfg, world, k);
    s := Step(cfg, s, world[k]);
    k := k + 1;
    if world[k - 1].code != 0 || !world[k - 1].verdict.Valid? {
      return Halt(Blocked), k, log, s;
    }
    log := log + [SeenValid(job)];
    end := Done;
  }

  predicate JobEnded(cfg: Config, world: seq<World>, end: JobEnd, k: nat, job: nat, log: seq<LogItem>, s: State) {
    match end
    case Done => Agrees(cfg, world, k, s, job + 1, log) && s.loc == if job + 1 < cfg.jobs then Top else Halted(Complete)
    case Halt(outcome) => Agrees(cfg, world, k, s, job, log) && s.loc == Halted(outcome)
    case Interrupted => Agrees(cfg, world, k, s, job, log) && k == |world| && !s.loc.Halted?
  }

  /** Looks for a reason not to poll: a stop request or a result on disk. */
  method StartJob(cfg: Config, world: seq<World>, start: nat, job: nat, log0: seq<LogItem>, ghost s0: State)
    returns (end: Option<JobEnd>, k: nat, log: seq<LogItem>, ghost s: State)
    requires Agrees(cfg, world, start, s0, job, log0) && s0.loc.Top?
    ensures start <= k
    ensures match end
            case Some(e) => JobEnded(cfg, world, e, k, job, log, s)
            case None => Agrees(cfg, world, k, s, job, log) && s.loc.PollStop? && s.stable.None?
  {
    k, log, s := start, log0, s0;
    if k == |world| {
      return Some(Interrupted), k, log, s;
    }
    LookStep(cfg, world, k);
    s := Step(cfg, s, world[k]);
    k := k + 1;
    if world[k - 1].stop {
      return Some(Halt(Stopped)), k, log, s;
    }
    if k == |world| {
      return Some(Interrupted), k, log, s;
    }
    LookStep(cfg, world, k);
    s := Step(cfg, s, world[k]);
    k := k + 1;
    match world[k - 1].verdict
    case Valid => return Some(Done), k, log + [SeenValid(job)], s;
    case Failed => return Some(Halt(Blocked)), k, log, s;
    case Pending => return None, k, log, s;
  }

  /** Looks for a stop request once more, then launches the child. */
  method RecheckStop(cfg: Config, world: seq<World>, k: nat, job: nat, log0: seq<LogItem>, exit: Exit, ghost s0: State)
    returns (launched: bool, log: seq<LogItem>, ghost s: State)
    requires Agrees(cfg, world, k, s0, job, log0) && s0.loc == Recheck(exit) && k < |world|
    ensures Agrees(cfg, world, k + 1, s, job, log) && s.loc == if launched then Running else Top
  {
    LookStep(cfg, world, k);
    s := Step(cfg, s0, world[k]);
    launched := !world[k].stop;
    log := if launched then log0 + [Launched(job, exit)] else log0;
  }

  /** The outer loop of one job. */
  method RunJob(cfg: Config, world: seq<World>, start: nat, job: nat, log0: seq<LogItem>, ghost s0: State)
    returns (end: JobEnd, k: nat, log: seq<LogItem>, ghost s: State)
    requires Agrees(cfg, world, start, s0, job, log0) && s0.loc.Top?
    ensures start <= k && JobEnded(cfg, world, end, k, job, log, s)
  {
    k, log, s := start, log0, s0;
    while true
      invariant start <= k && Agrees(cfg, world, k, s, job, log) && s.loc.Top?
      decreases |world| - k
    {
      var begun, polled;
      begun, k, log, s := StartJob(cfg, world, k, job, log, s);
      if begun.Some? {
        return begun.value, k, log, s;
      }
      polled, k, log, s := Poll(cfg, world, k, job, log, s);
      if polled.Settled? {
        continue;
      }
      if k == |world| {
        return Interrupted, k, log, s;
      }
      var launched;
      launched, log, s := RecheckStop(cfg, world, k, job, log, polled.exit, s);
      k := k + 1;
      if launched {
        end, k, log, s := RunChild(cfg, world, k, job, log, s);
        return;
      }
    }
  }

  /** The whole supervisor on a record of the world. It reports no outcome when
      the record ends before it halts. Its log and outcome are those of the
      run, to which the safety results above apply. */
  method Supervise(cfg: Config, world: seq<World>) returns (outcome: Option<Outcome>, log: seq<LogItem>)
    ensures log == Run(cfg, world).log
    ensures Run(cfg, world).loc.Halted? ==> outcome == Some(Run(cfg, world).loc.outcome)
    ensures !Run(cfg, world).loc.Halted? ==> outcome == None
    ensures cfg.stableSeconds > 0.0 && StopIsSticky(world) ==>
              forall i | 0 <= i < |log| && log[i].Launched? :: IdleFor(log[..i], cfg.stableSeconds)
    ensures InOrder(log)
    ensures forall x :: x in log <==> SomeLookLogs(cfg, world, x)
    ensures outcome == Some(Complete) <==> forall j: nat | j < cfg.jobs :: SomeLookLogs(cfg, world, SeenValid(j))
    ensures outcome == Some(Blocked) <==> exists k | 0 <= k < |world| :: LookFails(cfg, world, k)
    ensures outcome == Some(Stopped) <==> exists k | 0 <= k < |world| :: LookStops(cfg, world, k)
  {
    if cfg.stableSeconds > 0.0 && StopIsSticky(world) {
      StickyStopIsSafe(cfg, world);
    }
    JobsRunOnceInOrder(cfg, world);
    CompleteExact(cfg, world);
    forall x ensures x in Run(cfg, world).log <==> SomeLookLogs(cfg, world, x) {
      LooksExact(cfg, world, x);
    }
    LooksExact(cfg, world, SeenValid(0));
    outcome, log := SuperviseJobs(cfg, world);
  }

  method SuperviseJobs(cfg: Config, world: seq<World>) returns (outcome: Option<Outcome>, log: seq<LogItem>)
    ensures var s := Run(cfg, world);
            log == s.log && outcome == if s.loc.Halted? then Some(s.loc.outcome) else None
  {
    log := [];
    ghost var s := Init(cfg);
    var job, k := 0, 0;
    while job < cfg.jobs
      invariant job <= cfg.jobs && Agrees(cfg, world, k, s, job, log)
      invariant s.loc == if job < cfg.jobs then Top else Halted(Complete)
    {
      var end;
      end, k, log, s := RunJob(cfg, world, k, job, log, s);
      match end
      case Done => job := job + 1;
      case Halt(o) =>
        HaltedStays(cfg, world, k);
        return Some(o), log;
      case Interrupted =>
        assert world[..k] == world;
        return None, log;
    }
    HaltedStays(cfg, world, k);
    outcome := Some(Complete);
  }
}
