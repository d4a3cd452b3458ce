/** The resumable ledger of the F1/F2 experiment matrix, with crashes. */
module Ledger {
  import opened Wrappers

  datatype Experiment = F1 | F2

  datatype Treatment =
    | Rerouting | Reparallelization | OriginalSpotserve | MoeSpotserve
    | ReparallelizationOnly | MigrationOnly | FullMoeSpotserve

  datatype Stage = Pilot | Formal

  datatype Cell = Cell(experiment: Experiment, treatment: Treatment)

  datatype Key = Key(cell: Cell, repeat: int)

  type Summary = int

  datatype Row = Row(stage: Stage, valid: bool, key: Key, summary: Summary, reused: bool) {
    predicate Counts() {
      stage.Formal? && valid
    }
  }

  const F1_CELLS := [Cell(F1, Rerouting), Cell(F1, Reparallelization), Cell(F1, OriginalSpotserve), Cell(F1, MoeSpotserve)]
  const F2_CELLS := [Cell(F2, OriginalSpotserve), Cell(F2, ReparallelizationOnly), Cell(F2, MigrationOnly), Cell(F2, FullMoeSpotserve)]

  /** F2 cells that repeat an F1 configuration, with that configuration. */
  const REUSED := [(Cell(F2, OriginalSpotserve), Cell(F1, OriginalSpotserve)), (Cell(F2, FullMoeSpotserve), Cell(F1, MoeSpotserve))]

  // ---------------------------------------------------------------------
  // Treatment flags
  // ---------------------------------------------------------------------

  datatype Policy = NaiveRetry | TokenReplay | StatefulRecovery

  datatype Flags = Flags(policy: Policy, retries: nat, replan: bool, migration: bool, moeReplan: bool, moeMigration: bool)

  function TreatmentFlags(c: Cell): Option<Flags> {
    match c
    case Cell(F1, Rerouting) => Some(Flags(NaiveRetry, 2, false, false, false, false))
    case Cell(F1, Reparallelization) => Some(Flags(TokenReplay, 2, true, false, false, false))
    case Cell(F1, OriginalSpotserve) => Some(Flags(StatefulRecovery, 2, true, true, false, false))
    case Cell(F1, MoeSpotserve) => Some(Flags(StatefulRecovery, 2, true, true, true, true))
    case Cell(F2, OriginalSpotserve) => Some(Flags(StatefulRecovery, 2, true, true, false, false))
    case Cell(F2, ReparallelizationOnly) => Some(Flags(StatefulRecovery, 2, true, true, true, false))
    case Cell(F2, MigrationOnly) => Some(Flags(StatefulRecovery, 2, true, true, false, true))
    case Cell(F2, FullMoeSpotserve) => Some(Flags(StatefulRecovery, 2, true, true, true, true))
    case _ => None
  }

  /** The reuse table lists exactly the pairs with identical configurations: no
      alias is wrong and no further run could be saved. */
  lemma ReuseTableExact(f2: Cell, f1: Cell)
    requires f2 in F2_CELLS && f1 in F1_CELLS
    ensures TreatmentFlags(f1) == TreatmentFlags(f2) <==> (f2, f1) in REUSED
  {
    assert REUSED[0] in REUSED && REUSED[1] in REUSED;
  }

  // ---------------------------------------------------------------------
  // Reuse of F1 rows
  // ---------------------------------------------------------------------

  predicate Has(ledger: seq<Row>, key: Key) {
    exists i | 0 <= i < |ledger| :: ledger[i].Counts() && ledger[i].key == key
  }

  /** Row `i` is a valid formal row of `key`, and no later one is. */
  predicate IsLast(ledger: seq<Row>, key: Key, i: nat)
    requires i < |ledger|
  {
    && ledger[i].Counts() && ledger[i].key == key
    && forall j | i < j < |ledger| :: !(ledger[j].Counts() && ledger[j].key == key)
  }

  /** The last valid formal row of `key`. */
  function Latest(ledger: seq<Row>, key: Key): (r: Option<Row>)
    ensures r.Some? <==> Has(ledger, key)
    ensures r.Some? ==> r.value in ledger && r.value.Counts() && r.value.key == key
  {
    if ledger == [] then None
    else
      var n := |ledger| - 1;
      if ledger[n].Counts() && ledger[n].key == key then Some(ledger[n])
      else
        assert Has(ledger[..n], key) <==> Has(ledger, key);
        Latest(ledger[..n], key)
  }

  lemma {:induction false} LatestIsLast(ledger: seq<Row>, key: Key) returns (i: nat)
    requires Has(ledger, key)
    ensures i < |ledger| && IsLast(ledger, key, i) && Latest(ledger, key) == Some(ledger[i])
  {
    var n := |ledger| - 1;
    if ledger[n].Counts() && ledger[n].key == key {
      i := n;
    } else {
      i := LatestIsLast(ledger[..n], key);
      assert ledger[..n][i] == ledger[i];
    }
  }

  function Alias(source: Row, cell: Cell): Row {
    source.(key := Key(cell, source.key.repeat), reused := true)
  }

  /** One F2 cell: keep an existing row, else alias the F1 row, else fail. */
  function ReuseOne(ledger: seq<Row>, pair: (Cell, Cell), repeat: int): Option<seq<Row>> {
    if TreatmentFlags(pair.1) != TreatmentFlags(pair.0) then None
    else if Has(ledger, Key(pair.0, repeat)) then Some(ledger)
    else
      match Latest(ledger, Key(pair.1, repeat))
      case None => None
      case Some(source) => Some(ledger + [Alias(source, pair.0)])
  }

  function ReuseRows(ledger: seq<Row>, repeat: int): Option<seq<Row>> {
    match ReuseOne(ledger, REUSED[0], repeat)
    case None => None
    case Some(l) => ReuseOne(l, REUSED[1], repeat)
  }

  lemma HasAppend(ledger: seq<Row>, row: Row, key: Key)
    ensures Has(ledger + [row], key) <==> Has(ledger, key) || (row.Counts() && row.key == key)
  {
    if Has(ledger, key) {
      var i :| 0 <= i < |ledger| && ledger[i].Counts() && ledger[i].key == key;
      assert (ledger + [row])[i] == ledger[i];
    }
    if row.Counts() && row.key == key {
      assert (ledger + [row])[|ledger|] == row;
    }
  }

  /** Reuse succeeds exactly when each reused F2 cell already has a row or its
      F1 source has one; it then leaves exactly the two F2 keys added. */
  lemma ReuseExact(ledger: seq<Row>, repeat: int)
    ensures ReuseRows(ledger, repeat).Some? <==>
              forall k | 0 <= k < 2 :: Has(ledger, Key(REUSED[k].0, repeat)) || Has(ledger, Key(REUSED[k].1, repeat))
    ensures ReuseRows(ledger, repeat).Some? ==>
              forall key :: Has(ReuseRows(ledger, repeat).value, key) <==>
                Has(ledger, key) || key == Key(REUSED[0].0, repeat) || key == Key(REUSED[1].0, repeat)
  {
    var k00, k01 := Key(REUSED[0].0, repeat), Key(REUSED[0].1, repeat);
    var k10, k11 := Key(REUSED[1].0, repeat), Key(REUSED[1].1, repeat);
    var first := ReuseOne(ledger, REUSED[0], repeat);
    if first.Some? {
      forall key ensures Has(first.value, key) <==> Has(ledger, key) || key == k00 {
        if !Has(ledger, k00) {
          HasAppend(ledger, Alias(Latest(ledger, k01).value, REUSED[0].0), key);
        }
      }
      var second := ReuseOne(first.value, REUSED[1], repeat);
      if second.Some? {
        forall key ensures Has(second.value, key) <==> Has(first.value, key) || key == k10 {
          if !Has(first.value, k10) {
            HasAppend(first.value, Alias(Latest(first.value, k11).value, REUSED[1].0), key);
          }
        }
      }
    }
  }

  /** Reusing twice adds nothing. */
  lemma ReuseIdempotent(ledger: seq<Row>, repeat: int)
    requires ReuseRows(ledger, repeat).Some?
    ensures ReuseRows(ReuseRows(ledger, repeat).value, repeat)
         == ReuseRows(ledger, repeat)
  {
    ReuseExact(ledger, repeat);
    assert Has(ReuseRows(ledger, repeat).value, Key(REUSED[0].0, repeat));
    assert Has(ReuseRows(ledger, repeat).value, Key(REUSED[1].0, repeat));
  }

  // ---------------------------------------------------------------------
  // Consistency of a ledger
  // ---------------------------------------------------------------------

  predicate InMatrix(key: Key, repeats: int) {
    1 <= key.repeat <= repeats && (key.cell in F1_CELLS || key.cell in F2_CELLS)
  }

  /** Every formal row is valid and belongs to the matrix, no two have the same
      key, and every alias copies the F1 row it names. */
  predicate Consistent(ledger: seq<Row>, repeats: int) {
    && (forall i | 0 <= i < |ledger| :: ledger[i].stage.Formal? ==> ledger[i].valid && InMatrix(ledger[i].key, repeats))
    && (forall i, j | 0 <= i < j < |ledger| ::
          ledger[i].stage.Formal? && ledger[j].stage.Formal? ==> ledger[i].key != ledger[j].key)
    && (forall i | 0 <= i < |ledger| && ledger[i].reused :: Sourced(ledger, ledger[i]))
  }

  predicate Sourced(ledger: seq<Row>, alias: Row) {
    exists j | 0 <= j < |ledger| ::
      && ledger[j].Counts()
      && ledger[j].summary == alias.summary
      && ledger[j].key.repeat == alias.key.repeat
      && (alias.key.cell, ledger[j].key.cell) in REUSED
  }

  /** Exactly the full matrix: one formal row per cell and repeat. */
  ghost predicate Complete(ledger: seq<Row>, repeats: int) {
    Consistent(ledger, repeats) && forall key | InMatrix(key, repeats) :: Has(ledger, key)
  }

  lemma SourcedAppend(ledger: seq<Row>, row: Row, alias: Row)
    requires Sourced(ledger, alias)
    ensures Sourced(ledger + [row], alias)
  {
    var j :| 0 <= j < |ledger| && ledger[j].Counts() && ledger[j].summary == alias.summary
             && ledger[j].key.repeat == alias.key.repeat && (alias.key.cell, ledger[j].key.cell) in REUSED;
    assert (ledger + [row])[j] == ledger[j];
  }

  lemma AppendKeeps(ledger: seq<Row>, row: Row, repeats: int)
    requires Consistent(ledger, repeats)
    requires row.Counts() && InMatrix(row.key, repeats) && !Has(ledger, row.key)
    requires row.reused ==> Sourced(ledger, row)
    ensures Consistent(ledger + [row], repeats)
  {
    forall i | 0 <= i < |ledger + [row]| && (ledger + [row])[i].reused
      ensures Sourced(ledger + [row], (ledger + [row])[i])
    {
      SourcedAppend(ledger, row, (ledger + [row])[i]);
    }
  }

  lemma PilotKeeps(ledger: seq<Row>, row: Row, repeats: int)
    requires Consistent(ledger, repeats) && row.stage.Pilot? && !row.reused
    ensures Consistent(ledger + [row], repeats)
    ensures forall key :: Has(ledger + [row], key) <==> Has(ledger, key)
  {
    forall i | 0 <= i < |ledger + [row]| && (ledger + [row])[i].reused
      ensures Sourced(ledger + [row], (ledger + [row])[i])
    {
      SourcedAppend(ledger, row, (ledger + [row])[i]);
    }
    forall key ensures Has(ledger + [row], key) <==> Has(ledger, key) {
      HasAppend(ledger, row, key);
    }
  }

  lemma ReuseOneKeeps(ledger: seq<Row>, pair: (Cell, Cell), repeat: int, repeats: int)
    requires Consistent(ledger, repeats) && pair in REUSED && 1 <= repeat <= repeats
    ensures var r := ReuseOne(ledger, pair, repeat); r.Some? ==> Consistent(r.value, repeats)
  {
    var r := ReuseOne(ledger, pair, repeat);
    if r.Some? && r.value != ledger {
      var source := Latest(ledger, Key(pair.1, repeat)).value;
      var row := Alias(source, pair.0);
      assert Sourced(ledger, row) by {
        var j :| 0 <= j < |ledger| && ledger[j] == source;
      }
      AppendKeeps(ledger, row, repeats);
    }
  }

  lemma ReuseKeeps(ledger: seq<Row>, repeat: int, repeats: int)
    requires Consistent(ledger, repeats) && 1 <= repeat <= repeats
    ensures var r := ReuseRows(ledger, repeat); r.Some? ==> Consistent(r.value, repeats)
  {
    ReuseOneKeeps(ledger, REUSED[0], repeat, repeats);
    var first := ReuseOne(ledger, REUSED[0], repeat);
    if first.Some? {
      ReuseOneKeeps(first.value, REUSED[1], repeat, repeats);
    }
  }

  // ---------------------------------------------------------------------
  // One invocation of the driver
  // ---------------------------------------------------------------------

  /** What one invocation is given: the mode, the shuffled order of each repeat
      and what each attempted GPU run yields (nothing when it raises). */
  datatype Invocation = Invocation(
    repeats: nat,
    singlePass: bool,
    order: nat -> seq<Cell>,
    outcome: nat -> Option<Summary>)

  function Cells(singlePass: bool): seq<Cell> {
    if singlePass then F1_CELLS + [Cell(F2, ReparallelizationOnly), Cell(F2, MigrationOnly)]
    else F1_CELLS + F2_CELLS
  }

  /** The order of each repeat is some permutation of the registered cells. */
  ghost predicate Shuffled(inv: Invocation) {
    forall r: nat :: multiset(inv.order(r)) == multiset(Cells(inv.singlePass))
  }

  datatype Task = PilotRun(cell: Cell) | Execute(key: Key) | Reuse(repeat: int)

  predicate HasPilot(ledger: seq<Row>, cell: Cell) {
    exists i | 0 <= i < |ledger| :: ledger[i].stage.Pilot? && ledger[i].valid && ledger[i].key == Key(cell, 0)
  }

  /** Progress of an invocation: the ledger it resumed from, the one in memory,
      everything persisted so far, the number of attempted runs, and whether it was blocked. */
  datatype Progress = Progress(resumed: seq<Row>, ledger: seq<Row>, writes: seq<seq<Row>>, attempts: nat, blocked: bool)

  /** One GPU run: it raises, or its row is appended and the ledger persisted. */
  function Attempted(p: Progress, stage: Stage, key: Key, outcome: nat -> Option<Summary>): Progress {
    match outcome(p.attempts)
    case None => p.(attempts := p.attempts + 1, blocked := true)
    case Some(summary) =>
      var ledger := p.ledger + [Row(stage, true, key, summary, false)];
      Progress(p.resumed, ledger, p.writes + [ledger], p.attempts + 1, false)
  }

  function Do(p: Progress, task: Task, outcome: nat -> Option<Summary>): Progress {
    if p.blocked then p
    else
      match task
      case PilotRun(cell) =>
        if HasPilot(p.ledger, cell) then p else Attempted(p, Pilot, Key(cell, 0), outcome)
      case Execute(key) =>
        if Has(p.ledger, key) then p else Attempted(p, Formal, key, outcome)
      case Reuse(repeat) =>
        match ReuseRows(p.ledger, repeat)
        case None => p.(blocked := true)
        case Some(ledger) => if ledger == p.ledger then p else p.(ledger := ledger, writes := p.writes + [ledger])
  }

  function DoAll(p: Progress, tasks: seq<Task>, outcome: nat -> Option<Summary>): Progress {
    if tasks == [] then p else Do(DoAll(p, tasks[..|tasks| - 1], outcome), tasks[|tasks| - 1], outcome)
  }

  function Executes(cells: seq<Cell>, repeat: int): (tasks: seq<Task>)
    ensures |tasks| == |cells|
  {
    seq(|cells|, i requires 0 <= i < |cells| => Execute(Key(cells[i], repeat)))
  }

  function RepeatTasks(inv: Invocation, repeat: nat): seq<Task> {
    Executes(inv.order(repeat), repeat) + (if inv.singlePass then [Reuse(repeat)] else [])
  }

  function PilotTasks(inv: Invocation): seq<Task> {
    if inv.singlePass then [] else [PilotRun(Cell(F1, OriginalSpotserve)), PilotRun(Cell(F1, MoeSpotserve))]
  }

  /** Progress after the pilot and the first `upTo` repeats. */
  function After(ledger: seq<Row>, inv: Invocation, upTo: nat): Progress {
    if upTo == 0 then DoAll(Progress(ledger, ledger, [], 0, false), PilotTasks(inv), inv.outcome)
    else DoAll(After(ledger, inv, upTo - 1), RepeatTasks(inv, upTo), inv.outcome)
  }

  function Invoke(ledger: seq<Row>, inv: Invocation): Progress {
    After(ledger, inv, inv.repeats)
  }

  lemma {:induction false} DoAllConcat(p: Progress, a: seq<Task>, b: seq<Task>, outcome: nat -> Option<Summary>)
    ensures DoAll(p, a + b, outcome)
         == DoAll(DoAll(p, a, outcome), b, outcome)
  {
    if b == [] {
      assert a + b == a;
    } else {
      var front, last := b[..|b| - 1], b[|b| - 1];
      DoAllConcat(p, a, front, outcome);
      var mid := DoAll(DoAll(p, a, outcome), front, outcome);
      assert (a + b)[..|a + b| - 1] == a + front && (a + b)[|a + b| - 1] == last;
      assert DoAll(p, a + b, outcome) == Do(mid, last, outcome);
    }
  }

  lemma {:induction false} BlockedStays(p: Progress, tasks: seq<Task>, outcome: nat -> Option<Summary>)
    requires p.blocked
    ensures DoAll(p, tasks, outcome) == p
  {
    if tasks != [] {
      BlockedStays(p, tasks[..|tasks| - 1], outcome);
    }
  }

  // ---------------------------------------------------------------------
  // Every task keeps the ledger and everything persisted consistent
  // ---------------------------------------------------------------------

  predicate TaskOk(task: Task, repeats: int) {
    match task
    case PilotRun(_) => true
    case Execute(key) => InMatrix(key, repeats)
    case Reuse(repeat) => 1 <= repeat <= repeats
  }

  predicate TasksOk(tasks: seq<Task>, repeats: int) {
    forall i | 0 <= i < |tasks| :: TaskOk(tasks[i], repeats)
  }

  predicate ProgressOk(p: Progress, repeats: int) {
    && Consistent(p.ledger, repeats)
    && (forall i | 0 <= i < |p.writes| :: Consistent(p.writes[i], repeats))
    && p.ledger == if p.writes == [] then p.resumed else p.writes[|p.writes| - 1]
  }

  lemma DoKeeps(p: Progress, task: Task, outcome: nat -> Option<Summary>, repeats: int)
    requires ProgressOk(p, repeats) && TaskOk(task, repeats)
    ensures ProgressOk(Do(p, task, outcome), repeats)
    ensures Do(p, task, outcome).resumed == p.resumed
  {
    if !p.blocked {
      match task
      case PilotRun(cell) =>
        if !HasPilot(p.ledger, cell) && outcome(p.attempts).Some? {
          PilotKeeps(p.ledger, Row(Pilot, true, Key(cell, 0), outcome(p.attempts).value, false), repeats);
        }
      case Execute(key) =>
        if !Has(p.ledger, key) && outcome(p.attempts).Some? {
          AppendKeeps(p.ledger, Row(Formal, true, key, outcome(p.attempts).value, false), repeats);
        }
      case Reuse(repeat) => ReuseKeeps(p.ledger, repeat, repeats);
    }
  }

  lemma {:induction false} DoAllKeeps(p: Progress, tasks: seq<Task>, outcome: nat -> Option<Summary>, repeats: int)
    requires ProgressOk(p, repeats) && TasksOk(tasks, repeats)
    ensures ProgressOk(DoAll(p, tasks, outcome), repeats)
    ensures DoAll(p, tasks, outcome).resumed == p.resumed
  {
    if tasks != [] {
      var front, last := tasks[..|tasks| - 1], tasks[|tasks| - 1];
      DoAllKeeps(p, front, outcome, repeats);
      DoKeeps(DoAll(p, front, outcome), last, outcome, repeats);
    }
  }

  /** No task loses a row, and an executed key has its row unless the run
      raised. */
  lemma DoGrows(p: Progress, task: Task, outcome: nat -> Option<Summary>, key: Key)
    requires Has(p.ledger, key) || (task == Execute(key) && !Do(p, task, outcome).blocked)
    ensures Has(Do(p, task, outcome).ledger, key)
  {
    if !p.blocked {
      match task
      case PilotRun(cell) =>
        if outcome(p.attempts).Some? {
          HasAppend(p.ledger, Row(Pilot, true, Key(cell, 0), outcome(p.attempts).value, false), key);
        }
      case Execute(k) =>
        if outcome(p.attempts).Some? {
          HasAppend(p.ledger, Row(Formal, true, k, outcome(p.attempts).value, false), key);
        }
      case Reuse(repeat) => ReuseExact(p.ledger, repeat);
    }
  }

  lemma {:induction false} DoAllGrows(p: Progress, tasks: seq<Task>, outcome: nat -> Option<Summary>, key: Key)
    requires Has(p.ledger, key) || (Execute(key) in tasks && !DoAll(p, tasks, outcome).blocked)
    ensures Has(DoAll(p, tasks, outcome).ledger, key)
  {
    if tasks != [] {
      var front, last := tasks[..|tasks| - 1], tasks[|tasks| - 1];
      if Has(p.ledger, key) || Execute(key) in front {
        DoAllGrows(p, front, outcome, key);
      } else {
        assert last == Execute(key);
      }
      DoGrows(DoAll(p, front, outcome), last, outcome, key);
    }
  }

  lemma ShuffledMembers(inv: Invocation, r: nat, c: Cell)
    requires Shuffled(inv)
    ensures c in inv.order(r) <==> c in Cells(inv.singlePass)
  {
    assert c in inv.order(r) <==> c in multiset(inv.order(r));
    assert c in Cells(inv.singlePass) <==> c in multiset(Cells(inv.singlePass));
  }

  /** Once the cells of one repeat were executed without a raise, each has its
      row. */
  lemma ExecutedCells(p: Progress, inv: Invocation, repeat: nat, c: Cell)
    requires Shuffled(inv) && c in Cells(inv.singlePass)
    ensures var executed := DoAll(p, Executes(inv.order(repeat), repeat), inv.outcome);
            !executed.blocked ==> Has(executed.ledger, Key(c, repeat))
  {
    var tasks := Executes(inv.order(repeat), repeat);
    ShuffledMembers(inv, repeat, c);
    var i :| 0 <= i < |inv.order(repeat)| && inv.order(repeat)[i] == c;
    assert tasks[i] == Execute(Key(c, repeat));
    if !DoAll(p, tasks, inv.outcome).blocked {
      DoAllGrows(p, tasks, inv.outcome, Key(c, repeat));
    }
  }

  /** The F1-to-F2 reuse after a repeat cannot fail, and completes the repeat. */
  lemma ReuseAfterRepeat(ledger: seq<Row>, repeat: int)
    requires forall c | c in Cells(true) :: Has(ledger, Key(c, repeat))
    ensures var r := ReuseRows(ledger, repeat);
            r.Some? && forall c | c in F1_CELLS || c in F2_CELLS :: Has(r.value, Key(c, repeat))
  {
    assert Cell(F1, OriginalSpotserve) in Cells(true) && Cell(F1, MoeSpotserve) in Cells(true);
    ReuseExact(ledger, repeat);
    RepeatCells(true);
  }

  lemma ReuseDone(p: Progress, outcome: nat -> Option<Summary>, repeat: int)
    requires !p.blocked ==> forall c | c in Cells(true) :: Has(p.ledger, Key(c, repeat))
    ensures var done := DoAll(p, [Reuse(repeat)], outcome);
            && (done.blocked <==> p.blocked)
            && (!done.blocked ==> forall c | c in F1_CELLS || c in F2_CELLS :: Has(done.ledger, Key(c, repeat)))
  {
    assert [Reuse(repeat)][..0] == [] && DoAll(p, [], outcome) == p;
    if !p.blocked {
      ReuseAfterRepeat(p.ledger, repeat);
    }
  }

  /** After the tasks of one repeat, unless a GPU run raised, every cell of the
      matrix has its row for that repeat; the F1-to-F2 reuse cannot fail. */
  lemma RepeatDone(p: Progress, inv: Invocation, repeat: nat)
    requires Shuffled(inv)
    ensures var executed := DoAll(p, Executes(inv.order(repeat), repeat), inv.outcome);
            var done := DoAll(p, RepeatTasks(inv, repeat), inv.outcome);
            && (done.blocked <==> executed.blocked)
            && (!done.blocked ==> forall c | c in F1_CELLS || c in F2_CELLS :: Has(done.ledger, Key(c, repeat)))
  {
    var tasks := Executes(inv.order(repeat), repeat);
    var executed := DoAll(p, tasks, inv.outcome);
    forall c | c in Cells(inv.singlePass) ensures !executed.blocked ==> Has(executed.ledger, Key(c, repeat)) {
      ExecutedCells(p, inv, repeat, c);
    }
    if inv.singlePass {
      DoAllConcat(p, tasks, [Reuse(repeat)], inv.outcome);
      ReuseDone(executed, inv.outcome, repeat);
    } else {
      assert RepeatTasks(inv, repeat) == tasks;
      RepeatCells(false);
    }
  }

  lemma RepeatCells(singlePass: bool)
    ensures forall c | c in F1_CELLS || c in F2_CELLS ::
              c in Cells(singlePass) || (singlePass && (c == REUSED[0].0 || c == REUSED[1].0))
  {
  }

  lemma {:induction false} ExecutesBlockOnRaise(p: Progress, tasks: seq<Task>, outcome: nat -> Option<Summary>)
    requires p.blocked ==> p.attempts > 0 && outcome(p.attempts - 1).None?
    requires forall i | 0 <= i < |tasks| :: !tasks[i].Reuse?
    ensures var q := DoAll(p, tasks, outcome); q.blocked ==> q.attempts > 0 && outcome(q.attempts - 1).None?
  {
    if tasks != [] {
      ExecutesBlockOnRaise(p, tasks[..|tasks| - 1], outcome);
    }
  }

  /** The run is blocked only by a GPU run that raised; otherwise the first
      `upTo` repeats have all their rows. */
  ghost predicate Advanced(p: Progress, inv: Invocation, upTo: int) {
    && (p.blocked ==> p.attempts > 0 && inv.outcome(p.attempts - 1).None?)
    && (!p.blocked ==> forall key | InMatrix(key, upTo) :: Has(p.ledger, key))
  }

  lemma RepeatKeeps(p: Progress, inv: Invocation, repeat: nat)
    requires ProgressOk(p, inv.repeats) && Shuffled(inv) && 1 <= repeat <= inv.repeats
    ensures var q := DoAll(p, RepeatTasks(inv, repeat), inv.outcome); ProgressOk(q, inv.repeats) && q.resumed == p.resumed
  {
    AllTasksOk(inv, repeat);
    DoAllKeeps(p, RepeatTasks(inv, repeat), inv.outcome, inv.repeats);
  }

  lemma {:induction false} AfterKeeps(ledger: seq<Row>, inv: Invocation, upTo: nat)
    requires Consistent(ledger, inv.repeats) && Shuffled(inv) && upTo <= inv.repeats
    ensures ProgressOk(After(ledger, inv, upTo), inv.repeats)
    ensures After(ledger, inv, upTo).resumed == ledger
  {
    if upTo == 0 {
      AllTasksOk(inv, 0);
      DoAllKeeps(Progress(ledger, ledger, [], 0, false), PilotTasks(inv), inv.outcome, inv.repeats);
    } else {
      AfterKeeps(ledger, inv, upTo - 1);
      RepeatKeeps(After(ledger, inv, upTo - 1), inv, upTo);
    }
  }

  lemma {:induction false} AfterAdvances(ledger: seq<Row>, inv: Invocation, upTo: nat)
    requires Shuffled(inv)
    ensures Advanced(After(ledger, inv, upTo), inv, upTo)
  {
    if upTo == 0 {
      ExecutesBlockOnRaise(Progress(ledger, ledger, [], 0, false), PilotTasks(inv), inv.outcome);
    } else {
      AfterAdvances(ledger, inv, upTo - 1);
      RepeatAdvances(After(ledger, inv, upTo - 1), inv, upTo);
    }
  }

  lemma RepeatAdvances(p: Progress, inv: Invocation, repeat: nat)
    requires Shuffled(inv) && repeat >= 1 && Advanced(p, inv, repeat - 1)
    ensures Advanced(DoAll(p, RepeatTasks(inv, repeat), inv.outcome), inv, repeat)
  {
    var tasks := Executes(inv.order(repeat), repeat);
    var tail := if inv.singlePass then [Reuse(repeat)] else [];
    var executed, q := DoAll(p, tasks, inv.outcome), DoAll(p, RepeatTasks(inv, repeat), inv.outcome);
    RepeatDone(p, inv, repeat);
    ExecutesBlockOnRaise(p, tasks, inv.outcome);
    DoAllConcat(p, tasks, tail, inv.outcome);
    if executed.blocked {
      BlockedStays(executed, tail, inv.outcome);
    } else {
      if p.blocked {
        BlockedStays(p, tasks, inv.outcome);
      }
      forall key | InMatrix(key, repeat) ensures Has(q.ledger, key) {
        if key.repeat == repeat {
          assert key == Key(key.cell, repeat);
        } else {
          assert InMatrix(key, repeat - 1);
          DoAllGrows(p, RepeatTasks(inv, repeat), inv.outcome, key);
        }
      }
    }
  }

  lemma AllTasksOk(inv: Invocation, repeat: nat)
    requires Shuffled(inv)
    ensures TasksOk(PilotTasks(inv), inv.repeats)
    ensures 1 <= repeat <= inv.repeats ==> TasksOk(RepeatTasks(inv, repeat), inv.repeats)
  {
    if 1 <= repeat <= inv.repeats {
      forall i | 0 <= i < |RepeatTasks(inv, repeat)| ensures TaskOk(RepeatTasks(inv, repeat)[i], inv.repeats) {
        if i < |inv.order(repeat)| {
          ShuffledMembers(inv, repeat, inv.order(repeat)[i]);
        }
      }
    }
  }

  /** One invocation, resumed from any consistent ledger: everything it persists
      is consistent, it is blocked only by a GPU run that raised, and otherwise
      it ends with exactly the full matrix, persisted. */
  lemma InvocationSafe(ledger: seq<Row>, inv: Invocation)
    requires Consistent(ledger, inv.repeats) && Shuffled(inv)
    ensures var p := Invoke(ledger, inv);
            && ProgressOk(p, inv.repeats) && p.resumed == ledger
            && (p.blocked ==> p.attempts > 0 && inv.outcome(p.attempts - 1).None?)
            && (!p.blocked ==> Complete(p.ledger, inv.repeats))
  {
    AfterKeeps(ledger, inv, inv.repeats);
    AfterAdvances(ledger, inv, inv.repeats);
  }

  // ---------------------------------------------------------------------
  // Rows hold what their GPU runs yielded
  // ---------------------------------------------------------------------

  /** What the rows that are no aliases report, in ledger order. */
  function Reported(rows: seq<Row>): seq<Summary> {
    if rows == [] then []
    else
      var last := rows[|rows| - 1];
      Reported(rows[..|rows| - 1]) + if last.reused then [] else [last.summary]
  }

  /** What the first `n` attempted GPU runs yielded, without those that raised. */
  function Yielded(outcome: nat -> Option<Summary>, n: nat): seq<Summary> {
    if n == 0 then []
    else Yielded(outcome, n - 1) + if outcome(n - 1).Some? then [outcome(n - 1).value] else []
  }

  /** The ledger extends the one it was resumed from by one row per successful
      attempt, in order and with what it yielded, and by aliases; so does
      everything persisted. A blocked invocation is one whose last attempt
      raised, or that failed to reuse. */
  predicate Traced(p: Progress, outcome: nat -> Option<Summary>) {
    && p.resumed <= p.ledger
    && Reported(p.ledger[|p.resumed|..]) == Yielded(outcome, p.attempts)
    && WritesWithin(p.resumed, p.writes, p.ledger)
    && (forall k | 0 <= k < p.attempts :: outcome(k).None? ==> p.blocked)
  }

  predicate WritesWithin(resumed: seq<Row>, writes: seq<seq<Row>>, ledger: seq<Row>) {
    forall i | 0 <= i < |writes| :: resumed <= writes[i] <= ledger
  }

  lemma {:induction false} WritesGrow(resumed: seq<Row>, writes: seq<seq<Row>>, ledger: seq<Row>, next: seq<Row>)
    requires WritesWithin(resumed, writes, ledger) && resumed <= ledger <= next
    ensures WritesWithin(resumed, writes + [next], next)
  {
    forall i | 0 <= i < |writes| ensures resumed <= writes[i] <= next {
      assert writes[i] <= ledger;
    }
  }

  lemma {:induction false} ReportedAppend(resumed: seq<Row>, ledger: seq<Row>, row: Row)
    requires resumed <= ledger
    ensures resumed <= ledger + [row]
    ensures Reported((ledger + [row])[|resumed|..])
         == Reported(ledger[|resumed|..]) + if row.reused then [] else [row.summary]
  {
    var rows := ledger[|resumed|..];
    assert (ledger + [row])[|resumed|..] == rows + [row];
    assert (rows + [row])[..|rows|] == rows;
  }

  lemma {:induction false} ReuseOneTraced(resumed: seq<Row>, ledger: seq<Row>, pair: (Cell, Cell), repeat: int)
    requires resumed <= ledger && ReuseOne(ledger, pair, repeat).Some?
    ensures var r := ReuseOne(ledger, pair, repeat).value;
            ledger <= r && resumed <= r && Reported(r[|resumed|..]) == Reported(ledger[|resumed|..])
  {
    if !Has(ledger, Key(pair.0, repeat)) {
      ReportedAppend(resumed, ledger, Alias(Latest(ledger, Key(pair.1, repeat)).value, pair.0));
    }
  }

  lemma {:induction false} AttemptTraced(p: Progress, stage: Stage, key: Key, outcome: nat -> Option<Summary>)
    requires Traced(p, outcome) && !p.blocked
    ensures Traced(Attempted(p, stage, key, outcome), outcome)
  {
    if outcome(p.attempts).Some? {
      var row := Row(stage, true, key, outcome(p.attempts).value, false);
      ReportedAppend(p.resumed, p.ledger, row);
      WritesGrow(p.resumed, p.writes, p.ledger, p.ledger + [row]);
    }
  }

  lemma {:induction false} DoTraced(p: Progress, task: Task, outcome: nat -> Option<Summary>)
    requires Traced(p, outcome)
    ensures Traced(Do(p, task, outcome), outcome)
  {
    if !p.blocked {
      match task
      case PilotRun(cell) => AttemptTraced(p, Pilot, Key(cell, 0), outcome);
      case Execute(key) => AttemptTraced(p, Formal, key, outcome);
      case Reuse(repeat) =>
        if ReuseRows(p.ledger, repeat).Some? {
          ReuseTraced(p, repeat, outcome);
        }
    }
  }

  lemma {:induction false} ReuseTraced(p: Progress, repeat: int, outcome: nat -> Option<Summary>)
    requires Traced(p, outcome) && ReuseRows(p.ledger, repeat).Some?
    ensures var next := ReuseRows(p.ledger, repeat).value; Traced(p.(ledger := next, writes := p.writes + [next]), outcome)
  {
    var mid := ReuseOne(p.ledger, REUSED[0], repeat).value;
    var next := ReuseOne(mid, REUSED[1], repeat).value;
    ReuseOneTraced(p.resumed, p.ledger, REUSED[0], repeat);
    ReuseOneTraced(p.resumed, mid, REUSED[1], repeat);
    WritesGrow(p.resumed, p.writes, p.ledger, next);
  }

  lemma {:induction false} DoAllTraced(p: Progress, tasks: seq<Task>, outcome: nat -> Option<Summary>)
    requires Traced(p, outcome)
    ensures Traced(DoAll(p, tasks, outcome), outcome)
    ensures DoAll(p, tasks, outcome).resumed == p.resumed
  {
    if tasks != [] {
      DoAllTraced(p, tasks[..|tasks| - 1], outcome);
      DoTraced(DoAll(p, tasks[..|tasks| - 1], outcome), tasks[|tasks| - 1], outcome);
    }
  }

  /** Provenance on whole invocations: the resumed ledger is kept as a prefix, and
      the new rows that are no aliases carry, in order, exactly what the
      successful attempts yielded. */
  lemma {:induction false} RowsHoldYields(ledger: seq<Row>, inv: Invocation, upTo: nat)
    ensures Traced(After(ledger, inv, upTo), inv.outcome)
    ensures After(ledger, inv, upTo).resumed == ledger
  {
    if upTo == 0 {
      var p := Progress(ledger, ledger, [], 0, false);
      assert ledger[|ledger|..] == [];
      DoAllTraced(p, PilotTasks(inv), inv.outcome);
    } else {
      RowsHoldYields(ledger, inv, upTo - 1);
      DoAllTraced(After(ledger, inv, upTo - 1), RepeatTasks(inv, upTo), inv.outcome);
    }
  }

  function KeysOf(rows: seq<Row>): (keys: seq<Key>)
    ensures |keys| == |rows|
  {
    seq(|rows|, i requires 0 <= i < |rows| => rows[i].key)
  }

  /** The cells without a row for this repeat, in the given order. */
  function Missing(ledger: seq<Row>, cells: seq<Cell>, repeat: int): seq<Key> {
    if cells == [] then []
    else
      var key := Key(cells[|cells| - 1], repeat);
      Missing(ledger, cells[..|cells| - 1], repeat) + if Has(ledger, key) then [] else [key]
  }

  lemma {:induction false} OnlyMissing(ledger: seq<Row>, rows: seq<Row>, cells: seq<Cell>, repeat: int, c: Cell)
    requires KeysOf(rows) == Missing(ledger, cells, repeat) && c !in cells
    ensures Has(ledger + rows, Key(c, repeat))
       <==> Has(ledger, Key(c, repeat))
    decreases |cells|
  {
    MissingCells(ledger, cells, repeat);
    forall i | 0 <= i < |rows| ensures rows[i].key != Key(c, repeat) {
      assert KeysOf(rows)[i] == rows[i].key;
    }
    if Has(ledger, Key(c, repeat)) {
      var i :| 0 <= i < |ledger| && ledger[i].Counts() && ledger[i].key == Key(c, repeat);
      assert (ledger + rows)[i] == ledger[i];
    }
  }

  lemma {:induction false} MissingCells(ledger: seq<Row>, cells: seq<Cell>, repeat: int)
    ensures forall key | key in Missing(ledger, cells, repeat) :: key.cell in cells && key.repeat == repeat
  {
    if cells != [] {
      MissingCells(ledger, cells[..|cells| - 1], repeat);
    }
  }

  /** The GPU runs of a repeat happen in the registered order, each missing cell
      once: unless one raises, the rows added are those of the missing cells in
      that order. */
  lemma {:induction false} ExecutedInOrder(p: Progress, cells: seq<Cell>, repeat: int, outcome: nat -> Option<Summary>)
    requires forall i, j | 0 <= i < j < |cells| :: cells[i] != cells[j]
    requires !DoAll(p, Executes(cells, repeat), outcome).blocked
    ensures var q := DoAll(p, Executes(cells, repeat), outcome);
            p.ledger <= q.ledger && KeysOf(q.ledger[|p.ledger|..]) == Missing(p.ledger, cells, repeat)
  {
    if cells != [] {
      var front, c := cells[..|cells| - 1], cells[|cells| - 1];
      var tasks := Executes(cells, repeat);
      assert tasks[..|tasks| - 1] == Executes(front, repeat);
      var mid := DoAll(p, Executes(front, repeat), outcome);
      ExecutedInOrder(p, front, repeat, outcome);
      var rows := mid.ledger[|p.ledger|..];
      assert mid.ledger == p.ledger + rows;
      OnlyMissing(p.ledger, rows, front, repeat, c);
      var q := Do(mid, Execute(Key(c, repeat)), outcome);
      if !Has(p.ledger, Key(c, repeat)) {
        var row := q.ledger[|mid.ledger|];
        assert q.ledger[|p.ledger|..] == rows + [row];
        assert KeysOf(rows + [row]) == KeysOf(rows) + [Key(c, repeat)];
      }
    } else {
      assert Executes(cells, repeat) == [] && p.ledger[|p.ledger|..] == [];
    }
  }

  /** An unblocked pilot is on record. */
  lemma {:induction false} PilotRecorded(p: Progress, cell: Cell, outcome: nat -> Option<Summary>)
    requires !Do(p, PilotRun(cell), outcome).blocked
    ensures HasPilot(Do(p, PilotRun(cell), outcome).ledger, cell)
  {
    var ledger := Do(p, PilotRun(cell), outcome).ledger;
    if !HasPilot(p.ledger, cell) {
      assert ledger[|p.ledger|].key == Key(cell, 0);
    }
  }

  // ---------------------------------------------------------------------
  // Crashes and resumptions
  // ---------------------------------------------------------------------

  /** What survives on disk. */
  datatype Store = Store(recorded: Option<nat>, ledger: seq<Row>)

  /** How an invocation ends: on its own, killed before it recorded its repeat
      count, or killed once it had persisted this many ledgers. */
  datatype Ending = RanToEnd | KilledEarly | KilledAfter(writes: nat)

  datatype Launch = Launch(inv: Invocation, ending: Ending)

  function Persisted(ledger: seq<Row>, p: Progress, writes: nat): seq<Row> {
    var n := if writes <= |p.writes| then writes else |p.writes|;
    if n == 0 then ledger else p.writes[n - 1]
  }

  /** The store after one launch, and whether status "passed" was reached. */
  function Relaunch(s: Store, l: Launch): (Store, bool) {
    if s.recorded.Some? && s.recorded.value != l.inv.repeats then (s, false)
    else if l.ending.KilledEarly? then (s, false)
    else
      var p := Invoke(s.ledger, l.inv);
      var ledger := Persisted(s.ledger, p, if l.ending.KilledAfter? then l.ending.writes else |p.writes|);
      (Store(Some(l.inv.repeats), ledger), l.ending.RanToEnd? && !p.blocked)
  }

  function StoreAfter(launches: seq<Launch>): Store {
    if launches == [] then Store(None, [])
    else Relaunch(StoreAfter(launches[..|launches| - 1]), launches[|launches| - 1]).0
  }

  predicate StoreOk(s: Store) {
    match s.recorded
    case None => s.ledger == []
    case Some(repeats) => Consistent(s.ledger, repeats)
  }

  /** Wherever an invocation dies, what is on disk is consistent; when it ends
      unblocked, the full matrix is on disk. */
  lemma DiskSafe(ledger: seq<Row>, inv: Invocation, writes: nat)
    requires Consistent(ledger, inv.repeats) && Shuffled(inv)
    ensures var p := Invoke(ledger, inv);
            && Consistent(Persisted(ledger, p, writes), inv.repeats)
            && (!p.blocked ==> Complete(Persisted(ledger, p, |p.writes|), inv.repeats))
  {
    InvocationSafe(ledger, inv);
    var p := Invoke(ledger, inv);
    assert Persisted(ledger, p, |p.writes|) == p.ledger;
  }

  lemma RelaunchKeeps(s: Store, l: Launch)
    requires StoreOk(s) && Shuffled(l.inv)
    ensures StoreOk(Relaunch(s, l).0)
    ensures Relaunch(s, l).1 ==> Complete(Relaunch(s, l).0.ledger, l.inv.repeats)
  {
    var refused := (s.recorded.Some? && s.recorded.value != l.inv.repeats) || l.ending.KilledEarly?;
    if refused {
      assert Relaunch(s, l) == (s, false);
    } else {
      LedgerResumable(s, l.inv.repeats);
      var p := Invoke(s.ledger, l.inv);
      var writes := if l.ending.KilledAfter? then l.ending.writes else |p.writes|;
      DiskSafe(s.ledger, l.inv, writes);
      assert Relaunch(s, l) == (Store(Some(l.inv.repeats), Persisted(s.ledger, p, writes)), l.ending.RanToEnd? && !p.blocked);
    }
  }

  lemma {:induction false} PersistedExtends(ledger: seq<Row>, inv: Invocation, writes: nat)
    ensures ledger <= Persisted(ledger, Invoke(ledger, inv), writes)
  {
    RowsHoldYields(ledger, inv, inv.repeats);
  }

  /** An invocation is unblocked exactly when none of its GPU runs raised. */
  lemma {:induction false} UnblockedExact(ledger: seq<Row>, inv: Invocation)
    requires Consistent(ledger, inv.repeats) && Shuffled(inv)
    ensures !Invoke(ledger, inv).blocked <==> forall k | 0 <= k < Invoke(ledger, inv).attempts :: inv.outcome(k).Some?
  {
    InvocationSafe(ledger, inv);
    RowsHoldYields(ledger, inv, inv.repeats);
  }

  /** A launch never loses a stored row. It passes exactly when it is not refused,
      runs to its end, and none of its GPU runs raises. */
  lemma {:induction false} RelaunchExact(s: Store, l: Launch)
    requires StoreOk(s) && Shuffled(l.inv)
    ensures s.ledger <= Relaunch(s, l).0.ledger
    ensures Relaunch(s, l).1 <==>
              && (s.recorded.None? || s.recorded.value == l.inv.repeats) && l.ending.RanToEnd?
              && forall k | 0 <= k < Invoke(s.ledger, l.inv).attempts :: l.inv.outcome(k).Some?
  {
    if (s.recorded.Some? && s.recorded.value != l.inv.repeats) || l.ending.KilledEarly? {
      assert Relaunch(s, l) == (s, false);
    } else {
      var p := Invoke(s.ledger, l.inv);
      var writes := if l.ending.KilledAfter? then l.ending.writes else |p.writes|;
      LedgerResumable(s, l.inv.repeats);
      PersistedExtends(s.ledger, l.inv, writes);
      UnblockedExact(s.ledger, l.inv);
      assert Relaunch(s, l) == (Store(Some(l.inv.repeats), Persisted(s.ledger, p, writes)), l.ending.RanToEnd? && !p.blocked);
    }
  }

  lemma LedgerResumable(s: Store, repeats: nat)
    requires StoreOk(s) && (s.recorded.None? || s.recorded.value == repeats)
    ensures Consistent(s.ledger, repeats)
  {
  }

  /** Over any sequence of interrupted and resumed launches, single-pass or not
      and in any shuffled orders, the stored ledger never holds two formal rows
      for one key; whenever a launch reports "passed" the store holds exactly the
      full matrix and both final analyses are complete. */
  lemma {:induction false} LedgerSurvivesCrashes(launches: seq<Launch>)
    requires forall i | 0 <= i < |launches| :: Shuffled(launches[i].inv) && launches[i].inv.repeats >= 1
    ensures StoreOk(StoreAfter(launches))
    ensures launches != [] ==>
              var l := launches[|launches| - 1];
              var (s, passed) := Relaunch(StoreAfter(launches[..|launches| - 1]), l);
              passed ==>
                && Complete(s.ledger, l.inv.repeats)
                && !ContributionPending(s.ledger, l.inv.repeats)
                && !AblationPending(s.ledger, l.inv.repeats)
  {
    if launches != [] {
      var front, l := launches[..|launches| - 1], launches[|launches| - 1];
      LedgerSurvivesCrashes(front);
      RelaunchKeeps(StoreAfter(front), l);
      var (s, passed) := Relaunch(StoreAfter(front), l);
      if passed {
        AnalysesComplete(s.ledger, l.inv.repeats);
      }
    }
  }

  // ---------------------------------------------------------------------
  // Final analyses
  // ---------------------------------------------------------------------

  /** The formal rows of one cell, in ledger order. The contribution analysis
      does not look at validity. */
  function RowsOf(ledger: seq<Row>, cell: Cell): seq<Row> {
    if ledger == [] then []
    else if ledger[0].stage.Formal? && ledger[0].key.cell == cell then [ledger[0]] + RowsOf(ledger[1..], cell)
    else RowsOf(ledger[1..], cell)
  }

  function ValidRowsOf(ledger: seq<Row>, cell: Cell): seq<Row> {
    if ledger == [] then []
    else if ledger[0].Counts() && ledger[0].key.cell == cell then [ledger[0]] + ValidRowsOf(ledger[1..], cell)
    else ValidRowsOf(ledger[1..], cell)
  }

  function InsertByRepeat(row: Row, rows: seq<Row>): seq<Row> {
    if rows == [] || row.key.repeat <= rows[0].key.repeat then [row] + rows
    else [rows[0]] + InsertByRepeat(row, rows[1..])
  }

  /** Stable sort by repeat number. */
  function SortByRepeat(rows: seq<Row>): seq<Row> {
    if rows == [] then [] else InsertByRepeat(rows[0], SortByRepeat(rows[1..]))
  }

  predicate ContributionPending(ledger: seq<Row>, expected: int) {
    var original := RowsOf(ledger, Cell(F1, OriginalSpotserve));
    var candidate := RowsOf(ledger, Cell(F1, MoeSpotserve));
    || |original| != expected
    || |candidate| != expected
    || var left, right := SortByRepeat(original), SortByRepeat(candidate);
       exists i | 0 <= i < |left| && i < |right| :: left[i].key.repeat != right[i].key.repeat
  }

  predicate AblationPending(ledger: seq<Row>, expected: int) {
    exists i | 0 <= i < |F2_CELLS| :: |ValidRowsOf(ledger, F2_CELLS[i])| != expected
  }

  predicate Increasing(rows: seq<Row>) {
    forall i, j | 0 <= i < j < |rows| :: rows[i].key.repeat < rows[j].key.repeat
  }

  predicate Covers(rows: seq<Row>, r: int) {
    exists i | 0 <= i < |rows| :: rows[i].key.repeat == r
  }

  predicate DistinctRepeats(rows: seq<Row>) {
    forall i, j | 0 <= i < j < |rows| :: rows[i].key.repeat != rows[j].key.repeat
  }

  lemma {:induction false} InsertSorted(row: Row, rows: seq<Row>)
    requires Increasing(rows) && forall i | 0 <= i < |rows| :: rows[i].key.repeat != row.key.repeat
    ensures Increasing(InsertByRepeat(row, rows))
    ensures |InsertByRepeat(row, rows)| == |rows| + 1
    ensures forall x :: x in InsertByRepeat(row, rows) <==> x == row || x in rows
  {
    if rows != [] && row.key.repeat > rows[0].key.repeat {
      InsertSorted(row, rows[1..]);
      var rest := InsertByRepeat(row, rows[1..]);
      assert forall x :: x in rows <==> x == rows[0] || x in rows[1..];
      forall i | 0 <= i < |rest| ensures rows[0].key.repeat < rest[i].key.repeat {
        assert rest[i] in rest;
      }
    }
  }

  lemma {:induction false} SortSorted(rows: seq<Row>)
    requires DistinctRepeats(rows)
    ensures Increasing(SortByRepeat(rows)) && |SortByRepeat(rows)| == |rows|
    ensures forall x :: x in SortByRepeat(rows) <==> x in rows
  {
    if rows != [] {
      SortSorted(rows[1..]);
      var rest := SortByRepeat(rows[1..]);
      forall i | 0 <= i < |rest| ensures rest[i].key.repeat != rows[0].key.repeat {
        assert rest[i] in rows[1..];
      }
      InsertSorted(rows[0], rest);
      assert forall x :: x in rows <==> x == rows[0] || x in rows[1..];
    }
  }

  lemma {:induction false} IncreasingBounds(rows: seq<Row>, n: int)
    requires Increasing(rows) && forall i | 0 <= i < |rows| :: 1 <= rows[i].key.repeat <= n
    ensures forall i | 0 <= i < |rows| :: i + 1 <= rows[i].key.repeat <= n - (|rows| - 1 - i)
  {
    if rows != [] {
      var last := |rows| - 1;
      assert forall i | 0 <= i < last :: rows[i].key.repeat < rows[last].key.repeat;
      IncreasingBounds(rows[..last], n - 1);
      assert |rows| > 1 ==> rows[|rows| - 2] == rows[..|rows| - 1][|rows| - 2];
    }
  }

  /** Increasing rows within repeats 1 to `n` are `n` rows exactly when they cover
      all of them; the i-th is then of repeat i + 1. */
  lemma {:induction false} IncreasingRepeats(rows: seq<Row>, n: nat)
    requires Increasing(rows) && forall i | 0 <= i < |rows| :: 1 <= rows[i].key.repeat <= n
    ensures |rows| == n <==> forall r | 1 <= r <= n :: Covers(rows, r)
    ensures |rows| == n ==> forall i | 0 <= i < n :: rows[i].key.repeat == i + 1
  {
    IncreasingBounds(rows, n);
    if |rows| == n {
      forall r | 1 <= r <= n ensures Covers(rows, r) {
        assert rows[r - 1].key.repeat == r;
      }
    }
    if forall r | 1 <= r <= n :: Covers(rows, r) {
      CoveringIsLong(rows, n);
      assert rows != [] ==> 1 <= rows[0].key.repeat <= n - (|rows| - 1);
    }
  }

  lemma {:induction false} CoveringIsLong(rows: seq<Row>, n: nat)
    requires Increasing(rows) && forall r | 1 <= r <= n :: Covers(rows, r)
    ensures |rows| >= n
  {
    if n > 0 {
      assert Covers(rows, n);
      var k :| 0 <= k < |rows| && rows[k].key.repeat == n;
      var front := rows[..k];
      forall r | 1 <= r <= n - 1 ensures Covers(front, r) {
        assert Covers(rows, r);
        var i :| 0 <= i < |rows| && rows[i].key.repeat == r;
        assert front[i] == rows[i];
      }
      CoveringIsLong(front, n - 1);
    }
  }

  lemma {:induction false} RowsOfMembers(ledger: seq<Row>, cell: Cell)
    ensures forall x :: x in RowsOf(ledger, cell) <==> x in ledger && x.stage.Formal? && x.key.cell == cell
  {
    if ledger != [] {
      RowsOfMembers(ledger[1..], cell);
      assert forall x :: x in ledger <==> x == ledger[0] || x in ledger[1..];
    }
  }

  predicate UniqueFormal(ledger: seq<Row>) {
    && (forall i | 0 <= i < |ledger| :: ledger[i].stage.Formal? ==> ledger[i].valid)
    && forall i, j | 0 <= i < j < |ledger| ::
         ledger[i].stage.Formal? && ledger[j].stage.Formal? ==> ledger[i].key != ledger[j].key
  }

  lemma {:induction false} RowsOfDistinct(ledger: seq<Row>, cell: Cell)
    requires UniqueFormal(ledger)
    ensures DistinctRepeats(RowsOf(ledger, cell))
    ensures ValidRowsOf(ledger, cell) == RowsOf(ledger, cell)
  {
    if ledger != [] {
      RowsOfDistinct(ledger[1..], cell);
      RowsOfMembers(ledger[1..], cell);
      var rest := RowsOf(ledger[1..], cell);
      if ledger[0].stage.Formal? && ledger[0].key.cell == cell {
        forall i | 0 <= i < |rest| ensures rest[i].key.repeat != ledger[0].key.repeat {
          assert rest[i] in ledger[1..];
          var j :| 0 <= j < |ledger[1..]| && ledger[1..][j] == rest[i];
          assert ledger[j + 1] == rest[i];
        }
      }
    }
  }

  /** In a consistent ledger a cell has `n` rows exactly when it has one per
      repeat; sorted, the i-th is then of repeat i + 1. */
  lemma {:induction false} CellRepeats(ledger: seq<Row>, cell: Cell, n: nat)
    requires Consistent(ledger, n)
    ensures ValidRowsOf(ledger, cell) == RowsOf(ledger, cell)
    ensures |RowsOf(ledger, cell)| == n <==> forall r | 1 <= r <= n :: Has(ledger, Key(cell, r))
    ensures var sorted := SortByRepeat(RowsOf(ledger, cell));
            |sorted| == |RowsOf(ledger, cell)| && (|sorted| == n ==> forall i | 0 <= i < n :: sorted[i].key.repeat == i + 1)
  {
    var rows := RowsOf(ledger, cell);
    var sorted := SortByRepeat(rows);
    RowsOfDistinct(ledger, cell);
    SortSorted(rows);
    RowsOfMembers(ledger, cell);
    forall i | 0 <= i < |sorted| ensures 1 <= sorted[i].key.repeat <= n {
      assert sorted[i] in rows;
      var j :| 0 <= j < |ledger| && ledger[j] == sorted[i];
    }
    forall r | 1 <= r <= n ensures Covers(sorted, r) <==> Has(ledger, Key(cell, r)) {
      CoversIsHas(ledger, cell, n, sorted, r);
    }
    IncreasingRepeats(sorted, n);
  }

  lemma {:induction false} CoversIsHas(ledger: seq<Row>, cell: Cell, n: nat, sorted: seq<Row>, r: int)
    requires Consistent(ledger, n) && forall x :: x in sorted <==> x in ledger && x.stage.Formal? && x.key.cell == cell
    ensures Covers(sorted, r) <==> Has(ledger, Key(cell, r))
  {
    if Has(ledger, Key(cell, r)) {
      var j :| 0 <= j < |ledger| && ledger[j].Counts() && ledger[j].key == Key(cell, r);
      assert ledger[j] in sorted;
    }
    if Covers(sorted, r) {
      var i :| 0 <= i < |sorted| && sorted[i].key.repeat == r;
      assert sorted[i] in ledger;
      var j :| 0 <= j < |ledger| && ledger[j] == sorted[i];
    }
  }

  predicate CellDone(ledger: seq<Row>, cell: Cell, n: int) {
    forall r | 1 <= r <= n :: Has(ledger, Key(cell, r))
  }

  /** For a consistent ledger each analysis is pending exactly when one of its
      cells lacks a repeat. */
  lemma {:induction false} AnalysesExact(ledger: seq<Row>, n: nat)
    requires Consistent(ledger, n)
    ensures ContributionPending(ledger, n) <==>
              !(CellDone(ledger, Cell(F1, OriginalSpotserve), n) && CellDone(ledger, Cell(F1, MoeSpotserve), n))
    ensures AblationPending(ledger, n) <==> exists i | 0 <= i < |F2_CELLS| :: !CellDone(ledger, F2_CELLS[i], n)
  {
    CellRepeats(ledger, Cell(F1, OriginalSpotserve), n);
    CellRepeats(ledger, Cell(F1, MoeSpotserve), n);
    forall i | 0 <= i < |F2_CELLS| ensures |ValidRowsOf(ledger, F2_CELLS[i])| == n <==> CellDone(ledger, F2_CELLS[i], n) {
      CellRepeats(ledger, F2_CELLS[i], n);
    }
  }

  lemma {:induction false} AnalysesComplete(ledger: seq<Row>, n: nat)
    requires Complete(ledger, n)
    ensures !ContributionPending(ledger, n)
    ensures !AblationPending(ledger, n)
  {
    AnalysesExact(ledger, n);
    forall c | c in F1_CELLS || c in F2_CELLS ensures CellDone(ledger, c, n) {
      forall r | 1 <= r <= n ensures Has(ledger, Key(c, r)) {
        assert InMatrix(Key(c, r), n);
      }
    }
    assert Cell(F1, OriginalSpotserve) in F1_CELLS && Cell(F1, MoeSpotserve) in F1_CELLS;
  }
}
