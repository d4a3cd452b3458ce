/** The formal loop of the driver, as it updates its ledger step by step. */
module LedgerDriver {
  import opened Ledger
  import opened Wrappers

  /** The keys of the valid formal rows. */
  function Completed(ledger: seq<Row>): (keys: set<Key>)
    ensures forall key :: key in keys <==> Has(ledger, key)
  {
    set i | 0 <= i < |ledger| && ledger[i].Counts() :: ledger[i].key
  }

  /** Aliases the byte-identical F1 configurations into F2. It fails exactly
      when a reused F2 cell has neither a row nor an F1 source; a second call
      would add nothing. */
  method ReuseF1RowsForF2(ledger: seq<Row>, repeat: int) returns (r: Option<seq<Row>>)
    ensures r == ReuseRows(ledger, repeat)
    ensures r.Some? ==> ledger <= r.value && ReuseRows(r.value, repeat) == r
  {
    var current := ledger;
    var k := 0;
    while k < |REUSED|
      invariant 0 <= k <= |REUSED| == 2
      invariant ledger <= current
      invariant k == 0 ==> current == ledger
      invariant k == 1 ==> ReuseOne(ledger, REUSED[0], repeat) == Some(current)
      invariant k == 2 ==> ReuseRows(ledger, repeat) == Some(current)
    {
      var (target, sourceCell) := REUSED[k];
      if TreatmentFlags(sourceCell) != TreatmentFlags(target) {
        return None;
      }
      if !Has(current, Key(target, repeat)) {
        var source := Latest(current, Key(sourceCell, repeat));
        if source.None? {
          return None;
        }
        current := current + [Alias(source.value, target)];
      }
      k := k + 1;
    }
    ReuseIdempotent(ledger, repeat);
    return Some(current);
  }

  /** Runs one task; `completed` are the keys that have their row. */
  method RunTask(p: Progress, completed: set<Key>, task: Task, outcome: nat -> Option<Summary>)
    returns (q: Progress, completed': set<Key>)
    requires !p.blocked && completed == Completed(p.ledger)
    ensures q == Do(p, task, outcome)
    ensures !q.blocked ==> completed' == Completed(q.ledger)
  {
    q, completed' := p, completed;
    match task {
      case PilotRun(cell) =>
        if !HasPilot(p.ledger, cell) {
          q := Attempted(p, Pilot, Key(cell, 0), outcome);
          completed' := Completed(q.ledger);
        }
      case Execute(key) =>
        if key !in completed {
          q := Attempted(p, Formal, key, outcome);
          if !q.blocked {
            HasGrows(p.ledger, q.ledger[|p.ledger|]);
            completed' := completed + {key};
          }
        }
      case Reuse(repeat) =>
        var reused := ReuseF1RowsForF2(p.ledger, repeat);
        if reused.None? {
          q := p.(blocked := true);
        } else {
          if reused.value != p.ledger {
            q := p.(ledger := reused.value, writes := p.writes + [reused.value]);
          }
          completed' := Completed(q.ledger);
        }
    }
  }

  /** Runs the tasks in order until one raises. */
  method RunTasks(start: Progress, tasks: seq<Task>, outcome: nat -> Option<Summary>) returns (p: Progress)
    requires !start.blocked
    ensures p == DoAll(start, tasks, outcome)
  {
    p := start;
    var completed := Completed(p.ledger);
    var k := 0;
    while k < |tasks|
      invariant 0 <= k <= |tasks|
      invariant !p.blocked && p == DoAll(start, tasks[..k], outcome)
      invariant completed == Completed(p.ledger)
    {
      TasksStep(start, tasks, k, outcome);
      p, completed := RunTask(p, completed, tasks[k], outcome);
      k := k + 1;
      if p.blocked {
        return;
      }
    }
    assert tasks[..k] == tasks;
  }

  lemma {:induction false} TasksStep(start: Progress, tasks: seq<Task>, k: nat, outcome: nat -> Option<Summary>)
    requires k < |tasks|
    ensures var q := DoAll(start, tasks[..k + 1], outcome);
            && q == Do(DoAll(start, tasks[..k], outcome), tasks[k], outcome)
            && (q.blocked ==> DoAll(start, tasks, outcome) == q)
  {
    assert tasks[..k + 1][..k] == tasks[..k];
    var q := DoAll(start, tasks[..k + 1], outcome);
    if q.blocked {
      assert tasks == tasks[..k + 1] + tasks[k + 1..];
      DoAllConcat(start, tasks[..k + 1], tasks[k + 1..], outcome);
      BlockedStays(q, tasks[k + 1..], outcome);
    }
  }

  lemma HasGrows(ledger: seq<Row>, row: Row)
    requires row.Counts()
    ensures Completed(ledger + [row])
         == Completed(ledger) + {row.key}
  {
    forall key ensures key in Completed(ledger + [row]) <==> key in Completed(ledger) + {row.key} {
      HasAppend(ledger, row, key);
    }
  }

  lemma {:induction false} AfterBlocked(ledger: seq<Row>, inv: Invocation, r: nat, upTo: nat)
    requires r <= upTo && After(ledger, inv, r).blocked
    ensures After(ledger, inv, upTo) == After(ledger, inv, r)
  {
    if r < upTo {
      AfterBlocked(ledger, inv, r, upTo - 1);
      BlockedStays(After(ledger, inv, r), RepeatTasks(inv, upTo), inv.outcome);
    }
  }

  /** One whole invocation. From a consistent ledger it persists only consistent
      ledgers and reports success only with exactly the full matrix; the rows it
      adds, aliases aside, hold what its GPU runs yielded, in order. */
  method RunMatrix(ledger: seq<Row>, inv: Invocation) returns (p: Progress)
    requires Consistent(ledger, inv.repeats) && Shuffled(inv)
    ensures p == Invoke(ledger, inv)
    ensures forall i | 0 <= i < |p.writes| :: Consistent(p.writes[i], inv.repeats)
    ensures !p.blocked ==> Complete(p.ledger, inv.repeats)
    ensures ledger <= p.ledger
    ensures Reported(p.ledger[|ledger|..]) == Yielded(inv.outcome, p.attempts)
  {
    InvocationSafe(ledger, inv);
    RowsHoldYields(ledger, inv, inv.repeats);
    p := RunTasks(Progress(ledger, ledger, [], 0, false), PilotTasks(inv), inv.outcome);
    var repeat := 0;
    while repeat < inv.repeats && !p.blocked
      invariant 0 <= repeat <= inv.repeats
      invariant p == After(ledger, inv, repeat)
    {
      repeat := repeat + 1;
      p := RunTasks(p, RepeatTasks(inv, repeat), inv.outcome);
    }
    if p.blocked {
      AfterBlocked(ledger, inv, repeat, inv.repeats);
    }
  }
}
