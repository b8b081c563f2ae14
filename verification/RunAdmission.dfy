/**
 Admission. A claim by a new worker is checked against the stored active count.
 Re-claiming a settled worker, or reporting it running again, is not checked, so
 the bound `active <= concurrency` is not an invariant of the protocol; this
 module states exactly which steps break it.
 */
module RunAdmission {
  import opened Wrappers
  import opened Runs
  import opened RunInvariants
  import opened RunLeases

  /** Workers other than `id` that a recalculation at `now` leaves running. */
  function LiveOthers(row: Row, id: string, now: Instant): set<string> {
    set x | x in row.workers && x != id && row.workers[x].status == Running && now <= row.workers[x].leaseExpiresAt
  }

  /** The step would make a settled worker run again. */
  predicate Revives(row: Row, op: Op) {
    && (op.Claim? || op.Update?)
    && op.id in row.workers
    && row.workers[op.id].status != Running
    && (op.Update? ==> op.status == Running && op.now <= row.workers[op.id].leaseExpiresAt)
  }

  /** The unguarded case: a revival while every slot is held by a live lease. */
  ghost predicate OverAdmits(row: Row, op: Op) {
    && OpError(row, op).None?
    && Revives(row, op)
    && |LiveOthers(row, op.id, op.now)| >= row.concurrency
  }

  // ---------------------------------------------------- running workers after a step

  lemma ClaimRunning(row: Row, op: Op)
    requires op.Claim? && OpError(row, op).None?
    ensures With(Next(row, op).workers, Running) == LiveOthers(row, op.id, op.now) + {op.id}
  {
    StampClose(op.now + DEFAULT_LEASE * SECOND);
  }

  lemma UpdateRunning(row: Row, op: Op)
    requires op.Update? && OpError(row, op).None?
    ensures With(Next(row, op).workers, Running) == LiveOthers(row, op.id, op.now) +
              if op.status == Running && op.now <= row.workers[op.id].leaseExpiresAt then {op.id} else {}
  {
    assert Next(row, op) == Updated(row, op);
  }

  lemma SettlingRunning(row: Row, op: Op)
    requires (op.Heartbeat? || op.Cancel?) && OpError(row, op).None?
    ensures With(Next(row, op).workers, Running) <= With(row.workers, Running)
  {}

  lemma Smaller(a: set<string>, b: set<string>)
    requires a <= b
    ensures |a| <= |b|
  {
    assert b == a + (b - a);
  }

  // ------------------------------------------------------------ one step

  /** A claim by a worker the run has not seen always commits within the limit. */
  lemma NewWorkerAdmitted(row: Row, op: Op)
    requires Coherent(row) && op.Claim? && op.id !in row.workers && OpError(row, op).None?
    ensures Next(row, op).active <= row.concurrency
  {
    ClaimRunning(row, op);
    StepKeeps(row, op);
    Smaller(LiveOthers(row, op.id, op.now), With(row.workers, Running));
  }

  lemma ClaimExact(row: Row, op: Op)
    requires Coherent(row) && row.active <= row.concurrency && op.Claim? && OpError(row, op).None?
    ensures Next(row, op).active <= row.concurrency <==> !OverAdmits(row, op)
  {
    if op.id !in row.workers {
      NewWorkerAdmitted(row, op);
    } else {
      ClaimActive(row, op);
      if row.workers[op.id].status == Running {
        Smaller(LiveOthers(row, op.id, op.now) + {op.id}, With(row.workers, Running));
      }
    }
  }

  lemma ClaimActive(row: Row, op: Op)
    requires Coherent(row) && op.Claim? && OpError(row, op).None?
    ensures row.active == Count(row.workers, Running)
    ensures Next(row, op).active == |LiveOthers(row, op.id, op.now)| + 1
  {
    ClaimRunning(row, op);
    StepKeeps(row, op);
  }

  lemma UpdateExact(row: Row, op: Op)
    requires Coherent(row) && row.active <= row.concurrency && op.Update? && OpError(row, op).None?
    ensures Next(row, op).active <= row.concurrency <==> !OverAdmits(row, op)
  {
    if Revives(row, op) {
      RevivalActive(row, op);
    } else {
      UpdateRunning(row, op);
      StepKeeps(row, op);
      Smaller(With(Next(row, op).workers, Running), With(row.workers, Running));
    }
  }

  lemma RevivalActive(row: Row, op: Op)
    requires Coherent(row) && op.Update? && OpError(row, op).None? && Revives(row, op)
    ensures Next(row, op).active == |LiveOthers(row, op.id, op.now)| + 1
  {
    UpdateRunning(row, op);
    StepKeeps(row, op);
  }

  /** One step from within the limit stays within it, except exactly when it over-admits. */
  lemma AdmissionExact(row: Row, op: Op)
    requires Coherent(row) && row.active <= row.concurrency
    ensures Next(row, op).active <= row.concurrency <==> !OverAdmits(row, op)
  {
    if OpError(row, op).None? {
      if op.Claim? {
        ClaimExact(row, op);
      } else if op.Update? {
        UpdateExact(row, op);
      } else {
        StepKeeps(row, op);
        SettlingRunning(row, op);
        Smaller(With(Next(row, op).workers, Running), With(row.workers, Running));
      }
    }
  }

  // ----------------------------------------------------------- whole runs

  /** Every state the run passes through is within the limit. */
  ghost predicate WithinLimit(row: Row, ops: seq<Op>)
    decreases |ops|
  {
    row.active <= row.concurrency && (ops == [] || WithinLimit(Next(row, ops[0]), ops[1..]))
  }

  ghost predicate NeverOverAdmits(row: Row, ops: seq<Op>)
    decreases |ops|
  {
    ops == [] || (!OverAdmits(row, ops[0]) && NeverOverAdmits(Next(row, ops[0]), ops[1..]))
  }

  /** Re-claims and reports of "running" touch only workers already stored as running. */
  ghost predicate Disciplined(row: Row, ops: seq<Op>)
    decreases |ops|
  {
    ops == [] || (!Revives(row, ops[0]) && Disciplined(Next(row, ops[0]), ops[1..]))
  }

  lemma {:induction false} LimitOverRuns(row: Row, ops: seq<Op>)
    requires Coherent(row) && row.active <= row.concurrency
    ensures WithinLimit(row, ops) <==> NeverOverAdmits(row, ops)
    decreases |ops|
  {
    if ops != [] {
      AdmissionExact(row, ops[0]);
      StepKeeps(row, ops[0]);
      StepGrows(row, ops[0]);
      if Next(row, ops[0]).active <= row.concurrency {
        LimitOverRuns(Next(row, ops[0]), ops[1..]);
      }
    }
  }

  lemma {:induction false} DisciplinedNeverOverAdmits(row: Row, ops: seq<Op>)
    requires Disciplined(row, ops)
    ensures NeverOverAdmits(row, ops)
    decreases |ops|
  {
    if ops != [] {
      DisciplinedNeverOverAdmits(Next(row, ops[0]), ops[1..]);
    }
  }

  /** From creation on, a disciplined run is always within its limit. */
  lemma DisciplinedRuns(concurrency: nat, created: Instant, ops: seq<Op>)
    requires Disciplined(Scheduled(concurrency, created), ops)
    ensures WithinLimit(Scheduled(concurrency, created), ops)
  {
    ReachableStates(concurrency, created, []);
    DisciplinedNeverOverAdmits(Scheduled(concurrency, created), ops);
    LimitOverRuns(Scheduled(concurrency, created), ops);
  }

  // ------------------------------------------------------ the failing family

  function Take(id: string): Op {
    Claim(id, None, Unregistered, None, 0)
  }

  lemma FirstTake(row: Row)
    requires row == Next(Scheduled(1, 0), Take("a"))
    ensures row.status == InProgress && row.concurrency == 1 && row.workers.Keys == {"a"}
  {}

  lemma SlotGivenBack() returns (row: Row)
    ensures row == Exec(Scheduled(1, 0), [Take("a"), Update("a", Completed, None, 0)])
    ensures Coherent(row) && row.status == InProgress && row.concurrency == 1 && row.active == 0
    ensures row.workers.Keys == {"a"} && row.workers["a"].status == Completed
  {
    row := Exec(Scheduled(1, 0), [Take("a"), Update("a", Completed, None, 0)]);
    var finish := Update("a", Completed, None, 0);
    var first := Next(Scheduled(1, 0), Take("a"));
    FirstTake(first);
    ReachableStates(1, 0, [Take("a"), finish]);
    assert [Take("a"), finish][1..] == [finish] && [finish][1..] == [];
    assert Exec(first, [finish]) == Exec(Next(first, finish), []);
    assert row == Updated(first, finish);
    UpdateRunning(first, finish);
    assert LiveOthers(first, "a", 0) == {};
  }

  lemma SlotGivenAway(row: Row)
    requires Coherent(row) && row.status == InProgress && row.concurrency == 1 && row.active == 0
    requires row.workers.Keys == {"a"} && row.workers["a"].status == Completed
    ensures var next := Next(row, Take("b"));
            Coherent(next) && next.status == InProgress && "a" in next.workers && LiveOthers(next, "a", 0) == {"b"}
  {
    var next := Next(row, Take("b"));
    StepKeeps(row, Take("b"));
    assert "a"[0] != "b"[0];
    assert OpError(row, Take("b")).None?;
    ClaimRunning(row, Take("b"));
    assert LiveOthers(row, "b", 0) == {};
    assert "b" in With(next.workers, Running);
    CommittedLeases(row, Take("b"), "b");
  }

  lemma SlotTakenAgain(row: Row)
    requires Coherent(row) && row.status == InProgress && "a" in row.workers && LiveOthers(row, "a", 0) == {"b"}
    ensures Next(row, Take("a")).active == 2
  {
    assert "a"[0] != "b"[0];
    assert OpError(row, Take("a")).None?;
    ClaimRunning(row, Take("a"));
    StepKeeps(row, Take("a"));
  }

  /** One slot, two active workers: a settled worker claims again after its slot was given away. */
  lemma LimitCanBeExceeded()
    ensures var row := Exec(Scheduled(1, 0), [Take("a"), Update("a", Completed, None, 0)] + [Take("b"), Take("a")]);
            row.active == 2 && row.concurrency == 1
  {
    var before, after := [Take("a"), Update("a", Completed, None, 0)], [Take("b"), Take("a")];
    ExecAppend(Scheduled(1, 0), before, after);
    var row := SlotGivenBack();
    SlotGivenAway(row);
    SlotTakenAgain(Next(row, Take("b")));
    assert after[1..] == [Take("a")] && after[1..][1..] == [];
    TotalsGrow(row, after);
  }
}
