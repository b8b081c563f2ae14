/**
 What every step of the parallel-run protocol keeps, and what therefore holds in
 every state that any interleaving of clients can reach.
 */
module RunInvariants {
  import opened Wrappers
  import opened Text
  import opened Runs

  // -------------------------------------------------------- the invariant

  ghost predicate CountersMatch(row: Row) {
    && row.active == Count(row.workers, Running)
    && row.total == |row.workers|
    && row.completed == Count(row.workers, Completed)
    && row.failed == Count(row.workers, Failed)
    && row.cancelled == Count(row.workers, Cancelled)
  }

  ghost predicate SummaryMatches(row: Row) {
    || (row.summary == NeverWritten && row.workers == map[])
    || row.summary == Rows(SummaryOf(row.workers))
  }

  ghost predicate SomeWorker(workers: Workers, status: WorkerStatus) {
    exists id :: id in workers && workers[id].status == status
  }

  ghost predicate EveryWorker(workers: Workers, status: WorkerStatus) {
    forall id :: id in workers ==> workers[id].status == status
  }

  /**
   The documented precedence of a finished run, said of the workers themselves:
   failure wins, then loss, then an all-cancelled (or empty) run is cancelled, a
   mixture of completed and cancelled is a failure with the cancelled code.
   */
  ghost function FinalVerdict(workers: Workers): (RunStatus, int) {
    if SomeWorker(workers, Failed) then (RunFailed, 2)
    else if SomeWorker(workers, Lost) then (RunLost, 4)
    else if EveryWorker(workers, Cancelled) then (RunCancelled, 3)
    else if SomeWorker(workers, Cancelled) then (RunFailed, 3)
    else (RunCompleted, 1)
  }

  /** A finished run holds no running worker and carries the verdict of its workers. */
  ghost predicate Settled(row: Row) {
    && !SomeWorker(row.workers, Running)
    && (row.status, row.aggregate) == (FinalVerdict(row.workers).0, Some(FinalVerdict(row.workers).1))
  }

  ghost predicate Coherent(row: Row) {
    && CountersMatch(row)
    && SummaryMatches(row)
    && row.status != Cancelling
    && (row.status == Queued ==> row.workers == map[])
    && (Terminal(row.status) <==> row.completedAt.Some?)
    && (Terminal(row.status) <==> row.aggregate.Some?)
    && (row.cancelledAt.Some? ==> Terminal(row.status))
    && (row.status == InProgress ==> row.startedAt.Some?)
    && (Terminal(row.status) ==> Settled(row))
  }

  // ---------------------------------------------------------- counting

  lemma CountPositive(workers: Workers, status: WorkerStatus)
    ensures Count(workers, status) > 0 <==> SomeWorker(workers, status)
  {
    if SomeWorker(workers, status) {
      var id :| id in workers && workers[id].status == status;
      assert id in With(workers, status);
    } else {
      assert With(workers, status) == {};
    }
  }

  /** No worker is counted twice and none is missed. */
  lemma CountsPartition(workers: Workers)
    ensures Count(workers, Running) + Count(workers, Completed) + Count(workers, Failed)
            + Count(workers, Cancelled) + Count(workers, Lost) == |workers|
  {
    var a, b := With(workers, Running), With(workers, Completed);
    var c, d, e := With(workers, Failed), With(workers, Cancelled), With(workers, Lost);
    assert |a + b| == |a| + |b|;
    assert |a + b + c| == |a + b| + |c|;
    assert |a + b + c + d| == |a + b + c| + |d|;
    assert |a + b + c + d + e| == |a + b + c + d| + |e|;
    assert a + b + c + d + e == workers.Keys;
    assert |workers.Keys| == |workers|;
  }

  /** The summary is one row per worker, in id order, with its status and result. */
  lemma SummaryListsWorkers(workers: Workers)
    ensures |SummaryOf(workers)| == |workers|
    ensures forall i, j :: 0 <= i < j < |SummaryOf(workers)| ==>
              Before(SummaryOf(workers)[i].workerId, SummaryOf(workers)[j].workerId)
    ensures forall id :: id in workers ==>
              SummaryRow(id, workers[id].status, workers[id].result) in SummaryOf(workers)
    ensures forall i :: 0 <= i < |SummaryOf(workers)| ==>
              var r := SummaryOf(workers)[i];
              r.workerId in workers && r.status == workers[r.workerId].status && r.result == workers[r.workerId].result
  {
    var ids := Listing(workers.Keys);
    ListsSize(ids, workers.Keys);
    forall id | id in workers
      ensures SummaryRow(id, workers[id].status, workers[id].result) in SummaryOf(workers)
    {
      assert id in ids;
      var i :| 0 <= i < |ids| && ids[i] == id;
      assert SummaryOf(workers)[i] == SummaryRow(id, workers[id].status, workers[id].result);
    }
  }

  // ------------------------------------------------------------ outcomes

  /** The counter-driven outcome is the documented precedence. */
  lemma OutcomeIsVerdict(current: Verdict, workers: Workers, now: Instant)
    requires workers != map[]
    ensures SomeWorker(workers, Running) ==> Outcome(current, CountersOf(workers), now) == current
    ensures !SomeWorker(workers, Running) ==>
              var v := Outcome(current, CountersOf(workers), now);
              && (v.status, v.aggregate) == (FinalVerdict(workers).0, Some(FinalVerdict(workers).1))
              && v.completedAt == (if current.completedAt.Some? then current.completedAt else Some(now))
  {
    CountPositive(workers, Running);
    CountPositive(workers, Completed);
    CountPositive(workers, Failed);
    CountPositive(workers, Cancelled);
    CountPositive(workers, Lost);
    CountsPartition(workers);
    var any :| any in workers;
    if !SomeWorker(workers, Running) && !SomeWorker(workers, Failed) && !SomeWorker(workers, Lost) {
      assert EveryWorker(workers, Cancelled) <==> !SomeWorker(workers, Completed);
    }
  }

  lemma VerdictIsTerminal(workers: Workers)
    ensures Terminal(FinalVerdict(workers).0)
  {}

  // ------------------------------------------------------- preservation

  lemma ClaimKeeps(row: Row, op: Op)
    requires Coherent(row) && op.Claim? && OpError(row, op).None?
    ensures Coherent(Next(row, op))
  {}

  lemma UpdateKeeps(row: Row, op: Op)
    requires Coherent(row) && op.Update? && OpError(row, op).None?
    ensures Coherent(Next(row, op))
  {}

  lemma HeartbeatKeeps(row: Row, op: Op)
    requires Coherent(row) && op.Heartbeat? && OpError(row, op).None?
    ensures Coherent(Next(row, op))
  {
    var next := Next(row, op);
    assert op.id in next.workers;
    OutcomeIsVerdict(Verdict(row.status, row.aggregate, row.completedAt), next.workers, op.now);
    VerdictIsTerminal(next.workers);
  }

  lemma CancelKeeps(row: Row, op: Op)
    requires Coherent(row) && op.Cancel? && OpError(row, op).None?
    ensures Coherent(Next(row, op))
  {
    var next := Next(row, op);
    assert !SomeWorker(next.workers, Running);
    if next.workers != map[] {
      OutcomeIsVerdict(Verdict(RunCancelled, Some(3), Some(op.now)), next.workers, op.now);
      VerdictIsTerminal(next.workers);
    }
  }

  /** Every step keeps the invariant, and a committed one rewrites the summary from the map it stores. */
  lemma StepKeeps(row: Row, op: Op)
    requires Coherent(row)
    ensures Coherent(Next(row, op))
    ensures OpError(row, op).None? ==> Next(row, op).summary == Rows(SummaryOf(Next(row, op).workers))
  {
    if OpError(row, op).None? {
      match op {
        case Claim(_, _, _, _, _) => ClaimKeeps(row, op);
        case Update(_, _, _, _) => UpdateKeeps(row, op);
        case Heartbeat(_, _, _) => HeartbeatKeeps(row, op);
        case Cancel(_) => CancelKeeps(row, op);
      }
    }
  }

  // ----------------------------------------------------- whole-run results

  lemma {:induction false} RunKeeps(row: Row, ops: seq<Op>)
    requires Coherent(row)
    ensures Coherent(Exec(row, ops))
    decreases |ops|
  {
    if ops != [] {
      StepKeeps(row, ops[0]);
      RunKeeps(Next(row, ops[0]), ops[1..]);
    }
  }

  lemma {:induction false} ExecAppend(row: Row, a: seq<Op>, b: seq<Op>)
    ensures Exec(row, a + b) == Exec(Exec(row, a), b)
    decreases |a|
  {
    if a == [] {
      assert a + b == b;
    } else {
      ExecAppend(Next(row, a[0]), a[1..], b);
      assert (a + b)[1..] == a[1..] + b;
    }
  }

  /** Every state any interleaving reaches: counters, summary, verdict and the lost count. */
  lemma ReachableStates(concurrency: int, created: Instant, ops: seq<Op>)
    ensures var row := Exec(Scheduled(concurrency, created), ops);
            && Coherent(row)
            && row.active + row.completed + row.failed + row.cancelled + Count(row.workers, Lost) == row.total
            && (Terminal(row.status) <==> row.completedAt.Some?)
            && (Terminal(row.status) <==> row.aggregate.Some?)
            && (Terminal(row.status) ==> row.active == 0 && Settled(row))
  {
    var start := Scheduled(concurrency, created);
    forall s: WorkerStatus ensures With(start.workers, s) == {} {}
    assert Coherent(start);
    RunKeeps(start, ops);
    var row := Exec(start, ops);
    CountsPartition(row.workers);
    CountPositive(row.workers, Running);
  }

  /** A finished row never changes again, whatever clients send. */
  lemma {:induction false} TerminalFrozen(row: Row, ops: seq<Op>)
    requires Terminal(row.status)
    ensures Exec(row, ops) == row
    decreases |ops|
  {
    if ops != [] {
      TerminalFrozen(row, ops[1..]);
    }
  }

  lemma StepGrows(row: Row, op: Op)
    requires Coherent(row)
    ensures row.workers.Keys <= Next(row, op).workers.Keys
    ensures row.total <= Next(row, op).total
    ensures row.concurrency == Next(row, op).concurrency
    ensures row.startedAt.Some? ==> Next(row, op).startedAt == row.startedAt
  {
    StepKeeps(row, op);
    var next := Next(row, op);
    KeysGrow(row.workers, next.workers);
  }

  lemma KeysGrow(a: Workers, b: Workers)
    ensures a.Keys <= b.Keys ==> |a| <= |b|
  {
    if a.Keys <= b.Keys {
      assert |b.Keys| == |a.Keys| + |b.Keys - a.Keys| by {
        assert b.Keys == a.Keys + (b.Keys - a.Keys);
      }
    }
  }

  /** Workers are never forgotten: the total never falls and a run starts once. */
  lemma {:induction false} TotalsGrow(row: Row, ops: seq<Op>)
    requires Coherent(row)
    ensures row.workers.Keys <= Exec(row, ops).workers.Keys
    ensures row.total <= Exec(row, ops).total
    ensures row.concurrency == Exec(row, ops).concurrency
    ensures row.startedAt.Some? ==> Exec(row, ops).startedAt == row.startedAt
    decreases |ops|
  {
    if ops != [] {
      StepGrows(row, ops[0]);
      StepKeeps(row, ops[0]);
      TotalsGrow(Next(row, ops[0]), ops[1..]);
    }
  }
}
