/** Leases: when a worker is declared lost, and what a heartbeat may and may not do. */
module RunLeases {
  import opened Wrappers
  import opened Runs
  import opened RunInvariants

  // ------------------------------------------------------ recalculation

  lemma RefreshIdempotent(workers: Workers, now: Instant)
    ensures Refresh(Refresh(workers, now), now) == Refresh(workers, now)
  {
    var once := Refresh(workers, now);
    assert forall id :: id in once ==> Expire(once[id], now) == once[id];
  }

  /** Two recalculations leave the statuses of one at the later clock, in either order. */
  lemma RefreshComposes(workers: Workers, first: Instant, second: Instant)
    ensures var later := if first <= second then second else first;
            var twice, once := Refresh(Refresh(workers, first), second), Refresh(workers, later);
            && twice.Keys == once.Keys == workers.Keys
            && (forall id :: id in workers ==> twice[id].status == once[id].status)
            && CountersOf(twice) == CountersOf(once)
  {
    var later := if first <= second then second else first;
    var twice, once := Refresh(Refresh(workers, first), second), Refresh(workers, later);
    forall s: WorkerStatus ensures With(twice, s) == With(once, s) {}
    assert |twice.Keys| == |twice| && |once.Keys| == |once|;
  }

  // ------------------------------------------------------- one step

  lemma StampClose(t: Instant)
    ensures t - 1000 < Stamp(t) <= t
  {}

  /** After every committed step each worker still running holds a lease that has not ended. */
  lemma CommittedLeases(row: Row, op: Op, id: string)
    requires OpError(row, op).None?
    requires id in Next(row, op).workers && Next(row, op).workers[id].status == Running
    ensures Next(row, op).workers[id].leaseExpiresAt >= op.now
  {
    StampClose(op.now);
  }

  /** Reports that decide a worker's status whatever its lease says. */
  predicate Overrides(op: Op, id: string) {
    || op.Cancel?
    || (op.Claim? && op.id == id)
    || (op.Update? && op.id == id && op.status != Running)
  }

  /** A running worker turns lost exactly when its lease ended strictly before now, or it is reported lost. */
  lemma LostExactly(row: Row, op: Op, id: string)
    requires OpError(row, op).None?
    requires id in row.workers && row.workers[id].status == Running
    ensures id in Next(row, op).workers
    ensures Next(row, op).workers[id].status == Lost <==>
              || (op.Update? && op.id == id && op.status == Lost)
              || (row.workers[id].leaseExpiresAt < op.now && !Overrides(op, id))
  {
    StampClose(op.now + DEFAULT_LEASE * SECOND);
    if op.Heartbeat? {
      StampClose(op.now + LeaseSeconds(op.lease) * SECOND);
    }
  }

  // ------------------------------------------------------ whole runs

  /** Nobody settles `id`, and every step happens before the lease it then holds has ended. */
  ghost predicate KeptAlive(row: Row, id: string, ops: seq<Op>)
    decreases |ops|
  {
    ops != [] ==>
      && id in row.workers
      && ops[0].now <= row.workers[id].leaseExpiresAt
      && !ops[0].Cancel?
      && !(ops[0].Update? && ops[0].id == id && ops[0].status != Running)
      && KeptAlive(Next(row, ops[0]), id, ops[1..])
  }

  lemma StillRunning(row: Row, op: Op, id: string)
    requires id in row.workers && row.workers[id].status == Running
    requires op.now <= row.workers[id].leaseExpiresAt && !op.Cancel?
    requires !(op.Update? && op.id == id && op.status != Running)
    ensures id in Next(row, op).workers && Next(row, op).workers[id].status == Running
  {
    if OpError(row, op).None? {
      StampClose(op.now + DEFAULT_LEASE * SECOND);
      if op.Heartbeat? {
        StampClose(op.now + LeaseSeconds(op.lease) * SECOND);
      }
    }
  }

  /** A worker whose lease is renewed in time is never lost, and its run is never closed under it. */
  lemma {:induction false} NeverLostWhileLeased(row: Row, id: string, ops: seq<Op>)
    requires Coherent(row)
    requires id in row.workers && row.workers[id].status == Running
    requires KeptAlive(row, id, ops)
    ensures id in Exec(row, ops).workers && Exec(row, ops).workers[id].status == Running
    ensures !Terminal(Exec(row, ops).status)
    decreases |ops|
  {
    if ops != [] {
      StillRunning(row, ops[0], id);
      StepKeeps(row, ops[0]);
      NeverLostWhileLeased(Next(row, ops[0]), id, ops[1..]);
    }
  }

  // ------------------------------------------------------- heartbeats

  /** A heartbeat renews the caller if it still runs and otherwise changes no one but the expired. */
  lemma HeartbeatWorkers(row: Row, op: Op)
    requires op.Heartbeat? && OpError(row, op).None?
    ensures Next(row, op).workers.Keys == row.workers.Keys
    ensures forall id :: id in row.workers ==>
              Next(row, op).workers[id] ==
                if id == op.id then RenewedWorker(Expire(row.workers[id], op.now), LeaseSeconds(op.lease), op.now)
                else Expire(row.workers[id], op.now)
  {
    StampClose(op.now + LeaseSeconds(op.lease) * SECOND);
    assert Next(row, op).workers == BeatenWorkers(row.workers, op);
  }

  /** A heartbeat never revives anyone, and tells its caller the worker's status exactly when it is not running. */
  lemma HeartbeatNeverRevives(row: Row, op: Op, id: string)
    requires op.Heartbeat? && OpError(row, op).None? && id in row.workers
    ensures id in Next(row, op).workers && op.id in Next(row, op).workers
    ensures row.workers[id].status != Running ==> Next(row, op).workers[id] == row.workers[id]
    ensures Expired(row.workers[id], op.now) ==> Next(row, op).workers[id].status == Lost
    ensures id != op.id && Next(row, op).workers[id].status == Running ==> Next(row, op).workers[id] == row.workers[id]
    ensures HeartbeatNotice(row, op) ==
              var status := Next(row, op).workers[op.id].status;
              if status == Running then None else Some(status)
  {
    HeartbeatWorkers(row, op);
  }

  /** A heartbeat closes the run exactly when nobody is active, with the verdict of the workers. */
  lemma HeartbeatFinalises(row: Row, op: Op)
    requires Coherent(row) && op.Heartbeat? && OpError(row, op).None?
    ensures Terminal(Next(row, op).status) <==> Next(row, op).active == 0
    ensures Terminal(Next(row, op).status) ==> Settled(Next(row, op)) && Next(row, op).completedAt == Some(op.now)
  {
    var next := Next(row, op);
    assert next == Beaten(row, op);
    assert op.id in next.workers;
    OutcomeIsVerdict(Verdict(row.status, row.aggregate, row.completedAt), next.workers, op.now);
    VerdictIsTerminal(next.workers);
    CountPositive(next.workers, Running);
  }
}
