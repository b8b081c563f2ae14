/**
 What each operation on a run does, column by column and worker by worker: exactly
 when it is accepted, which error it gets otherwise, and the row it leaves.
 */
module RunEffects {
  import opened Wrappers
  import opened Runs
  import opened RunInvariants
  import opened RunLeases

  // ----------------------------------------------------------- acceptance

  /** An agent that is not registered, or is approved, not unhealthy and proven where proof is required. */
  predicate Fit(agent: Agent) {
    agent.Registered? ==> agent.approved && !agent.unhealthy && (agent.proofRequired ==> agent.proofMatches)
  }

  predicate ProofFails(agent: Agent) {
    agent.Registered? && agent.proofRequired && !agent.proofMatches
  }

  /** A claim needs an open run, a fit agent, and a known worker or a free slot. */
  lemma ClaimAccepted(row: Row, op: Op)
    requires CountersMatch(row) && op.Claim?
    ensures var open := !Terminal(row.status) && row.status != Cancelling;
            var full := op.id !in row.workers && |With(row.workers, Running)| >= row.concurrency;
            && (OpError(row, op).None? <==> open && Fit(op.agent) && !full)
            && (OpError(row, op) == Some(RunTerminal) <==> Terminal(row.status))
            && (OpError(row, op) == Some(RunCancelling) <==> row.status == Cancelling)
            && (OpError(row, op) == Some(AgentProofInvalid) <==> open && ProofFails(op.agent))
            && (OpError(row, op) == Some(AgentUnavailable) <==> open && !Fit(op.agent) && !ProofFails(op.agent))
            && (OpError(row, op) == Some(ConcurrencyReached) <==> open && Fit(op.agent) && full)
  {}

  /** A report needs an open run and a worker that has claimed it. */
  lemma UpdateAccepted(row: Row, op: Op)
    requires op.Update?
    ensures OpError(row, op).None? <==> !Terminal(row.status) && op.id in row.workers
    ensures OpError(row, op) == Some(RunTerminal) <==> Terminal(row.status)
    ensures OpError(row, op) == Some(WorkerMissing) <==> !Terminal(row.status) && op.id !in row.workers
  {}

  /** The lease a heartbeat asks for, in seconds. */
  function Asked(op: Op): int
    requires op.Heartbeat?
  {
    match op.lease
    case Some(seconds) => seconds
    case None => 120
  }

  /** A heartbeat needs a lease of 15 to 3600 seconds, an open run and a worker that has claimed it. */
  lemma HeartbeatAccepted(row: Row, op: Op)
    requires op.Heartbeat?
    ensures var fair := 15 <= Asked(op) <= 3600;
            && (OpError(row, op).None? <==> fair && !Terminal(row.status) && op.id in row.workers)
            && (OpError(row, op) == Some(LeaseOutOfRange) <==> !fair)
            && (OpError(row, op) == Some(RunTerminal) <==> fair && Terminal(row.status))
            && (OpError(row, op) == Some(WorkerMissing) <==> fair && !Terminal(row.status) && op.id !in row.workers)
  {}

  lemma CancelAccepted(row: Row, op: Op)
    requires op.Cancel?
    ensures OpError(row, op) == if Terminal(row.status) then Some(RunTerminal) else None
  {}

  // -------------------------------------------------------------- workers

  /** `t` in whole microseconds, rounded down. */
  predicate IsStampOf(s: Instant, t: Instant) {
    s % 1000 == 0 && s <= t < s + 1000
  }

  lemma StampExact(s: Instant, t: Instant)
    ensures s == Stamp(t) <==> IsStampOf(s, t)
  {}

  /** Everything a worker carries except its status and dates. */
  predicate SameBelongings(a: Worker, b: Worker) {
    (a.capabilities, a.claimedAt, a.result, a.token) == (b.capabilities, b.claimedAt, b.result, b.token)
  }

  /** Nothing happened to the worker, except that a lease which ended before now made it lost. */
  predicate Untouched(before: Worker, after: Worker, now: Instant) {
    if before.status == Running && before.leaseExpiresAt < now then
      && after.status == Lost && after.lostAt.Some?
      && IsStampOf(after.lostAt.value, now) && IsStampOf(after.updatedAt, now)
      && SameBelongings(before, after)
      && (after.lastHeartbeatAt, after.leaseExpiresAt) == (before.lastHeartbeatAt, before.leaseExpiresAt)
    else after == before
  }

  ghost predicate OthersUntouched(row: Row, next: Row, id: string, now: Instant) {
    forall other :: other in row.workers && other != id ==>
      other in next.workers && Untouched(row.workers[other], next.workers[other], now)
  }

  /** The columns only a verdict writes. */
  predicate SameVerdictColumns(a: Row, b: Row) {
    (a.aggregate, a.completedAt) == (b.aggregate, b.completedAt) &&
    (a.cancelledAt, a.concurrency) == (b.cancelledAt, b.concurrency)
  }

  lemma Expiring(w: Worker, now: Instant)
    ensures Untouched(w, Expire(w, now), now)
  {
    StampExact(Stamp(now), now);
  }

  // ----------------------------------------------------------------- claim

  /** The worker a claim leaves, given what was stored under its id before. */
  predicate Claims(before: Option<Worker>, w: Worker, op: Op)
    requires op.Claim?
  {
    && w.status == Running && w.lostAt.None?
    && IsStampOf(w.leaseExpiresAt, op.now + 120_000_000_000)
    && IsStampOf(w.lastHeartbeatAt, op.now) && IsStampOf(w.updatedAt, op.now)
    && (before.None? ==> IsStampOf(w.claimedAt, op.now) && w.result.None?)
    && (before.Some? ==> (w.claimedAt, w.result) == (before.value.claimedAt, before.value.result))
    && (op.capabilities.Some? ==> w.capabilities == op.capabilities.value)
    && (op.capabilities.None? ==> w.capabilities == if before.Some? then before.value.capabilities else [])
    && (op.tokenHash.None? ==> w.token.None?)
    && (op.tokenHash.Some? ==> w.token == Some(WorkerToken(op.tokenHash.value, w.leaseExpiresAt)))
  }

  function Stored(workers: Workers, id: string): Option<Worker> {
    if id in workers then Some(workers[id]) else None
  }

  lemma ClaimBuilds(workers: Workers, op: Op)
    requires op.Claim?
    ensures Claims(Stored(workers, op.id), ClaimedWorker(workers, op), op)
  {
    StampExact(Stamp(op.now), op.now);
    StampExact(Stamp(op.now + DEFAULT_LEASE * SECOND), op.now + DEFAULT_LEASE * SECOND);
  }

  lemma ClaimMap(row: Row, op: Op)
    requires op.Claim? && OpError(row, op).None?
    ensures Next(row, op).workers.Keys == row.workers.Keys + {op.id}
    ensures Next(row, op).workers[op.id] == ClaimedWorker(row.workers, op)
    ensures forall id :: id in row.workers && id != op.id ==>
              id in Next(row, op).workers && Next(row, op).workers[id] == Expire(row.workers[id], op.now)
  {
    assert Next(row, op) == Claimed(row, op);
    StampClose(op.now + DEFAULT_LEASE * SECOND);
  }

  /**
   A claim makes its worker run on a fresh lease of 120 seconds. A worker seen before keeps when it first claimed,
   its result and, unless it says otherwise, its capabilities; its old token and lost mark are gone.
   */
  lemma ClaimWorkers(row: Row, op: Op)
    requires op.Claim? && OpError(row, op).None?
    ensures Next(row, op).workers.Keys == row.workers.Keys + {op.id}
    ensures OthersUntouched(row, Next(row, op), op.id, op.now)
    ensures op.id in Next(row, op).workers && Claims(Stored(row.workers, op.id), Next(row, op).workers[op.id], op)
  {
    ClaimBuilds(row.workers, op);
    ClaimMap(row, op);
    AllExpired(row, Next(row, op), op.id, op.now);
  }

  lemma AllExpired(row: Row, next: Row, id: string, now: Instant)
    requires forall other :: other in row.workers && other != id ==>
               other in next.workers && next.workers[other] == Expire(row.workers[other], now)
    ensures OthersUntouched(row, next, id, now)
  {
    forall other | other in row.workers && other != id
      ensures Untouched(row.workers[other], next.workers[other], now)
    {
      Expiring(row.workers[other], now);
    }
  }

  /** The run is then in progress, since its first claim, and no verdict is touched. */
  lemma ClaimColumns(row: Row, op: Op)
    requires op.Claim? && OpError(row, op).None?
    ensures var next := Next(row, op);
            && next.status == InProgress && next.updatedAt == op.now
            && next.startedAt == (if row.startedAt.Some? then row.startedAt else Some(op.now))
            && SameVerdictColumns(row, next)
  {}

  // ---------------------------------------------------------------- report

  /** A report sets its worker's status and, if it carries one, its result; running needs a lease that has not ended. */
  lemma UpdateWorkers(row: Row, op: Op)
    requires op.Update? && OpError(row, op).None?
    ensures Next(row, op).workers.Keys == row.workers.Keys
    ensures OthersUntouched(row, Next(row, op), op.id, op.now)
    ensures var v, w := row.workers[op.id], Next(row, op).workers[op.id];
            var lapsed := op.status == Running && v.leaseExpiresAt < op.now;
            && w.status == (if lapsed then Lost else op.status)
            && (if lapsed then w.lostAt.Some? && IsStampOf(w.lostAt.value, op.now) else w.lostAt == v.lostAt)
            && w.result == (if op.result.Some? then op.result else v.result)
            && IsStampOf(w.updatedAt, op.now)
            && (w.capabilities, w.claimedAt, w.token) == (v.capabilities, v.claimedAt, v.token)
            && (w.lastHeartbeatAt, w.leaseExpiresAt) == (v.lastHeartbeatAt, v.leaseExpiresAt)
  {
    var next := Next(row, op);
    assert next == Updated(row, op);
    StampExact(Stamp(op.now), op.now);
    AllExpired(row, next, op.id, op.now);
  }

  /** A report never closes, opens or starts a run. */
  lemma UpdateColumns(row: Row, op: Op)
    requires op.Update? && OpError(row, op).None?
    ensures var next := Next(row, op);
            && (next.status, next.startedAt, next.updatedAt) == (row.status, row.startedAt, op.now)
            && SameVerdictColumns(row, next)
  {
    assert Next(row, op) == Updated(row, op);
  }

  // ------------------------------------------------------------- heartbeat

  /** A heartbeat of a worker that runs on a live lease grants exactly the lease asked for and keeps the rest. */
  lemma HeartbeatRenews(row: Row, op: Op)
    requires op.Heartbeat? && OpError(row, op).None?
    ensures Next(row, op).workers.Keys == row.workers.Keys
    ensures OthersUntouched(row, Next(row, op), op.id, op.now)
    ensures op.id in Next(row, op).workers && Renews(row.workers[op.id], Next(row, op).workers[op.id], op)
  {
    HeartbeatWorkers(row, op);
    RenewalMeans(row.workers[op.id], op);
    AllExpired(row, Next(row, op), op.id, op.now);
  }

  /** A running worker with a live lease gets exactly the lease asked for and keeps the rest; another is untouched. */
  predicate Renews(v: Worker, w: Worker, op: Op)
    requires op.Heartbeat?
  {
    if v.status == Running && op.now <= v.leaseExpiresAt then
      && w.status == Running && w.lostAt == v.lostAt && SameBelongings(v, w)
      && IsStampOf(w.leaseExpiresAt, op.now + Asked(op) * 1_000_000_000)
      && IsStampOf(w.lastHeartbeatAt, op.now) && IsStampOf(w.updatedAt, op.now)
    else Untouched(v, w, op.now)
  }

  lemma RenewalMeans(v: Worker, op: Op)
    requires op.Heartbeat?
    ensures Renews(v, RenewedWorker(Expire(v, op.now), LeaseSeconds(op.lease), op.now), op)
  {
    StampExact(Stamp(op.now), op.now);
    StampExact(Stamp(op.now + Asked(op) * SECOND), op.now + Asked(op) * SECOND);
    Expiring(v, op.now);
  }

  /** It leaves every other column alone while a worker is active. */
  lemma HeartbeatColumns(row: Row, op: Op)
    requires Coherent(row) && op.Heartbeat? && OpError(row, op).None?
    ensures var next := Next(row, op);
            && (next.startedAt, next.cancelledAt, next.concurrency) == (row.startedAt, row.cancelledAt, row.concurrency)
            && next.updatedAt == op.now
            && (next.active > 0 ==> next.status == row.status && SameVerdictColumns(row, next))
  {
    assert Next(row, op) == Beaten(row, op);
  }

  // ---------------------------------------------------------------- cancel

  /** A cancellation turns every running worker cancelled, expired or not, and touches no other worker. */
  lemma CancelWorkers(row: Row, op: Op, id: string)
    requires op.Cancel? && OpError(row, op).None?
    ensures Next(row, op).workers.Keys == row.workers.Keys
    ensures id in row.workers && row.workers[id].status != Running ==> Next(row, op).workers[id] == row.workers[id]
    ensures id in row.workers && row.workers[id].status == Running ==>
              var v, w := row.workers[id], Next(row, op).workers[id];
              && w.status == Cancelled && w.lostAt == v.lostAt && SameBelongings(v, w)
              && (w.lastHeartbeatAt, w.leaseExpiresAt) == (v.lastHeartbeatAt, v.leaseExpiresAt)
              && IsStampOf(w.updatedAt, op.now)
  {
    assert Next(row, op) == CancelledRun(row, op);
    StampExact(Stamp(op.now), op.now);
  }

  /** The verdict of a cancellation, told from the workers before it. */
  ghost function CancelVerdict(workers: Workers): (RunStatus, int) {
    if SomeWorker(workers, Failed) then (RunFailed, 2)
    else if SomeWorker(workers, Lost) then (RunLost, 4)
    else if !SomeWorker(workers, Completed) then (RunCancelled, 3)
    else if SomeWorker(workers, Running) || SomeWorker(workers, Cancelled) then (RunFailed, 3)
    else (RunCompleted, 1)
  }

  lemma CancelStatuses(row: Row, op: Op)
    requires op.Cancel? && OpError(row, op).None?
    ensures var after := Next(row, op).workers;
            && !SomeWorker(after, Running)
            && (forall s: WorkerStatus :: s != Running && s != Cancelled ==>
                  (SomeWorker(after, s) <==> SomeWorker(row.workers, s)))
            && (SomeWorker(after, Cancelled) <==>
                  SomeWorker(row.workers, Cancelled) || SomeWorker(row.workers, Running))
  {
    var after := Next(row, op).workers;
    forall id ensures id in row.workers ==>
                after[id].status == if row.workers[id].status == Running then Cancelled else row.workers[id].status
    {
      CancelWorkers(row, op, id);
    }
    CancelWorkers(row, op, "");
  }

  /** It closes the run now, as cancelled unless workers had already finished otherwise. */
  lemma CancelColumns(row: Row, op: Op)
    requires Coherent(row) && op.Cancel? && OpError(row, op).None?
    ensures var next := Next(row, op);
            && (next.status, next.aggregate) == (CancelVerdict(row.workers).0, Some(CancelVerdict(row.workers).1))
            && next.cancelledAt == Some(op.now) && next.completedAt == Some(op.now)
            && (next.updatedAt, next.startedAt, next.concurrency) == (op.now, row.startedAt, row.concurrency)
  {
    var next := Next(row, op);
    CancelStatuses(row, op);
    StepKeeps(row, op);
    CancelDates(row, op);
    VerdictFromStatuses(row.workers, next.workers);
  }

  lemma CancelDates(row: Row, op: Op)
    requires op.Cancel? && OpError(row, op).None?
    ensures var next := Next(row, op);
            && next.cancelledAt == Some(op.now) && next.completedAt == Some(op.now)
            && (next.updatedAt, next.startedAt, next.concurrency) == (op.now, row.startedAt, row.concurrency)
            && Terminal(next.status)
  {
    assert Next(row, op) == CancelledRun(row, op);
  }

  lemma VerdictFromStatuses(before: Workers, after: Workers)
    requires !SomeWorker(after, Running)
    requires forall s: WorkerStatus :: s != Running && s != Cancelled ==> (SomeWorker(after, s) <==>
              SomeWorker(before, s))
    requires SomeWorker(after, Cancelled) <==> SomeWorker(before, Cancelled) || SomeWorker(before, Running)
    ensures FinalVerdict(after) == CancelVerdict(before)
  {
    if !SomeWorker(after, Failed) && !SomeWorker(after, Lost) {
      assert EveryWorker(after, Cancelled) <==> !SomeWorker(after, Completed) by {
        forall id | id in after ensures after[id].status == Cancelled || after[id].status == Completed {
          assert SomeWorker(after, after[id].status);
        }
      }
    }
  }
}
