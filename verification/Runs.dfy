/**
 The parallel-run row and its four operations as functions on values: claim,
 worker update, heartbeat and cancel. Each operation locks the row, changes the
 worker map, recounts and commits, so it is one atomic step; an operation that
 returns an error rolls back and leaves the row as it was.

 Clocks are nanoseconds. Worker timestamps are stored as text with microsecond
 precision, so a stored instant is the clock rounded down (`Stamp`).
 */
module Runs {
  import opened Wrappers
  import opened Text

  type Instant = int
  type Payload = string

  const SECOND: int := 1_000_000_000
  const DEFAULT_LEASE: int := 120
  const MIN_LEASE: int := 15
  const MAX_LEASE: int := 3600

  function Stamp(t: Instant): Instant {
    t - t % 1000
  }

  datatype WorkerStatus = Running | Completed | Failed | Cancelled | Lost

  datatype WorkerToken = WorkerToken(hash: string, expiresAt: Instant)

  datatype Worker = Worker(
    status: WorkerStatus,
    capabilities: seq<string>,
    claimedAt: Instant,
    lastHeartbeatAt: Instant,
    leaseExpiresAt: Instant,
    updatedAt: Instant,
    lostAt: Option<Instant>,
    result: Option<Payload>,
    token: Option<WorkerToken>)

  type Workers = map<string, Worker>

  datatype SummaryRow = SummaryRow(workerId: string, status: WorkerStatus, result: Option<Payload>)

  /** A schedule is created with an empty object here; every step writes rows. */
  datatype Summary = NeverWritten | Rows(rows: seq<SummaryRow>)

  datatype RunStatus = Queued | InProgress | Cancelling | RunCompleted | RunFailed | RunCancelled | RunLost

  datatype Row = Row(
    status: RunStatus,
    concurrency: int,
    active: int,
    total: int,
    completed: int,
    failed: int,
    cancelled: int,
    aggregate: Option<int>,
    workers: Workers,
    summary: Summary,
    startedAt: Option<Instant>,
    completedAt: Option<Instant>,
    cancelledAt: Option<Instant>,
    updatedAt: Instant)

  /** What `agent_registrations` says about the claiming agent. */
  datatype Agent =
    | Unregistered
    | Registered(proofRequired: bool, proofMatches: bool, approved: bool, unhealthy: bool)

  datatype Op =
    | Claim(id: string, capabilities: Option<seq<string>>, agent: Agent, tokenHash: Option<string>, now: Instant)
    | Update(id: string, status: WorkerStatus, result: Option<Payload>, now: Instant)
    | Heartbeat(id: string, lease: Option<int>, now: Instant)
    | Cancel(now: Instant)

  datatype Error =
    | RunTerminal
    | RunCancelling
    | AgentProofInvalid
    | AgentUnavailable
    | ConcurrencyReached
    | WorkerMissing
    | LeaseOutOfRange

  datatype Counters = Counters(active: int, total: int, completed: int, failed: int, cancelled: int, lost: int)

  predicate Terminal(status: RunStatus) {
    status == RunCancelled || status == RunCompleted || status == RunFailed || status == RunLost
  }

  // ------------------------------------------------------- the worker map

  /** A lease is over only strictly after its end. */
  predicate Expired(w: Worker, now: Instant) {
    w.status == Running && w.leaseExpiresAt < now
  }

  function Expire(w: Worker, now: Instant): Worker {
    if Expired(w, now) then w.(status := Lost, lostAt := Some(Stamp(now)), updatedAt := Stamp(now)) else w
  }

  function Refresh(workers: Workers, now: Instant): Workers {
    map id | id in workers :: Expire(workers[id], now)
  }

  function With(workers: Workers, status: WorkerStatus): set<string> {
    set id | id in workers && workers[id].status == status
  }

  function Count(workers: Workers, status: WorkerStatus): nat {
    |With(workers, status)|
  }

  function CountersOf(workers: Workers): Counters {
    Counters(Count(workers, Running), |workers|, Count(workers, Completed), Count(workers, Failed),
             Count(workers, Cancelled), Count(workers, Lost))
  }

  ghost function SummaryOf(workers: Workers): seq<SummaryRow> {
    var ids := Listing(workers.Keys);
    seq(|ids|, i requires 0 <= i < |ids| => SummaryRow(ids[i], workers[ids[i]].status, workers[ids[i]].result))
  }

  // ------------------------------------------------------------ outcomes

  datatype Verdict = Verdict(status: RunStatus, aggregate: Option<int>, completedAt: Option<Instant>)

  function Outcome(current: Verdict, c: Counters, now: Instant): Verdict {
    if c.total == 0 || c.active > 0 then current
    else
      var completedAt := if current.completedAt.Some? then current.completedAt else Some(now);
      if c.failed > 0 then Verdict(RunFailed, Some(2), completedAt)
      else if c.lost > 0 then Verdict(RunLost, Some(4), completedAt)
      else if c.cancelled > 0 && c.completed == 0 then Verdict(RunCancelled, Some(3), completedAt)
      else if c.cancelled > 0 then Verdict(RunFailed, Some(3), completedAt)
      else Verdict(RunCompleted, Some(1), completedAt)
  }

  // ---------------------------------------------------------- operations

  ghost function Recounted(row: Row, workers: Workers, now: Instant): Row {
    var c := CountersOf(workers);
    row.(workers := workers, summary := Rows(SummaryOf(workers)), active := c.active, total := c.total,
         completed := c.completed, failed := c.failed, cancelled := c.cancelled, updatedAt := now)
  }

  function Judged(row: Row, v: Verdict): Row {
    row.(status := v.status, aggregate := v.aggregate, completedAt := v.completedAt)
  }

  function AgentError(agent: Agent): Option<Error> {
    match agent
    case Unregistered => None
    case Registered(proofRequired, proofMatches, approved, unhealthy) =>
      if proofRequired && !proofMatches then Some(AgentProofInvalid)
      else if !approved || unhealthy then Some(AgentUnavailable)
      else None
  }

  function ClaimedWorker(workers: Workers, op: Op): Worker
    requires op.Claim?
  {
    var known := op.id in workers;
    Worker(
      Running,
      if op.capabilities.Some? then op.capabilities.value else if known then workers[op.id].capabilities else [],
      if known then workers[op.id].claimedAt else Stamp(op.now),
      Stamp(op.now),
      Stamp(op.now + DEFAULT_LEASE * SECOND),
      Stamp(op.now),
      None,
      if known then workers[op.id].result else None,
      if op.tokenHash.None? then None
      else Some(WorkerToken(op.tokenHash.value, Stamp(op.now + DEFAULT_LEASE * SECOND))))
  }

  function ClaimError(row: Row, op: Op): Option<Error>
    requires op.Claim?
  {
    if Terminal(row.status) then Some(RunTerminal)
    else if row.status == Cancelling then Some(RunCancelling)
    else if AgentError(op.agent).Some? then AgentError(op.agent)
    else if op.id !in row.workers && row.active >= row.concurrency then Some(ConcurrencyReached)
    else None
  }

  ghost function Claimed(row: Row, op: Op): Row
    requires op.Claim?
  {
    var workers := Refresh(row.workers[op.id := ClaimedWorker(row.workers, op)], op.now);
    Recounted(row, workers, op.now).(
    status := InProgress,
    startedAt := if row.startedAt.Some? then row.startedAt else Some(op.now))
  }

  function UpdatedWorker(w: Worker, op: Op): Worker
    requires op.Update?
  {
    w.(status := op.status, updatedAt := Stamp(op.now), result := if op.result.Some? then op.result else w.result)
  }

  function UpdateError(row: Row, op: Op): Option<Error>
    requires op.Update?
  {
    if Terminal(row.status) then Some(RunTerminal)
    else if op.id !in row.workers then Some(WorkerMissing)
    else None
  }

  ghost function Updated(row: Row, op: Op): Row
    requires op.Update? && op.id in row.workers
  {
    Recounted(row, Refresh(row.workers[op.id := UpdatedWorker(row.workers[op.id], op)], op.now), op.now)
  }

  function LeaseSeconds(lease: Option<int>): int {
    if lease.Some? then lease.value else DEFAULT_LEASE
  }

  function RenewedWorker(w: Worker, seconds: int, now: Instant): Worker {
    if w.status == Running
    then w.(lastHeartbeatAt := Stamp(now), leaseExpiresAt := Stamp(now + seconds * SECOND), updatedAt := Stamp(now))
    else w
  }

  function HeartbeatError(row: Row, op: Op): Option<Error>
    requires op.Heartbeat?
  {
    var seconds := LeaseSeconds(op.lease);
    if seconds < MIN_LEASE || seconds > MAX_LEASE then Some(LeaseOutOfRange)
    else if Terminal(row.status) then Some(RunTerminal)
    else if op.id !in row.workers then Some(WorkerMissing)
    else None
  }

  /** Leases are checked before the caller's is renewed, and once more afterwards. */
  function BeatenWorkers(workers: Workers, op: Op): Workers
    requires op.Heartbeat? && op.id in workers
  {
    var checked := Refresh(workers, op.now);
    Refresh(checked[op.id := RenewedWorker(checked[op.id], LeaseSeconds(op.lease), op.now)], op.now)
  }

  ghost function Beaten(row: Row, op: Op): Row
    requires op.Heartbeat? && op.id in row.workers
  {
    var workers := BeatenWorkers(row.workers, op);
    Judged(Recounted(row, workers, op.now),
           Outcome(Verdict(row.status, row.aggregate, row.completedAt), CountersOf(workers), op.now))
  }

  /** The status a heartbeat reports to its caller, if it reports one. */
  function HeartbeatNotice(row: Row, op: Op): Option<WorkerStatus>
    requires op.Heartbeat? && op.id in row.workers
  {
    var status := Expire(row.workers[op.id], op.now).status;
    if status == Running then None else Some(status)
  }

  function CancelledWorker(w: Worker, now: Instant): Worker {
    if w.status == Running then w.(status := Cancelled, updatedAt := Stamp(now)) else w
  }

  function CancelledWorkers(workers: Workers, now: Instant): Workers {
    map id | id in workers :: CancelledWorker(workers[id], now)
  }

  ghost function CancelledRun(row: Row, op: Op): Row
    requires op.Cancel?
  {
    var workers := Refresh(CancelledWorkers(row.workers, op.now), op.now);
    Judged(Recounted(row, workers, op.now),
           Outcome(Verdict(RunCancelled, Some(3), Some(op.now)), CountersOf(workers), op.now))
    .(cancelledAt := Some(op.now))
  }

  function OpError(row: Row, op: Op): Option<Error> {
    match op
    case Claim(_, _, _, _, _) => ClaimError(row, op)
    case Update(_, _, _, _) => UpdateError(row, op)
    case Heartbeat(_, _, _) => HeartbeatError(row, op)
    case Cancel(_) => if Terminal(row.status) then Some(RunTerminal) else None
  }

  ghost function Committed(row: Row, op: Op): Row
    requires OpError(row, op).None?
  {
    match op
    case Claim(_, _, _, _, _) => Claimed(row, op)
    case Update(_, _, _, _) => Updated(row, op)
    case Heartbeat(_, _, _) => Beaten(row, op)
    case Cancel(_) => CancelledRun(row, op)
  }

  /** One step of any client: an error changes nothing. */
  ghost function Next(row: Row, op: Op): Row {
    if OpError(row, op).None? then Committed(row, op) else row
  }

  /** Any interleaving of clients, each operation with its own clock reading. */
  ghost function Exec(row: Row, ops: seq<Op>): Row
    decreases |ops|
  {
    if ops == [] then row else Exec(Next(row, ops[0]), ops[1..])
  }

  /** The row `createParallelRuns` inserts. */
  function Scheduled(concurrency: int, now: Instant): Row {
    Row(Queued, concurrency, 0, 0, 0, 0, 0, None, map[], NeverWritten, None, None, None, now)
  }
}
