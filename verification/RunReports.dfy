/**
 Order independence: when every worker of a run reports its final status, the
 order of the reports, their clocks, repeated deliveries and leases that end in
 between make no difference to what the run ends up with.
 */
module RunReports {
  import opened Wrappers
  import opened Runs
  import opened RunInvariants

  datatype Report = Report(status: WorkerStatus, result: Option<Payload>)

  /** The one final report of each worker. */
  type Reports = map<string, Report>

  ghost predicate AreFinal(reports: Reports) {
    forall id :: id in reports ==> reports[id].status != Running
  }

  predicate IsReport(op: Op, reports: Reports) {
    op.Update? && op.id in reports && op.status == reports[op.id].status && op.result == reports[op.id].result
  }

  ghost predicate OnlyReports(ops: seq<Op>, reports: Reports) {
    ops != [] ==> IsReport(ops[0], reports) && OnlyReports(ops[1..], reports)
  }

  ghost function Reporters(ops: seq<Op>): set<string> {
    if ops == [] then {}
    else (if ops[0].Update? then {ops[0].id} else {}) + Reporters(ops[1..])
  }

  /** `ops` delivers only these reports, in any order and at any time, each at least once. */
  ghost predicate Delivers(ops: seq<Op>, reports: Reports) {
    OnlyReports(ops, reports) && Reporters(ops) == reports.Keys
  }

  function Resulting(before: Option<Payload>, reported: Option<Payload>): Option<Payload> {
    if reported.Some? then reported else before
  }

  /** `w` stands as its report left it, given the result it had before. */
  predicate Stands(w: Worker, before: Option<Payload>, report: Report) {
    w.status == report.status && w.result == Resulting(before, report.result)
  }

  /** From `row` to `end` only reports arrived, and those in `told` stand as reported. */
  ghost predicate Progress(row: Row, end: Row, reports: Reports, told: set<string>) {
    && end.workers.Keys == row.workers.Keys == reports.Keys
    && (end.status, end.aggregate, end.completedAt) == (row.status, row.aggregate, row.completedAt)
    && (forall id :: id in reports && id in told ==> Stands(end.workers[id], row.workers[id].result, reports[id]))
    && (forall id :: id in reports && id !in told ==> end.workers[id].result == row.workers[id].result)
  }

  lemma ReportStep(row: Row, now: Row, reports: Reports, told: set<string>, op: Op)
    requires AreFinal(reports) && IsReport(op, reports)
    requires !Terminal(row.status) && Progress(row, now, reports, told)
    ensures Progress(row, Next(now, op), reports, told + {op.id})
  {
    ReportCommits(now, reports, op);
    ProgressGrows(row, now, Next(now, op), reports, told, op);
  }

  /** `op` turned `now` into `next`: its worker stands as reported, the others at most expired. */
  ghost predicate Taken(now: Row, next: Row, reports: Reports, op: Op)
    requires IsReport(op, reports)
  {
    && next.workers.Keys == now.workers.Keys
    && (next.status, next.aggregate, next.completedAt) == (now.status, now.aggregate, now.completedAt)
    && op.id in now.workers
    && Stands(next.workers[op.id], now.workers[op.id].result, reports[op.id])
    && (forall id :: id in now.workers && id != op.id ==> next.workers[id] == Expire(now.workers[id], op.now))
  }

  lemma ProgressGrows(row: Row, now: Row, next: Row, reports: Reports, told: set<string>, op: Op)
    requires AreFinal(reports) && IsReport(op, reports)
    requires Progress(row, now, reports, told) && Taken(now, next, reports, op)
    ensures Progress(row, next, reports, told + {op.id})
  {}

  lemma ReportCommits(now: Row, reports: Reports, op: Op)
    requires AreFinal(reports) && IsReport(op, reports)
    requires !Terminal(now.status) && op.id in now.workers
    ensures Taken(now, Next(now, op), reports, op)
  {
    assert Next(now, op) == Updated(now, op);
  }

  lemma {:induction false} ReportsStand(row: Row, now: Row, reports: Reports, told: set<string>, ops: seq<Op>)
    requires AreFinal(reports) && OnlyReports(ops, reports)
    requires !Terminal(row.status) && Progress(row, now, reports, told)
    ensures Progress(row, Exec(now, ops), reports, told + Reporters(ops))
    decreases |ops|
  {
    if ops == [] {
      assert told + Reporters(ops) == told;
    } else {
      ReportStep(row, now, reports, told, ops[0]);
      ReportsStand(row, Next(now, ops[0]), reports, told + {ops[0].id}, ops[1..]);
      FirstReporter(ops, told);
    }
  }

  lemma FirstReporter(ops: seq<Op>, told: set<string>)
    requires ops != [] && ops[0].Update?
    ensures told + Reporters(ops) == told + {ops[0].id} + Reporters(ops[1..])
  {}

  lemma SameSummary(a: Workers, b: Workers)
    requires a.Keys == b.Keys
    requires forall id :: id in a ==> a[id].status == b[id].status && a[id].result == b[id].result
    ensures SummaryOf(a) == SummaryOf(b) && CountersOf(a) == CountersOf(b)
  {
    forall s: WorkerStatus ensures With(a, s) == With(b, s) {}
    assert |a.Keys| == |a| && |b.Keys| == |b|;
  }

  lemma SameVerdict(a: Workers, b: Workers)
    requires a.Keys == b.Keys && forall id :: id in a ==> a[id].status == b[id].status
    ensures FinalVerdict(a) == FinalVerdict(b)
  {
    forall s: WorkerStatus
      ensures (SomeWorker(a, s) <==> SomeWorker(b, s)) && (EveryWorker(a, s) <==> EveryWorker(b, s)) {}
  }

  /** The workers as the reports describe them, ignoring every timestamp. */
  ghost function Reported(row: Row, reports: Reports): Workers
    requires row.workers.Keys == reports.Keys
  {
    map id | id in reports ::
      row.workers[id].(status := reports[id].status, result := Resulting(row.workers[id].result, reports[id].result))
  }

  /** The row shows exactly these worker statuses and results, in map, counters and summary. */
  ghost predicate Shows(row: Row, expected: Workers) {
    && row.workers.Keys == expected.Keys
    && (forall id :: id in expected ==>
          row.workers[id].status == expected[id].status && row.workers[id].result == expected[id].result)
    && CountersOf(expected) ==
       Counters(row.active, row.total, row.completed, row.failed, row.cancelled, Count(row.workers, Lost))
    && row.summary == Rows(SummaryOf(expected))
  }

  /** The row is closed with the verdict of these workers. */
  ghost predicate Closed(row: Row, expected: Workers) {
    && Shows(row, expected)
    && Terminal(row.status)
    && row.status == FinalVerdict(expected).0
    && row.aggregate == Some(FinalVerdict(expected).1)
  }

  predicate AcceptableLease(beat: Op) {
    beat.Heartbeat? && MIN_LEASE <= LeaseSeconds(beat.lease) <= MAX_LEASE
  }

  /** Map, counters and summary after the reports are those of the reported statuses and results. */
  lemma ReportsDecide(row: Row, reports: Reports, ops: seq<Op>)
    requires Coherent(row) && !Terminal(row.status) && row.workers.Keys == reports.Keys && row.workers != map[]
    requires AreFinal(reports) && Delivers(ops, reports)
    ensures Coherent(Exec(row, ops)) && Exec(row, ops).status == row.status
    ensures Shows(Exec(row, ops), Reported(row, reports))
  {
    ReportsStand(row, row, reports, {}, ops);
    assert {} + Reporters(ops) == reports.Keys;
    RunKeeps(row, ops);
    ProgressShows(row, Exec(row, ops), reports);
  }

  lemma ProgressShows(row: Row, end: Row, reports: Reports)
    requires Coherent(end) && end.workers != map[] && Progress(row, end, reports, reports.Keys)
    ensures Shows(end, Reported(row, reports))
  {
    var expected := Reported(row, reports);
    forall id | id in expected
      ensures end.workers[id].status == expected[id].status && end.workers[id].result == expected[id].result
    {
      assert Stands(end.workers[id], row.workers[id].result, reports[id]);
    }
    SameSummary(end.workers, expected);
  }

  lemma BeatUnchanged(row: Row, beat: Op)
    requires beat.Heartbeat? && beat.id in row.workers && !SomeWorker(row.workers, Running)
    ensures BeatenWorkers(row.workers, beat) == row.workers
  {
    assert Refresh(row.workers, beat.now) == row.workers;
  }

  /** A heartbeat on a run whose workers have all settled closes it and changes no worker. */
  lemma SettledBeat(row: Row, beat: Op)
    requires Coherent(row) && !Terminal(row.status) && !SomeWorker(row.workers, Running)
    requires AcceptableLease(beat) && beat.id in row.workers
    ensures Closed(Next(row, beat), row.workers)
  {
    var closed := Next(row, beat);
    BeatUnchanged(row, beat);
    OutcomeIsVerdict(Verdict(row.status, row.aggregate, row.completedAt), row.workers, beat.now);
    VerdictIsTerminal(row.workers);
  }

  /** Once every worker has reported, one heartbeat by any of them closes the run with the verdict of the reports. */
  lemma HeartbeatCloses(row: Row, reports: Reports, ops: seq<Op>, beat: Op)
    requires Coherent(row) && !Terminal(row.status) && row.workers.Keys == reports.Keys
    requires AreFinal(reports) && Delivers(ops, reports)
    requires AcceptableLease(beat) && beat.id in row.workers
    ensures Closed(Next(Exec(row, ops), beat), Reported(row, reports))
  {
    var end, expected := Exec(row, ops), Reported(row, reports);
    ReportsDecide(row, reports, ops);
    SettledBeat(end, beat);
    SameVerdict(end.workers, expected);
    SameSummary(end.workers, expected);
  }

  /** Two deliveries of the same reports, each closed by any worker's heartbeat, end alike. */
  lemma OrderIndependent(row: Row, reports: Reports, ops: seq<Op>, ops': seq<Op>, beat: Op, beat': Op)
    requires Coherent(row) && !Terminal(row.status) && row.workers.Keys == reports.Keys
    requires AreFinal(reports) && Delivers(ops, reports) && Delivers(ops', reports)
    requires AcceptableLease(beat) && beat.id in row.workers
    requires AcceptableLease(beat') && beat'.id in row.workers
    ensures Shows(Exec(row, ops), Reported(row, reports)) && Shows(Exec(row, ops'), Reported(row, reports))
    ensures var a, b := Next(Exec(row, ops), beat), Next(Exec(row, ops'), beat');
            && Terminal(a.status)
            && (a.status, a.aggregate, a.summary) == (b.status, b.aggregate, b.summary)
            && (a.active, a.total) == (b.active, b.total)
            && (a.completed, a.failed, a.cancelled) == (b.completed, b.failed, b.cancelled)
  {
    ReportsDecide(row, reports, ops);
    ReportsDecide(row, reports, ops');
    HeartbeatCloses(row, reports, ops, beat);
    HeartbeatCloses(row, reports, ops', beat');
  }
}
