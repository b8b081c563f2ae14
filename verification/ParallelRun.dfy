/**
 The row as the repository updates it: an object whose methods change its fields
 under a row lock. Every method is proved to do exactly what the corresponding
 function of module `Runs` says, errors included.
 */
module ParallelRun {
  import opened Wrappers
  import opened Text
  import opened Runs

  /** One pass over the workers in id order: leases, counters and summary. */
  method Recalculate(workers: Workers, now: Instant) returns (r: Workers, c: Counters, summary: seq<SummaryRow>)
    ensures r == Refresh(workers, now)
    ensures c == CountersOf(r)
    ensures summary == SummaryOf(r)
  {
    var ids := SortedListing(workers.Keys);
    ghost var target := Refresh(workers, now);
    r, summary := workers, [];
    c := Counters(0, |ids|, 0, 0, 0, 0);
    var k := 0;
    while k < |ids|
      invariant 0 <= k <= |ids|
      invariant r == Partly(workers, now, ids, k)
      invariant Summarised(summary, target, ids, k)
      invariant c == SeenCounters(target, ids, k)
    {
      var id := ids[k];
      PartlyStep(workers, now, ids, k);
      SeenStep(target, ids, k);
      var worker := r[id];
      if worker.status == Running && worker.leaseExpiresAt < now {
        worker := worker.(status := Lost, lostAt := Some(Stamp(now)), updatedAt := Stamp(now));
      }
      r := r[id := worker];
      c := Tally(c, worker.status);
      summary := summary + [SummaryRow(id, worker.status, worker.result)];
      k := k + 1;
    }
    PartlyAll(workers, now, ids);
    SeenAll(target, ids);
    SummaryComplete(summary, target, ids);
  }

  /** The map when the first `k` workers have been looked at. */
  ghost function Partly(workers: Workers, now: Instant, ids: seq<string>, k: nat): Workers
    requires k <= |ids|
  {
    map id | id in workers :: if id in ids[..k] then Expire(workers[id], now) else workers[id]
  }

  lemma PartlyStep(workers: Workers, now: Instant, ids: seq<string>, k: nat)
    requires k < |ids| && Lists(ids, workers.Keys)
    ensures ids[k] in workers && Partly(workers, now, ids, k)[ids[k]] == workers[ids[k]]
    ensures Partly(workers, now, ids, k + 1) == Partly(workers, now, ids, k)[ids[k] := Expire(workers[ids[k]], now)]
  {
    Distinct(ids, k);
    assert ids[k] in ids;
    assert ids[..k + 1] == ids[..k] + [ids[k]];
    assert ids[k] !in ids[..k];
  }

  lemma PartlyAll(workers: Workers, now: Instant, ids: seq<string>)
    requires Lists(ids, workers.Keys)
    ensures Partly(workers, now, ids, |ids|) == Refresh(workers, now)
  {
    assert ids[..|ids|] == ids;
  }

  ghost predicate Summarised(summary: seq<SummaryRow>, workers: Workers, ids: seq<string>, k: nat) {
    && |summary| == k <= |ids|
    && forall i :: 0 <= i < k ==>
         ids[i] in workers && summary[i] == SummaryRow(ids[i], workers[ids[i]].status, workers[ids[i]].result)
  }

  lemma SummaryComplete(summary: seq<SummaryRow>, workers: Workers, ids: seq<string>)
    requires Lists(ids, workers.Keys) && Summarised(summary, workers, ids, |ids|)
    ensures summary == SummaryOf(workers)
  {
    ListsUnique(ids, Listing(workers.Keys), workers.Keys);
  }

  lemma Distinct(ids: seq<string>, k: nat)
    requires k < |ids| && StrictlySorted(ids)
    ensures forall i :: 0 <= i < |ids| && i != k ==> ids[i] != ids[k]
  {
    forall i | 0 <= i < |ids| && i != k ensures ids[i] != ids[k] {
      if i < k {
        BeforeAsymmetric(ids[i], ids[k]);
      } else {
        BeforeAsymmetric(ids[k], ids[i]);
      }
    }
  }

  function Tally(c: Counters, status: WorkerStatus): Counters {
    match status
    case Running => c.(active := c.active + 1)
    case Completed => c.(completed := c.completed + 1)
    case Failed => c.(failed := c.failed + 1)
    case Cancelled => c.(cancelled := c.cancelled + 1)
    case Lost => c.(lost := c.lost + 1)
  }

  ghost function SeenCounters(workers: Workers, ids: seq<string>, k: nat): Counters
    requires k <= |ids|
  {
    Counters(Seen(workers, ids, k, Running), |ids|, Seen(workers, ids, k, Completed), Seen(workers, ids, k, Failed),
             Seen(workers, ids, k, Cancelled), Seen(workers, ids, k, Lost))
  }

  /** Marks every running worker cancelled, in whatever order the map yields them. */
  method CancelRunning(workers: Workers, now: Instant) returns (r: Workers)
    ensures r == CancelledWorkers(workers, now)
    ensures forall id :: id in workers ==>
              id in r && r[id].status == if workers[id].status == Running then Cancelled else workers[id].status
  {
    r := workers;
    var rest := workers.Keys;
    while rest != {}
      invariant rest <= workers.Keys && r.Keys == workers.Keys
      invariant forall id :: id in workers ==>
                  r[id] == if id in rest then workers[id] else CancelledWorker(workers[id], now)
      decreases |rest|
    {
      var id :| id in rest;
      if r[id].status == Running {
        r := r[id := r[id].(status := Cancelled, updatedAt := Stamp(now))];
      }
      rest := rest - {id};
    }
  }

  /** How many of the first `k` ids have the status. */
  ghost function Seen(workers: Workers, ids: seq<string>, k: nat, status: WorkerStatus): nat
    requires k <= |ids|
  {
    |set id | id in ids[..k] && id in workers && workers[id].status == status|
  }

  lemma SeenOne(workers: Workers, ids: seq<string>, k: nat, s: WorkerStatus)
    requires k < |ids| && ids[k] !in ids[..k] && ids[k] in workers
    ensures Seen(workers, ids, k + 1, s) == Seen(workers, ids, k, s) + if workers[ids[k]].status == s then 1 else 0
  {
    var before := set id | id in ids[..k] && id in workers && workers[id].status == s;
    var after := set id | id in ids[..k + 1] && id in workers && workers[id].status == s;
    assert ids[..k + 1] == ids[..k] + [ids[k]];
    if workers[ids[k]].status == s {
      assert after == before + {ids[k]};
    } else {
      assert after == before;
    }
  }

  lemma SeenStep(workers: Workers, ids: seq<string>, k: nat)
    requires k < |ids| && StrictlySorted(ids) && ids[k] in workers
    ensures SeenCounters(workers, ids, k + 1) == Tally(SeenCounters(workers, ids, k), workers[ids[k]].status)
  {
    Distinct(ids, k);
    SeenOne(workers, ids, k, Running);
    SeenOne(workers, ids, k, Completed);
    SeenOne(workers, ids, k, Failed);
    SeenOne(workers, ids, k, Cancelled);
    SeenOne(workers, ids, k, Lost);
  }

  lemma SeenAll(workers: Workers, ids: seq<string>)
    requires Lists(ids, workers.Keys)
    ensures SeenCounters(workers, ids, |ids|) == CountersOf(workers)
  {
    assert ids[..|ids|] == ids;
    forall s: WorkerStatus ensures Seen(workers, ids, |ids|, s) == Count(workers, s) {
      assert With(workers, s) == set id | id in ids[..|ids|] && id in workers && workers[id].status == s;
    }
    ListsSize(ids, workers.Keys);
    assert |workers.Keys| == |workers|;
  }

  class Run {
    var status: RunStatus
    var requestedConcurrency: int
    var activeWorkers: int
    var totalWorkers: int
    var completedWorkers: int
    var failedWorkers: int
    var cancelledWorkers: int
    var aggregateStatus: Option<int>
    var workerStates: Workers
    var resultSummary: Summary
    var startedAt: Option<Instant>
    var completedAt: Option<Instant>
    var cancelledAt: Option<Instant>
    var updatedAt: Instant

    function Value(): Row
      reads this
    {
      Row(status, requestedConcurrency, activeWorkers, totalWorkers, completedWorkers, failedWorkers, cancelledWorkers,
          aggregateStatus, workerStates, resultSummary, startedAt, completedAt, cancelledAt, updatedAt)
    }

    constructor (concurrency: int, now: Instant)
      ensures Value() == Scheduled(concurrency, now)
    {
      status, requestedConcurrency := Queued, concurrency;
      activeWorkers, totalWorkers, completedWorkers, failedWorkers, cancelledWorkers := 0, 0, 0, 0, 0;
      aggregateStatus, workerStates, resultSummary := None, map[], NeverWritten;
      startedAt, completedAt, cancelledAt, updatedAt := None, None, None, now;
    }

    /** The columns every operation writes. */
    method Store(workers: Workers, c: Counters, summary: seq<SummaryRow>, now: Instant)
      requires c == CountersOf(workers) && summary == SummaryOf(workers)
      modifies this
      ensures Value() == Recounted(old(Value()), workers, now)
    {
      workerStates, resultSummary := workers, Rows(summary);
      activeWorkers, totalWorkers := c.active, c.total;
      completedWorkers, failedWorkers, cancelledWorkers := c.completed, c.failed, c.cancelled;
      updatedAt := now;
    }

    method Judge(v: Verdict)
      modifies this
      ensures Value() == Judged(old(Value()), v)
    {
      status, aggregateStatus, completedAt := v.status, v.aggregate, v.completedAt;
    }

    method CheckClaim(id: string, agent: Agent) returns (error: Option<Error>)
      ensures forall capabilities, tokenHash, now ::
                error == ClaimError(Value(), Claim(id, capabilities, agent, tokenHash, now))
    {
      if Terminal(status) {
        return Some(RunTerminal);
      }
      if status == Cancelling {
        return Some(RunCancelling);
      }
      if agent.Registered? {
        if agent.proofRequired && !agent.proofMatches {
          return Some(AgentProofInvalid);
        }
        if !agent.approved || agent.unhealthy {
          return Some(AgentUnavailable);
        }
      }
      if id !in workerStates && activeWorkers >= requestedConcurrency {
        return Some(ConcurrencyReached);
      }
      return None;
    }

    method BuildClaim(id: string, capabilities: Option<seq<string>>, agent: Agent, tokenHash: Option<string>,
                      now: Instant)
      returns (worker: Worker)
      ensures worker == ClaimedWorker(workerStates, Claim(id, capabilities, agent, tokenHash, now))
    {
      var offered := [];
      var claimedAt := Stamp(now);
      var result := None;
      if id in workerStates {
        offered := workerStates[id].capabilities;
        claimedAt := workerStates[id].claimedAt;
        result := workerStates[id].result;
      }
      if capabilities.Some? {
        offered := capabilities.value;
      }
      var until := Stamp(now + 120 * SECOND);
      var token := None;
      if tokenHash.Some? {
        token := Some(WorkerToken(tokenHash.value, until));
      }
      worker := Worker(Running, offered, claimedAt, Stamp(now), until, Stamp(now), None, result, token);
    }

    method ClaimWorker(id: string, capabilities: Option<seq<string>>, agent: Agent, tokenHash: Option<string>,
                       now: Instant)
      returns (error: Option<Error>)
      modifies this
      ensures error == OpError(old(Value()), Claim(id, capabilities, agent, tokenHash, now))
      ensures Value() == Next(old(Value()), Claim(id, capabilities, agent, tokenHash, now))
    {
      error := CheckClaim(id, agent);
      if error.Some? {
        return;
      }
      var worker := BuildClaim(id, capabilities, agent, tokenHash, now);
      var workers, c, summary := Recalculate(workerStates[id := worker], now);
      Store(workers, c, summary, now);
      status := InProgress;
      if startedAt.None? {
        startedAt := Some(now);
      }
    }

    method UpdateWorker(id: string, report: WorkerStatus, result: Option<Payload>, now: Instant)
      returns (error: Option<Error>)
      modifies this
      ensures error == OpError(old(Value()), Update(id, report, result, now))
      ensures Value() == Next(old(Value()), Update(id, report, result, now))
    {
      if Terminal(status) {
        return Some(RunTerminal);
      }
      if id !in workerStates {
        return Some(WorkerMissing);
      }
      var worker := workerStates[id].(status := report, updatedAt := Stamp(now));
      if result.Some? {
        worker := worker.(result := result);
      }
      var workers, c, summary := Recalculate(workerStates[id := worker], now);
      Store(workers, c, summary, now);
      return None;
    }

    /** Renews the caller's lease if the worker is still running; says what it found. */
    method Beat(workers: Workers, id: string, leaseSeconds: int, now: Instant)
      returns (r: Workers, found: WorkerStatus)
      requires id in workers
      ensures found == workers[id].status
      ensures r == workers[id := RenewedWorker(workers[id], leaseSeconds, now)]
    {
      var worker := workers[id];
      found := worker.status;
      if found == Running {
        worker := worker.(lastHeartbeatAt := Stamp(now));
        worker := worker.(leaseExpiresAt := Stamp(now + leaseSeconds * SECOND));
        worker := worker.(updatedAt := Stamp(now));
      }
      r := workers[id := worker];
    }

    method HeartbeatWorker(id: string, lease: Option<int>, now: Instant)
      returns (error: Option<Error>, notice: Option<WorkerStatus>)
      modifies this
      ensures error == OpError(old(Value()), Heartbeat(id, lease, now))
      ensures Value() == Next(old(Value()), Heartbeat(id, lease, now))
      ensures notice == if error.Some? then None else HeartbeatNotice(old(Value()), Heartbeat(id, lease, now))
    {
      var leaseSeconds := 120;
      if lease.Some? {
        leaseSeconds := lease.value;
      }
      if leaseSeconds < 15 || leaseSeconds > 3600 {
        return Some(LeaseOutOfRange), None;
      }
      var workers, c, summary := Recalculate(workerStates, now);
      if Terminal(status) {
        return Some(RunTerminal), None;
      }
      if id !in workers {
        return Some(WorkerMissing), None;
      }
      var found;
      workers, found := Beat(workers, id, leaseSeconds, now);
      workers, c, summary := Recalculate(workers, now);
      var verdict := Outcome(Verdict(status, aggregateStatus, completedAt), c, now);
      Store(workers, c, summary, now);
      Judge(verdict);
      return None, if found != Running then Some(found) else None;
    }

    method CancelAll(now: Instant) returns (error: Option<Error>)
      modifies this
      ensures error == OpError(old(Value()), Cancel(now))
      ensures Value() == Next(old(Value()), Cancel(now))
    {
      if Terminal(status) {
        return Some(RunTerminal);
      }
      var workers := CancelRunning(workerStates, now);
      var c, summary;
      workers, c, summary := Recalculate(workers, now);
      var verdict := Outcome(Verdict(RunCancelled, Some(3), Some(now)), c, now);
      Store(workers, c, summary, now);
      Judge(verdict);
      cancelledAt := Some(now);
      return None;
    }
  }
}
