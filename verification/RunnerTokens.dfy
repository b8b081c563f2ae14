/**
 Worker tokens. A runner's claim stores the hash of a worker token that ends 120
 seconds later, and every heartbeat and report of the runner must present it.
 Heartbeats renew the lease but not the token, so how long a runner may speak is
 decided by its last claim alone.
 */
module RunnerTokens {
  import opened Wrappers
  import opened Runs
  import opened RunInvariants
  import opened RunLeases
  import opened RunTokens

  /** Whether a runner call by `id` that presents `secret` gets past the token check. */
  predicate Admits(row: Row, id: string, secret: string, now: Instant, matches: Matcher) {
    && secret != ""
    && id in row.workers
    && row.workers[id].token.Some?
    && var token := row.workers[id].token.value;
       token.hash != "" && now < token.expiresAt && matches(token.hash, secret)
  }

  /** The last claim by `id` that committed, starting from the one already known. */
  ghost function LastClaim(row: Row, ops: seq<Op>, id: string, known: Option<Op>): Option<Op>
    decreases |ops|
  {
    if ops == [] then known
    else
      var now := if ops[0].Claim? && ops[0].id == id && OpError(row, ops[0]).None? then Some(ops[0]) else known;
      LastClaim(Next(row, ops[0]), ops[1..], id, now)
  }

  function TokenOf(claim: Op): Option<WorkerToken>
    requires claim.Claim?
  {
    if claim.tokenHash.None? then None
    else Some(WorkerToken(claim.tokenHash.value, Stamp(claim.now + DEFAULT_LEASE * SECOND)))
  }

  /** The stored token is the one of the claim. */
  ghost predicate Carries(row: Row, id: string, claim: Option<Op>) {
    && (id in row.workers <==> claim.Some?)
    && (claim.Some? ==> claim.value.Claim? && row.workers[id].token == TokenOf(claim.value))
  }

  lemma StepCarries(row: Row, op: Op, id: string, claim: Option<Op>)
    requires Carries(row, id, claim)
    ensures Carries(Next(row, op), id, if op.Claim? && op.id == id && OpError(row, op).None? then Some(op) else claim)
  {
    if OpError(row, op).None? {
      if op.Claim? && op.id == id {
        ClaimCarries(row, op);
      } else {
        TokensStay(row, op, id);
      }
    }
  }

  /** Only its own claims touch a worker's token. */
  lemma TokensStay(row: Row, op: Op, id: string)
    requires OpError(row, op).None? && !(op.Claim? && op.id == id)
    ensures id in Next(row, op).workers <==> id in row.workers
    ensures id in row.workers ==> Next(row, op).workers[id].token == row.workers[id].token
  {
    match op {
      case Claim(_, _, _, _, _) => assert Next(row, op) == Claimed(row, op);
      case Update(_, _, _, _) => assert Next(row, op) == Updated(row, op);
      case Heartbeat(_, _, _) => HeartbeatWorkers(row, op);
      case Cancel(_) => assert Next(row, op) == CancelledRun(row, op);
    }
  }

  lemma {:induction false} RunCarries(row: Row, ops: seq<Op>, id: string, claim: Option<Op>)
    requires Carries(row, id, claim)
    ensures Carries(Exec(row, ops), id, LastClaim(row, ops, id, claim))
    decreases |ops|
  {
    if ops != [] {
      var now := if ops[0].Claim? && ops[0].id == id && OpError(row, ops[0]).None? then Some(ops[0]) else claim;
      StepCarries(row, ops[0], id, claim);
      RunCarries(Next(row, ops[0]), ops[1..], id, now);
    }
  }

  /** What the last claim by a worker lets it say, and until when. */
  predicate Grants(claim: Op, secret: string, now: Instant, matches: Matcher)
    requires claim.Claim?
  {
    && secret != ""
    && claim.tokenHash.Some? && claim.tokenHash.value != ""
    && matches(claim.tokenHash.value, secret)
    && now < Stamp(claim.now + DEFAULT_LEASE * SECOND)
  }

  /**
   In every reachable state a runner call passes exactly when the worker's last committed claim issued a token that
   matches and ends, 120 seconds after that claim, later than now, whatever heartbeats came in between.
   */
  lemma RunnerAdmitted(concurrency: int, created: Instant, ops: seq<Op>, id: string, secret: string, now: Instant,
                       matches: Matcher)
    ensures var start := Scheduled(concurrency, created);
            var claim := LastClaim(start, ops, id, None);
            && (claim.Some? ==> claim.value.Claim?)
            && (Admits(Exec(start, ops), id, secret, now, matches) <==>
                claim.Some? && Grants(claim.value, secret, now, matches))
  {
    var start := Scheduled(concurrency, created);
    RunCarries(start, ops, id, None);
    TokenDecides(Exec(start, ops), id, LastClaim(start, ops, id, None), secret, now, matches);
  }

  lemma TokenDecides(row: Row, id: string, claim: Option<Op>, secret: string, now: Instant, matches: Matcher)
    requires Carries(row, id, claim)
    ensures Admits(row, id, secret, now, matches) <==> claim.Some? && Grants(claim.value, secret, now, matches)
  {}

  /** Nobody claims as `id`. */
  ghost predicate NoClaimBy(ops: seq<Op>, id: string) {
    ops != [] ==> !(ops[0].Claim? && ops[0].id == id) && NoClaimBy(ops[1..], id)
  }

  lemma {:induction false} ClaimStands(row: Row, ops: seq<Op>, id: string, known: Option<Op>)
    requires NoClaimBy(ops, id)
    ensures LastClaim(row, ops, id, known) == known
    decreases |ops|
  {
    if ops != [] {
      ClaimStands(Next(row, ops[0]), ops[1..], id, known);
    }
  }

  /**
   A runner that claimed and then keeps its lease alive by any heartbeats stays running for as long as it likes,
   but may speak only until 120 seconds after the claim.
   */
  lemma LeaseOutlivesToken(row: Row, claim: Op, ops: seq<Op>, secret: string, now: Instant, matches: Matcher)
    requires Coherent(row) && claim.Claim? && OpError(row, claim).None?
    requires NoClaimBy(ops, claim.id)
    ensures var end := Exec(Next(row, claim), ops);
            && (KeptAlive(Next(row, claim), claim.id, ops) ==>
                  claim.id in end.workers && end.workers[claim.id].status == Running && !Terminal(end.status))
            && (Admits(end, claim.id, secret, now, matches) <==> Grants(claim, secret, now, matches))
  {
    var first := Next(row, claim);
    ClaimCarries(row, claim);
    StepKeeps(row, claim);
    if KeptAlive(first, claim.id, ops) {
      NeverLostWhileLeased(first, claim.id, ops);
    }
    RunCarries(first, ops, claim.id, Some(claim));
    ClaimStands(first, ops, claim.id, Some(claim));
    TokenDecides(Exec(first, ops), claim.id, Some(claim), secret, now, matches);
  }

  lemma ClaimCarries(row: Row, claim: Op)
    requires claim.Claim? && OpError(row, claim).None?
    ensures Carries(Next(row, claim), claim.id, Some(claim))
    ensures Next(row, claim).workers[claim.id].status == Running
    ensures Next(row, claim).workers[claim.id].leaseExpiresAt == Stamp(claim.now + DEFAULT_LEASE * SECOND)
  {
    StampClose(claim.now + DEFAULT_LEASE * SECOND);
  }

  /** One heartbeat for an hour after a minute: at two minutes the worker runs on and its runner is shut out. */
  lemma RunnerShutOut(matches: Matcher)
    ensures var claim := Claim("w", None, Unregistered, Some("h"), 0);
            var beat := Heartbeat("w", Some(MAX_LEASE), 60 * SECOND);
            var row := Next(Next(Scheduled(1, 0), claim), beat);
            && "w" in row.workers && row.workers["w"].status == Running
            && row.workers["w"].leaseExpiresAt == 3660 * SECOND
            && forall secret, now :: now >= 120 * SECOND ==> !Admits(row, "w", secret, now, matches)
  {
    var claim := Claim("w", None, Unregistered, Some("h"), 0);
    var beat := Heartbeat("w", Some(MAX_LEASE), 60 * SECOND);
    var first := Next(Scheduled(1, 0), claim);
    ClaimCarries(Scheduled(1, 0), claim);
    ClaimOpens(first, claim);
    HeartbeatWorkers(first, beat);
    StepCarries(first, beat, "w", Some(claim));
    var row := Next(first, beat);
    forall secret, now | now >= 120 * SECOND ensures !Admits(row, "w", secret, now, matches) {
      TokenDecides(row, "w", Some(claim), secret, now, matches);
    }
  }

  lemma ClaimOpens(row: Row, claim: Op)
    requires claim.Claim? && claim.agent == Unregistered && row == Next(Scheduled(1, 0), claim)
    ensures row.status == InProgress
  {}
}
