/**
 Claims end to end. A claim is two transactions: the run token is spent first,
 then the run row is claimed, and other clients act in between. The state holds
 every run, every token and every claim request that is between its two
 transactions, plus a log of token spendings.
 */
module RunClaims {
  import opened Wrappers
  import opened Runs
  import opened RunInvariants
  import opened RunTokens

  /** One claim request; `token` is the header text, empty when absent. */
  datatype Request = Request(binding: Binding, token: string, capabilities: Option<seq<string>>, agent: Agent,
                             tokenHash: Option<string>, now: Instant)

  /** A request that passed its first transaction, with the token it spent if any. */
  datatype Passed = Passed(request: Request, token: Option<string>)

  datatype Spending = Spending(token: string, request: nat, binding: Binding, at: Instant)

  type RunKey = (int, int, int)

  datatype State = State(
    runs: map<RunKey, Row>,
    tokens: Tokens,
    begun: set<nat>,
    pending: map<nat, Passed>,
    granted: map<nat, Passed>,
    log: seq<Spending>)

  datatype Action =
    | Issue(tokenId: string, binding: Binding, hash: string, now: Instant, ttl: int)
    | Revoke(tokenId: string, tenant: int, project: int, run: int, now: Instant)
    | Begin(n: nat, request: Request)
    | Finish(n: nat)
    | Other(key: RunKey, op: Op)

  /** Whether the front end demands a token, and how secrets are compared. */
  datatype Policy = Policy(required: bool, matches: Matcher)

  function Key(b: Binding): RunKey {
    (b.tenant, b.project, b.run)
  }

  function ClaimOp(r: Request): Op {
    Claim(r.binding.agent, r.capabilities, r.agent, r.tokenHash, r.now)
  }

  // ---------------------------------------------------------------- steps

  /** First transaction: spend the token, or pass without one when none is demanded. */
  function BeginStep(s: State, n: nat, r: Request, policy: Policy): State {
    if n in s.begun then s
    else if r.token == "" then
      if policy.required then s.(begun := s.begun + {n})
      else s.(begun := s.begun + {n}, pending := s.pending[n := Passed(r, None)])
    else
      var spent := Spends(s.tokens, r.token, r.binding, r.now, policy.matches);
      if spent.None? then s.(begun := s.begun + {n})
      else s.(begun := s.begun + {n},
              tokens := Consumed(s.tokens, r.token, r.binding, r.now, policy.matches),
              pending := s.pending[n := Passed(r, spent)],
              log := s.log + [Spending(spent.value, n, r.binding, r.now)])
  }

  /** Second transaction: claim the row; an error leaves the row and the spent token as they are. */
  ghost function FinishStep(s: State, n: nat): State {
    if n !in s.pending then s
    else
      var passed := s.pending[n];
      var rest := s.(pending := s.pending - {n});
      var key := Key(passed.request.binding);
      if key !in s.runs || OpError(s.runs[key], ClaimOp(passed.request)).Some? then rest
      else rest.(runs := s.runs[key := Next(s.runs[key], ClaimOp(passed.request))], granted := s.granted[n := passed])
  }

  ghost function Step(s: State, a: Action, policy: Policy): State {
    match a
    case Issue(tokenId, binding, hash, now, ttl) =>
      if Key(binding) in s.runs then s.(tokens := Issued(s.tokens, tokenId, binding, hash, now, ttl)) else s
    case Revoke(tokenId, tenant, project, run, now) =>
      s.(tokens := Revoked(s.tokens, tokenId, tenant, project, run, now))
    case Begin(n, request) => BeginStep(s, n, request, policy)
    case Finish(n) => FinishStep(s, n)
    case Other(key, op) =>
      if key in s.runs && !op.Claim? then s.(runs := s.runs[key := Next(s.runs[key], op)]) else s
  }

  ghost function Run(s: State, actions: seq<Action>, policy: Policy): State
    decreases |actions|
  {
    if actions == [] then s else Run(Step(s, actions[0], policy), actions[1..], policy)
  }

  function Start(runs: map<RunKey, Row>): State {
    State(runs, map[], {}, map[], map[], [])
  }

  // ------------------------------------------------------------ invariant

  /** Each spending is the only one of its token and respects its binding and its expiry. */
  ghost predicate LogSound(s: State) {
    && (forall i, j :: 0 <= i < j < |s.log| ==>
          s.log[i].token != s.log[j].token && s.log[i].request != s.log[j].request)
    && (forall i :: 0 <= i < |s.log| ==>
          && s.log[i].token in s.tokens
          && s.tokens[s.log[i].token].binding == s.log[i].binding
          && s.tokens[s.log[i].token].usedAt == Some(s.log[i].at)
          && s.log[i].at < s.tokens[s.log[i].token].expiresAt
          && s.log[i].request in s.begun)
    && (forall id :: id in s.tokens && s.tokens[id].usedAt.Some? ==>
          exists i :: 0 <= i < |s.log| && s.log[i].token == id)
  }

  ghost predicate PaidFor(s: State, n: nat, p: Passed, policy: Policy) {
    && n in s.begun
    && (p.token.None? ==> !policy.required && p.request.token == "")
    && (p.token.Some? ==> Spending(p.token.value, n, p.request.binding, p.request.now) in s.log)
  }

  ghost predicate AllCoherent(runs: map<RunKey, Row>) {
    forall key :: key in runs ==> Coherent(runs[key])
  }

  ghost predicate Sound(s: State, policy: Policy) {
    && LogSound(s)
    && (forall n :: n in s.pending ==> PaidFor(s, n, s.pending[n], policy))
    && (forall n :: n in s.granted ==> PaidFor(s, n, s.granted[n], policy))
    && s.pending.Keys !! s.granted.Keys
    && AllCoherent(s.runs)
  }

  lemma SpendingLogged(s: State, n: nat, r: Request, policy: Policy)
    requires LogSound(s) && n !in s.begun && Spends(s.tokens, r.token, r.binding, r.now, policy.matches).Some?
    ensures LogSound(BeginStep(s, n, r, policy)) || r.token == ""
  {
    var t := BeginStep(s, n, r, policy);
    var spent := Spends(s.tokens, r.token, r.binding, r.now, policy.matches).value;
    assert s.tokens[spent].usedAt.None?;
    assert forall i :: 0 <= i < |s.log| ==> s.log[i].token != spent;
    forall id | id in t.tokens && t.tokens[id].usedAt.Some? && r.token != ""
      ensures exists i :: 0 <= i < |t.log| && t.log[i].token == id
    {
      if id == spent {
        assert t.log[|s.log|].token == id;
      } else {
        var i :| 0 <= i < |s.log| && s.log[i].token == id;
        assert t.log[i].token == id;
      }
    }
  }

  lemma StillPaidFor(s: State, t: State, n: nat, p: Passed, policy: Policy)
    requires PaidFor(s, n, p, policy) && s.begun <= t.begun && s.log <= t.log
    ensures PaidFor(t, n, p, policy)
  {
    assert forall x :: x in s.log ==> x in t.log;
  }

  lemma BeginKeeps(s: State, n: nat, r: Request, policy: Policy)
    requires Sound(s, policy)
    ensures Sound(BeginStep(s, n, r, policy), policy)
  {
    if n !in s.begun {
      var t := BeginStep(s, n, r, policy);
      var spent := Spends(s.tokens, r.token, r.binding, r.now, policy.matches);
      if spent.Some? {
        SpendingLogged(s, n, r, policy);
      }
      assert LogSound(t);
      forall m | m in s.pending ensures PaidFor(t, m, s.pending[m], policy) {
        StillPaidFor(s, t, m, s.pending[m], policy);
      }
      forall m | m in s.granted ensures PaidFor(t, m, s.granted[m], policy) {
        StillPaidFor(s, t, m, s.granted[m], policy);
      }
      if n in t.pending && spent.Some? && r.token != "" {
        assert t.log[|s.log|] == Spending(spent.value, n, r.binding, r.now);
      }
    }
  }

  lemma TokensKeep(s: State, tokens: Tokens, policy: Policy)
    requires Sound(s, policy)
    requires Extends(tokens, s.tokens)
    requires forall id :: id in tokens && tokens[id].usedAt.Some? ==>
              id in s.tokens && s.tokens[id].usedAt == tokens[id].usedAt
    ensures Sound(s.(tokens := tokens), policy)
  {}

  lemma IssueKeeps(s: State, a: Action, policy: Policy)
    requires Sound(s, policy) && a.Issue?
    ensures Sound(Step(s, a, policy), policy)
    ensures Extends(Step(s, a, policy).tokens, s.tokens)
  {
    var tokens := Step(s, a, policy).tokens;
    assert Extends(tokens, s.tokens);
    TokensKeep(s, tokens, policy);
  }

  lemma RevokeKeeps(s: State, a: Action, policy: Policy)
    requires Sound(s, policy) && a.Revoke?
    ensures Sound(Step(s, a, policy), policy)
    ensures Extends(Step(s, a, policy).tokens, s.tokens)
  {
    var tokens := Step(s, a, policy).tokens;
    assert Extends(tokens, s.tokens);
    TokensKeep(s, tokens, policy);
  }

  /** Moving paid-for requests about, with coherent rows, changes nothing the invariant speaks of. */
  lemma RearrangedKeeps(s: State, t: State, policy: Policy)
    requires Sound(s, policy)
    requires (t.tokens, t.log, t.begun) == (s.tokens, s.log, s.begun)
    requires forall n :: n in t.pending ==> n in s.pending && t.pending[n] == s.pending[n]
    requires forall n :: n in t.granted ==>
               (n in s.granted && t.granted[n] == s.granted[n]) || (n in s.pending && t.granted[n] == s.pending[n])
    requires t.pending.Keys !! t.granted.Keys
    requires AllCoherent(t.runs)
    ensures Sound(t, policy)
  {
    assert LogSound(t);
    forall n | n in t.pending ensures PaidFor(t, n, t.pending[n], policy) {
      StillPaidFor(s, t, n, s.pending[n], policy);
    }
    forall n | n in t.granted ensures PaidFor(t, n, t.granted[n], policy) {
      StillPaidFor(s, t, n, t.granted[n], policy);
    }
  }

  lemma RowKeeps(runs: map<RunKey, Row>, key: RunKey, op: Op)
    requires key in runs && AllCoherent(runs)
    ensures AllCoherent(runs[key := Next(runs[key], op)])
  {
    StepKeeps(runs[key], op);
  }

  lemma FinishKeeps(s: State, n: nat, policy: Policy)
    requires Sound(s, policy)
    ensures Sound(FinishStep(s, n), policy) && FinishStep(s, n).tokens == s.tokens
  {
    if n in s.pending {
      if Key(s.pending[n].request.binding) in s.runs {
        RowKeeps(s.runs, Key(s.pending[n].request.binding), ClaimOp(s.pending[n].request));
      }
      RearrangedKeeps(s, FinishStep(s, n), policy);
    }
  }

  lemma OtherKeeps(s: State, a: Action, policy: Policy)
    requires Sound(s, policy) && a.Other?
    ensures Sound(Step(s, a, policy), policy) && Step(s, a, policy).tokens == s.tokens
  {
    if a.key in s.runs {
      RowKeeps(s.runs, a.key, a.op);
    }
    RearrangedKeeps(s, Step(s, a, policy), policy);
  }

  lemma StepSound(s: State, a: Action, policy: Policy)
    requires Sound(s, policy)
    ensures Sound(Step(s, a, policy), policy)
    ensures Extends(Step(s, a, policy).tokens, s.tokens)
  {
    match a {
      case Issue(_, _, _, _, _) => IssueKeeps(s, a, policy);
      case Revoke(_, _, _, _, _) => RevokeKeeps(s, a, policy);
      case Begin(n, request) =>
        BeginKeeps(s, n, request, policy);
        ConsumedExtends(s.tokens, request.token, request.binding, request.now, policy.matches);
      case Finish(n) => FinishKeeps(s, n, policy);
      case Other(_, _) => OtherKeeps(s, a, policy);
    }
  }

  // ----------------------------------------------------------- whole runs

  lemma {:induction false} RunSound(s: State, actions: seq<Action>, policy: Policy)
    requires Sound(s, policy)
    ensures Sound(Run(s, actions, policy), policy)
    ensures Extends(Run(s, actions, policy).tokens, s.tokens)
    decreases |actions|
  {
    if actions != [] {
      var next := Step(s, actions[0], policy);
      StepSound(s, actions[0], policy);
      RunSound(next, actions[1..], policy);
      ExtendsTransitive(s.tokens, next.tokens, Run(s, actions, policy).tokens);
    }
  }

  /**
   Where tokens are demanded, granted claims map one-to-one into spent tokens issued for exactly that agent and
   run.
   */
  lemma GrantsSpendTokens(runs: map<RunKey, Row>, actions: seq<Action>, policy: Policy)
    requires policy.required && AllCoherent(runs)
    ensures var s := Run(Start(runs), actions, policy);
            && (forall n :: n in s.granted ==>
                  && s.granted[n].token.Some?
                  && s.granted[n].token.value in s.tokens
                  && s.tokens[s.granted[n].token.value].binding == s.granted[n].request.binding
                  && s.tokens[s.granted[n].token.value].usedAt == Some(s.granted[n].request.now)
                  && s.granted[n].request.now < s.tokens[s.granted[n].token.value].expiresAt)
            && (forall n, m :: n in s.granted && m in s.granted && n != m ==> s.granted[n].token != s.granted[m].token)
  {
    assert Sound(Start(runs), policy);
    RunSound(Start(runs), actions, policy);
    var s := Run(Start(runs), actions, policy);
    forall n, m | n in s.granted && m in s.granted && n != m
      ensures s.granted[n].token != s.granted[m].token
    {
      assert PaidFor(s, n, s.granted[n], policy) && PaidFor(s, m, s.granted[m], policy);
    }
    forall n | n in s.granted
      ensures s.granted[n].token.Some? && s.granted[n].token.value in s.tokens
      ensures s.tokens[s.granted[n].token.value].binding == s.granted[n].request.binding
      ensures s.tokens[s.granted[n].token.value].usedAt == Some(s.granted[n].request.now)
      ensures s.granted[n].request.now < s.tokens[s.granted[n].token.value].expiresAt
    {
      assert PaidFor(s, n, s.granted[n], policy);
    }
  }

  /** A token spent or revoked stays so through any later interleaving, and no later request can spend it. */
  lemma ClosedForGood(s: State, id: string, actions: seq<Action>, policy: Policy, presented: string,
                      binding: Binding, now: Instant)
    requires Sound(s, policy) && id in s.tokens
    requires s.tokens[id].usedAt.Some? || s.tokens[id].revokedAt.Some?
    ensures var later := Run(s, actions, policy).tokens;
            && id in later
            && later[id].usedAt == s.tokens[id].usedAt
            && (s.tokens[id].revokedAt.Some? ==> later[id].revokedAt == s.tokens[id].revokedAt)
            && Spends(later, presented, binding, now, policy.matches) != Some(id)
  {
    RunSound(s, actions, policy);
  }

  /** A claim whose second transaction fails has still spent its token, and the run row is untouched. */
  lemma FailedClaimStillSpends(s: State, n: nat, r: Request, between: seq<Action>, policy: Policy)
    requires Sound(s, policy) && n !in s.begun
    requires Spends(s.tokens, r.token, r.binding, r.now, policy.matches).Some?
    requires var mid := Run(BeginStep(s, n, r, policy), between, policy);
             n in mid.pending && (Key(r.binding) !in mid.runs || OpError(mid.runs[Key(r.binding)], ClaimOp(r)).Some?)
    ensures var id := Spends(s.tokens, r.token, r.binding, r.now, policy.matches).value;
            var mid := Run(BeginStep(s, n, r, policy), between, policy);
            var end := FinishStep(mid, n);
            && end.runs == mid.runs && n !in end.granted
            && id in end.tokens && end.tokens[id].usedAt == Some(r.now)
  {
    var first := BeginStep(s, n, r, policy);
    var id := Spends(s.tokens, r.token, r.binding, r.now, policy.matches).value;
    BeginKeeps(s, n, r, policy);
    assert r.token != "";
    assert first.tokens[id].usedAt == Some(r.now);
    var mid := Run(first, between, policy);
    RunSound(first, between, policy);
    assert Spending(id, n, r.binding, r.now) == first.log[|s.log|];
    PendingKeepsRequest(first, n, between, policy);
  }

  /** A pending request is still the same request later, unless it has finished. */
  lemma {:induction false} PendingKeepsRequest(s: State, n: nat, actions: seq<Action>, policy: Policy)
    requires n in s.begun
    ensures n in Run(s, actions, policy).pending ==>
              n in s.pending && Run(s, actions, policy).pending[n] == s.pending[n]
    decreases |actions|
  {
    if actions != [] {
      PendingKeepsRequest(Step(s, actions[0], policy), n, actions[1..], policy);
    }
  }

  // ---------------------------------------------------- secrets and issues

  /** The request that spent a token presented a secret which the stored hash accepts. */
  ghost predicate Proven(tokens: Tokens, p: Passed, policy: Policy) {
    p.token.Some? ==>
      && p.token.value in tokens
      && Proves(p.request.token, p.token.value, tokens[p.token.value].hash, policy.matches)
  }

  ghost predicate AllProven(s: State, policy: Policy) {
    && (forall n :: n in s.pending ==> Proven(s.tokens, s.pending[n], policy))
    && (forall n :: n in s.granted ==> Proven(s.tokens, s.granted[n], policy))
  }

  lemma StillProven(earlier: Tokens, later: Tokens, p: Passed, policy: Policy)
    requires Proven(earlier, p, policy) && Extends(later, earlier)
    ensures Proven(later, p, policy)
  {}

  lemma BeginProves(s: State, n: nat, r: Request, policy: Policy)
    requires n in BeginStep(s, n, r, policy).pending && n !in s.begun && n !in s.pending
    ensures Proven(BeginStep(s, n, r, policy).tokens, BeginStep(s, n, r, policy).pending[n], policy)
  {
    var spent := Spends(s.tokens, r.token, r.binding, r.now, policy.matches);
    if spent.Some? {
      SpendsExact(s.tokens, r.token, r.binding, r.now, policy.matches, spent.value);
      ConsumedExact(s.tokens, r.token, r.binding, r.now, policy.matches, spent.value);
    }
  }

  /** Requests only move from pending to granted, and a request that begins is the only new one. */
  lemma StepMoves(s: State, a: Action, policy: Policy, n: nat)
    ensures var t := Step(s, a, policy);
            && (n in t.pending ==>
                  || (n in s.pending && t.pending[n] == s.pending[n])
                  || (a.Begin? && a.n == n && n !in s.begun))
            && (n in t.granted ==>
                  || (n in s.granted && t.granted[n] == s.granted[n])
                  || (n in s.pending && t.granted[n] == s.pending[n]))
  {}

  lemma StepProven(s: State, a: Action, policy: Policy)
    requires Sound(s, policy) && AllProven(s, policy)
    ensures AllProven(Step(s, a, policy), policy)
  {
    var t := Step(s, a, policy);
    StepSound(s, a, policy);
    forall m | m in s.pending ensures m in s.begun {
      assert PaidFor(s, m, s.pending[m], policy);
    }
    forall n | n in t.pending ensures Proven(t.tokens, t.pending[n], policy) {
      StepMoves(s, a, policy, n);
      if n in s.pending && t.pending[n] == s.pending[n] {
        StillProven(s.tokens, t.tokens, s.pending[n], policy);
      } else {
        BeginProves(s, n, a.request, policy);
      }
    }
    forall n | n in t.granted ensures Proven(t.tokens, t.granted[n], policy) {
      StepMoves(s, a, policy, n);
      StillProven(s.tokens, t.tokens, t.granted[n], policy);
    }
  }

  lemma {:induction false} RunProven(s: State, actions: seq<Action>, policy: Policy)
    requires Sound(s, policy) && AllProven(s, policy)
    ensures AllProven(Run(s, actions, policy), policy)
    decreases |actions|
  {
    if actions != [] {
      StepProven(s, actions[0], policy);
      StepSound(s, actions[0], policy);
      RunProven(Step(s, actions[0], policy), actions[1..], policy);
    }
  }

  /** The action gave out this token, with this binding, hash and expiry. */
  predicate GivenOut(a: Action, id: string, token: Token) {
    a.Issue? && a.tokenId == id && (a.binding, a.hash, a.now + a.ttl) == (token.binding, token.hash, token.expiresAt)
  }

  lemma StepIssues(s: State, a: Action, policy: Policy, id: string)
    requires id in Step(s, a, policy).tokens
    ensures var token := Step(s, a, policy).tokens[id];
            || GivenOut(a, id, token)
            || (id in s.tokens &&
                (s.tokens[id].binding, s.tokens[id].hash, s.tokens[id].expiresAt) ==
                (token.binding, token.hash, token.expiresAt))
  {}

  /** Every token on record was given out by an issue, as it stands. */
  lemma {:induction false} TokensIssued(s: State, actions: seq<Action>, policy: Policy, id: string)
    requires id in Run(s, actions, policy).tokens
    ensures var token := Run(s, actions, policy).tokens[id];
            || (exists i :: 0 <= i < |actions| && GivenOut(actions[i], id, token))
            || (id in s.tokens &&
                (s.tokens[id].binding, s.tokens[id].hash, s.tokens[id].expiresAt) ==
                (token.binding, token.hash, token.expiresAt))
    decreases |actions|
  {
    if actions != [] {
      var next, token := Step(s, actions[0], policy), Run(s, actions, policy).tokens[id];
      TokensIssued(next, actions[1..], policy, id);
      if exists i :: 0 <= i < |actions[1..]| && GivenOut(actions[1..][i], id, token) {
        var i :| 0 <= i < |actions[1..]| && GivenOut(actions[1..][i], id, token);
        assert GivenOut(actions[i + 1], id, token);
      } else {
        StepIssues(s, actions[0], policy, id);
        assert id in s.tokens || GivenOut(actions[0], id, token);
      }
    }
  }

  /**
   Where tokens are demanded, every granted claim presented a secret that is accepted for the hash of a token
   issued for exactly that tenant, project, run and agent, before the expiry set at that issue.
   */
  lemma GrantsProveIssues(runs: map<RunKey, Row>, actions: seq<Action>, policy: Policy, n: nat)
    requires policy.required && AllCoherent(runs)
    ensures var s := Run(Start(runs), actions, policy);
            n in s.granted ==>
              exists i :: 0 <= i < |actions| && actions[i].Issue?
                && actions[i].binding == s.granted[n].request.binding
                && Proves(s.granted[n].request.token, actions[i].tokenId, actions[i].hash, policy.matches)
                && s.granted[n].request.now < actions[i].now + actions[i].ttl
  {
    var s := Run(Start(runs), actions, policy);
    assert Sound(Start(runs), policy);
    RunProven(Start(runs), actions, policy);
    RunSound(Start(runs), actions, policy);
    if n in s.granted {
      assert PaidFor(s, n, s.granted[n], policy);
      var id := s.granted[n].token.value;
      TokensIssued(Start(runs), actions, policy, id);
      var i :| 0 <= i < |actions| && GivenOut(actions[i], id, s.tokens[id]);
      assert Proven(s.tokens, s.granted[n], policy);
    }
  }

  /**
   A claim whose two transactions are separated by anything but its own is granted exactly when its token was
   spent, or none was presented and none is demanded, and the run then accepts it.
   */
  lemma ClaimGranted(s: State, n: nat, r: Request, between: seq<Action>, policy: Policy)
    requires n !in s.begun && n !in s.granted && n !in s.pending && Leaves(between, n)
    ensures var mid := Run(BeginStep(s, n, r, policy), between, policy);
            var spent := Spends(s.tokens, r.token, r.binding, r.now, policy.matches);
            n in FinishStep(mid, n).granted <==>
              && (if r.token == "" then !policy.required else spent.Some?)
              && Key(r.binding) in mid.runs && OpError(mid.runs[Key(r.binding)], ClaimOp(r)).None?
    ensures var mid := Run(BeginStep(s, n, r, policy), between, policy);
            var end, key := FinishStep(mid, n), Key(r.binding);
            && (n !in end.granted ==> end.runs == mid.runs)
            && (n in end.granted ==> key in mid.runs && end.runs == mid.runs[key := Next(mid.runs[key], ClaimOp(r))])
  {
    var first := BeginStep(s, n, r, policy);
    LeftAlone(first, n, between, policy);
  }

  /** No action is about request `n`. */
  ghost predicate Leaves(actions: seq<Action>, n: nat) {
    actions != [] ==>
      && !(actions[0].Begin? && actions[0].n == n) && !(actions[0].Finish? && actions[0].n == n)
      && Leaves(actions[1..], n)
  }

  lemma {:induction false} LeftAlone(s: State, n: nat, actions: seq<Action>, policy: Policy)
    requires Leaves(actions, n)
    ensures var t := Run(s, actions, policy);
            && (n in t.pending <==> n in s.pending) && (n in t.granted <==> n in s.granted)
            && (n in s.pending ==> t.pending[n] == s.pending[n])
    decreases |actions|
  {
    if actions != [] {
      LeftAlone(Step(s, actions[0], policy), n, actions[1..], policy);
    }
  }

  // ---------------------------------------------------------- such a claim

  /** A token that is handed out as `tokenId.secret`, and a claim that presents it. */
  datatype Ticket = Ticket(tokenId: string, secret: string, hash: string, ttl: int, binding: Binding)

  ghost predicate Good(k: Ticket, policy: Policy) {
    && TOKEN_PREFIX <= k.tokenId && '.' !in k.tokenId && k.secret != ""
    && k.ttl > 0 && policy.matches(k.hash, k.secret)
  }

  function Presenting(k: Ticket): Request {
    Request(k.binding, k.tokenId + "." + k.secret, None, Unregistered, None, 0)
  }

  function Handout(k: Ticket): Action {
    Issue(k.tokenId, k.binding, k.hash, 0, k.ttl)
  }

  /** The token is spent and the claim waits for its second transaction. */
  function HalfWay(row: Row, k: Ticket): State {
    State(map[Key(k.binding) := row],
          map[k.tokenId := Token(k.binding, k.hash, k.ttl, Some(0), None)],
          {0},
          map[0 := Passed(Presenting(k), Some(k.tokenId))],
          map[],
          [Spending(k.tokenId, 0, k.binding, 0)])
  }

  lemma IssueAndBegin(row: Row, k: Ticket, policy: Policy)
    requires Good(k, policy)
    ensures Run(Start(map[Key(k.binding) := row]), [Handout(k), Begin(0, Presenting(k))], policy) == HalfWay(row, k)
  {
    var start := Start(map[Key(k.binding) := row]);
    var unused := Token(k.binding, k.hash, k.ttl, None, None);
    var issued := Step(start, Handout(k), policy);
    assert issued.tokens == map[k.tokenId := unused];
    IssuedTextAccepted(issued.tokens, k.tokenId, k.secret, k.binding, 0, policy.matches);
    RunPair(start, Handout(k), Begin(0, Presenting(k)), policy);
    var begun, half := BeginStep(issued, 0, Presenting(k), policy), HalfWay(row, k);
    assert begun.tokens == half.tokens;
    assert begun.pending == half.pending && begun.log == half.log && begun.begun == half.begun;
  }

  /** Issue, begin, cancel, finish: the claim is refused, the run is cancelled, and the token is gone. */
  lemma TokenLostToCancelledRun(k: Ticket, policy: Policy)
    requires Good(k, policy)
    ensures var key := Key(k.binding);
            var s := Run(Start(map[key := Scheduled(1, 0)]), [Handout(k), Begin(0, Presenting(k))], policy);
            var t := Run(s, [Other(key, Cancel(1)), Finish(0)], policy);
            && key in t.runs && t.runs[key].status == RunCancelled
            && t.granted == map[] && t.pending == map[]
            && k.tokenId in t.tokens && t.tokens[k.tokenId].usedAt == Some(0)
  {
    var cancelled := Next(Scheduled(1, 0), Cancel(1));
    IssueAndBegin(Scheduled(1, 0), k, policy);
    EmptyRunCancelled(cancelled);
    CancelAndFinish(cancelled, k, policy);
  }

  lemma CancelAndFinish(cancelled: Row, k: Ticket, policy: Policy)
    requires cancelled == Next(Scheduled(1, 0), Cancel(1)) && cancelled.status == RunCancelled
    ensures Run(HalfWay(Scheduled(1, 0), k), [Other(Key(k.binding), Cancel(1)), Finish(0)], policy)
            == HalfWay(cancelled, k).(pending := map[])
  {
    var key, half := Key(k.binding), HalfWay(Scheduled(1, 0), k);
    RunPair(half, Other(key, Cancel(1)), Finish(0), policy);
    assert half.runs[key := cancelled] == map[key := cancelled];
    assert Step(half, Other(key, Cancel(1)), policy) == HalfWay(cancelled, k);
    assert OpError(cancelled, ClaimOp(Presenting(k))).Some?;
    assert HalfWay(cancelled, k).pending - {0} == map[];
  }

  lemma RunPair(s: State, a: Action, b: Action, policy: Policy)
    ensures Run(s, [a, b], policy) == Step(Step(s, a, policy), b, policy)
  {
    assert [a, b][1..] == [b] && [b][1..] == [];
    assert Run(Step(s, a, policy), [b], policy) == Run(Step(Step(s, a, policy), b, policy), [], policy);
  }

  lemma EmptyRunCancelled(row: Row)
    requires row == Next(Scheduled(1, 0), Cancel(1))
    ensures row.status == RunCancelled
  {
    ReachableStates(1, 0, []);
    StepKeeps(Scheduled(1, 0), Cancel(1));
    assert row.workers == map[];
  }
}
