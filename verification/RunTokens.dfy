/**
 Run tokens: short-lived, single-use credentials bound to one tenant, project,
 run and agent. The stored row keeps a hash of the secret; whether a secret
 matches a hash is the `matches` argument.
 */
module RunTokens {
  import opened Wrappers
  import opened Runs

  datatype Binding = Binding(tenant: int, project: int, run: int, agent: string)

  datatype Token = Token(binding: Binding, hash: string, expiresAt: Instant, usedAt: Option<Instant>,
                         revokedAt: Option<Instant>)

  /** The `run_tokens` table, by its unique token id. */
  type Tokens = map<string, Token>

  type Matcher = (string, string) -> bool

  // -------------------------------------------------------- presented text

  const TOKEN_PREFIX: string := "idrt_"

  datatype Credential = Credential(tokenId: string, secret: string)

  /** `strings.Cut` at the first dot. */
  function Cut(s: string): Option<Credential> {
    if s == "" then None
    else if s[0] == '.' then Some(Credential("", s[1..]))
    else
      var rest := Cut(s[1..]);
      if rest.None? then None else Some(Credential([s[0]] + rest.value.tokenId, rest.value.secret))
  }

  lemma {:induction false} CutJoin(tokenId: string, secret: string)
    requires '.' !in tokenId
    ensures Cut(tokenId + "." + secret) == Some(Credential(tokenId, secret))
  {
    var s := tokenId + "." + secret;
    if tokenId == "" {
      assert s[1..] == secret;
    } else {
      assert s[1..] == tokenId[1..] + "." + secret;
      CutJoin(tokenId[1..], secret);
      assert s[0] == tokenId[0] && [tokenId[0]] + tokenId[1..] == tokenId;
    }
  }

  function Parse(presented: string): Option<Credential> {
    var cut := Cut(presented);
    if cut.None? || !(TOKEN_PREFIX <= cut.value.tokenId) || cut.value.secret == "" then None else cut
  }

  lemma {:induction false} CutSplits(s: string)
    ensures Cut(s).Some? ==> s == Cut(s).value.tokenId + "." + Cut(s).value.secret && '.' !in Cut(s).value.tokenId
  {
    if s != "" && s[0] != '.' {
      CutSplits(s[1..]);
      assert s == [s[0]] + s[1..];
    }
  }

  /** A text is read as a credential exactly when it is a prefixed id without a dot, a dot, and a secret. */
  lemma ParseExact(presented: string, c: Credential)
    ensures Parse(presented) == Some(c) <==>
              && presented == c.tokenId + "." + c.secret
              && TOKEN_PREFIX <= c.tokenId && '.' !in c.tokenId && c.secret != ""
  {
    CutSplits(presented);
    if '.' !in c.tokenId {
      CutJoin(c.tokenId, c.secret);
    }
  }

  // ------------------------------------------------------------ operations

  predicate Spendable(token: Token, secret: string, binding: Binding, now: Instant, matches: Matcher) {
    && token.binding == binding
    && token.usedAt.None?
    && token.revokedAt.None?
    && now < token.expiresAt
    && matches(token.hash, secret)
  }

  /** The id of the token this text would spend, if it would be accepted. */
  function Spends(tokens: Tokens, presented: string, binding: Binding, now: Instant, matches: Matcher): Option<string> {
    var parsed := Parse(presented);
    if parsed.None? || parsed.value.tokenId !in tokens then None
    else if Spendable(tokens[parsed.value.tokenId], parsed.value.secret, binding, now, matches)
    then Some(parsed.value.tokenId)
    else None
  }

  function Consumed(tokens: Tokens, presented: string, binding: Binding, now: Instant, matches: Matcher): Tokens {
    var id := Spends(tokens, presented, binding, now, matches);
    if id.None? then tokens else tokens[id.value := tokens[id.value].(usedAt := Some(now))]
  }

  function Issued(tokens: Tokens, tokenId: string, binding: Binding, hash: string, now: Instant, ttl: int): Tokens {
    if tokenId in tokens then tokens else tokens[tokenId := Token(binding, hash, now + ttl, None, None)]
  }

  predicate Revocable(tokens: Tokens, tokenId: string, tenant: int, project: int, run: int) {
    && tokenId in tokens
    && tokens[tokenId].binding.tenant == tenant
    && tokens[tokenId].binding.project == project
    && tokens[tokenId].binding.run == run
  }

  function Revoked(tokens: Tokens, tokenId: string, tenant: int, project: int, run: int, now: Instant): Tokens {
    if Revocable(tokens, tokenId, tenant, project, run) && tokens[tokenId].revokedAt.None?
    then tokens[tokenId := tokens[tokenId].(revokedAt := Some(now))]
    else tokens
  }

  /** The text handed out at issue is accepted exactly while its row is spendable. */
  lemma IssuedTextAccepted(tokens: Tokens, tokenId: string, secret: string, binding: Binding, now: Instant,
                           matches: Matcher)
    requires TOKEN_PREFIX <= tokenId && '.' !in tokenId && secret != ""
    ensures Spends(tokens, tokenId + "." + secret, binding, now, matches) == Some(tokenId) <==>
              && tokenId in tokens && tokens[tokenId].binding == binding
              && tokens[tokenId].usedAt.None? && tokens[tokenId].revokedAt.None?
              && now < tokens[tokenId].expiresAt && matches(tokens[tokenId].hash, secret)
  {
    CutJoin(tokenId, secret);
  }

  /** The text names the token and carries a secret that its hash accepts. */
  ghost predicate Proves(presented: string, id: string, hash: string, matches: Matcher) {
    exists secret :: presented == id + "." + secret && secret != "" && matches(hash, secret)
  }

  /** A text spends a token exactly when it proves it, for its own binding, before its expiry, unused and unrevoked. */
  lemma SpendsExact(tokens: Tokens, presented: string, binding: Binding, now: Instant, matches: Matcher, id: string)
    ensures Spends(tokens, presented, binding, now, matches) == Some(id) <==>
              && "idrt_" <= id && '.' !in id && id in tokens
              && Proves(presented, id, tokens[id].hash, matches)
              && tokens[id].binding == binding
              && tokens[id].usedAt.None? && tokens[id].revokedAt.None?
              && now < tokens[id].expiresAt
  {
    var parsed := Parse(presented);
    if parsed.Some? {
      ParseExact(presented, parsed.value);
    }
    if id in tokens && Proves(presented, id, tokens[id].hash, matches) && "idrt_" <= id && '.' !in id {
      var secret :| presented == id + "." + secret && secret != "" && matches(tokens[id].hash, secret);
      ParseExact(presented, Credential(id, secret));
      forall other | presented == id + "." + other ensures other == secret {
        assert (id + "." + other)[|id| + 1..] == other && (id + "." + secret)[|id| + 1..] == secret;
      }
    }
  }

  /** Spending dates exactly that token and changes nothing else. */
  lemma ConsumedExact(tokens: Tokens, presented: string, binding: Binding, now: Instant, matches: Matcher, id: string)
    requires id in tokens
    ensures var after := Consumed(tokens, presented, binding, now, matches);
            && after.Keys == tokens.Keys
            && after[id] == if Spends(tokens, presented, binding, now, matches) == Some(id)
                            then tokens[id].(usedAt := Some(now)) else tokens[id]
  {}

  /** A revocation dates the named token of that run once, for whichever agent, and changes nothing else. */
  lemma RevokedExact(tokens: Tokens, named: string, tenant: int, project: int, run: int, now: Instant, id: string)
    requires id in tokens
    ensures var after, b := Revoked(tokens, named, tenant, project, run, now), tokens[id].binding;
            && after.Keys == tokens.Keys
            && after[id].(revokedAt := None) == tokens[id].(revokedAt := None)
            && (id == named && (b.tenant, b.project, b.run) == (tenant, project, run) ==>
                  after[id].revokedAt == if tokens[id].revokedAt.Some? then tokens[id].revokedAt else Some(now))
            && (id != named || (b.tenant, b.project, b.run) != (tenant, project, run) ==> after[id] == tokens[id])
  {}

  // ---------------------------------------------------------- monotonicity

  /** Later tables only add tokens and fill in dates; a revoked or used token is closed. */
  ghost predicate Extends(later: Tokens, earlier: Tokens) {
    forall id :: id in earlier ==>
      && id in later
      && later[id].binding == earlier[id].binding
      && later[id].hash == earlier[id].hash
      && later[id].expiresAt == earlier[id].expiresAt
      && (earlier[id].usedAt.Some? ==> later[id].usedAt == earlier[id].usedAt)
      && (earlier[id].revokedAt.Some? ==>
            later[id].revokedAt == earlier[id].revokedAt && later[id].usedAt == earlier[id].usedAt)
      && (earlier[id].usedAt.None? && later[id].usedAt.Some? ==> later[id].usedAt.value < later[id].expiresAt)
  }

  lemma ConsumedExtends(tokens: Tokens, presented: string, binding: Binding, now: Instant, matches: Matcher)
    ensures Extends(Consumed(tokens, presented, binding, now, matches), tokens)
  {}

  lemma ExtendsTransitive(a: Tokens, b: Tokens, c: Tokens)
    requires Extends(b, a) && Extends(c, b)
    ensures Extends(c, a)
  {
    assert forall id :: id in a ==> id in b && id in c;
  }

  // ------------------------------------------------------------ the table

  class TokenTable {
    var rows: Tokens

    constructor ()
      ensures rows == map[]
    {
      rows := map[];
    }

    /** `known` says whether the run exists for this tenant and project. */
    method Issue(known: bool, tokenId: string, binding: Binding, hash: string, now: Instant, ttl: int)
      returns (ok: bool)
      modifies this
      ensures ok == (known && tokenId !in old(rows))
      ensures rows == if known then Issued(old(rows), tokenId, binding, hash, now, ttl) else old(rows)
    {
      if !known || tokenId in rows {
        return false;
      }
      var expiresAt := now + ttl;
      rows := rows[tokenId := Token(binding, hash, expiresAt, None, None)];
      return true;
    }

    /** Returns the revocation time on record, which is the first one. */
    method Revoke(tokenId: string, tenant: int, project: int, run: int, now: Instant) returns (at: Option<Instant>)
      modifies this
      ensures rows == Revoked(old(rows), tokenId, tenant, project, run, now)
      ensures at.Some? <==> Revocable(old(rows), tokenId, tenant, project, run)
      ensures at.Some? ==> tokenId in rows && rows[tokenId].revokedAt == at
      ensures at.Some? && old(rows)[tokenId].revokedAt.Some? ==> at == old(rows)[tokenId].revokedAt
    {
      if tokenId !in rows {
        return None;
      }
      var token := rows[tokenId];
      if token.binding.tenant != tenant || token.binding.project != project || token.binding.run != run {
        return None;
      }
      if token.revokedAt.Some? {
        return token.revokedAt;
      }
      rows := rows[tokenId := token.(revokedAt := Some(now))];
      return Some(now);
    }

    method Consume(presented: string, binding: Binding, now: Instant, matches: Matcher) returns (spent: Option<string>)
      modifies this
      ensures spent == Spends(old(rows), presented, binding, now, matches)
      ensures rows == Consumed(old(rows), presented, binding, now, matches)
      ensures Extends(rows, old(rows))
    {
      var parsed := Parse(presented);
      if parsed.None? || parsed.value.tokenId !in rows {
        return None;
      }
      var id := parsed.value.tokenId;
      var token := rows[id];
      if token.binding != binding {
        return None;
      }
      if token.usedAt.Some? || token.revokedAt.Some? || token.expiresAt <= now ||
         !matches(token.hash, parsed.value.secret)
      {
        return None;
      }
      rows := rows[id := token.(usedAt := Some(now))];
      return Some(id);
    }
  }
}
