/**
 Single-use nonces of signed identity payloads. The cache forgets a nonce ten
 minutes after it was accepted and never holds more than ten thousand. It is
 compared with a reference that keeps every acceptance for ever.
 */
module NonceCache {
  import opened Text

  type Instant = int

  const WINDOW: int := 600_000_000_000
  const CAPACITY: int := 10_000

  /** One request: the configured secret, the two headers, the body's readability and its signature under the secret. */
  datatype Call = Call(secret: string, nonceHeader: string, signatureHeader: string, readable: bool,
                       expected: string, now: Instant)

  datatype Answer = SignatureRequired | SignatureInvalid | ReplayDetected | CacheFull | Accepted

  type Cache = map<string, Instant>

  datatype Acceptance = Acceptance(nonce: string, at: Instant)

  type History = seq<Acceptance>

  function Nonce(c: Call): string {
    Trim(c.nonceHeader)
  }

  /** The answer that is given before the cache is looked at, if any. */
  predicate Unsigned(c: Call) {
    c.secret == "" || Nonce(c) == "" || Trim(c.signatureHeader) == "" || !c.readable
  }

  predicate Forged(c: Call) {
    Trim(c.signatureHeader) != c.expected
  }

  // ------------------------------------------------------------- the cache

  function Purged(cache: Cache, now: Instant): Cache {
    map n | n in cache && now - cache[n] <= WINDOW :: cache[n]
  }

  function CacheDecision(cache: Cache, nonce: string, now: Instant): Answer {
    if nonce in Purged(cache, now) then ReplayDetected
    else if |Purged(cache, now)| >= CAPACITY then CacheFull
    else Accepted
  }

  function CacheAnswer(cache: Cache, c: Call): Answer {
    if Unsigned(c) then SignatureRequired
    else if Forged(c) then SignatureInvalid
    else CacheDecision(cache, Nonce(c), c.now)
  }

  function CacheAfter(cache: Cache, c: Call): Cache {
    var answer := CacheAnswer(cache, c);
    if answer == SignatureRequired || answer == SignatureInvalid then cache
    else if answer == Accepted then Purged(cache, c.now)[Nonce(c) := c.now]
    else Purged(cache, c.now)
  }

  class Replays {
    var seen: Cache

    constructor ()
      ensures seen == map[]
    {
      seen := map[];
    }

    /** Deletes every entry that is too old, in whatever order the map yields them. */
    method Purge(now: Instant)
      modifies this
      ensures seen == Purged(old(seen), now)
    {
      var rest := seen.Keys;
      while rest != {}
        invariant rest <= old(seen).Keys && seen.Keys <= old(seen).Keys
        invariant forall n :: n in old(seen) ==>
                    (n in seen <==> n in rest || now - old(seen)[n] <= WINDOW)
        invariant forall n :: n in seen ==> seen[n] == old(seen)[n]
        decreases |rest|
      {
        var n :| n in rest;
        if now - seen[n] > WINDOW {
          seen := seen - {n};
        }
        rest := rest - {n};
      }
    }

    method Validate(c: Call) returns (answer: Answer)
      modifies this
      ensures answer == CacheAnswer(old(seen), c)
      ensures seen == CacheAfter(old(seen), c)
    {
      var nonce, signature := Trim(c.nonceHeader), Trim(c.signatureHeader);
      if c.secret == "" || nonce == "" || signature == "" || !c.readable {
        return SignatureRequired;
      }
      if signature != c.expected {
        return SignatureInvalid;
      }
      Purge(c.now);
      if nonce in seen {
        return ReplayDetected;
      }
      if |seen| >= 10000 {
        return CacheFull;
      }
      seen := seen[nonce := c.now];
      return Accepted;
    }
  }

  // --------------------------------------------------------- the reference

  /** Positions of the acceptances of the last ten minutes. */
  ghost function Recent(h: History, now: Instant): set<int> {
    set i | 0 <= i < |h| && now - h[i].at <= WINDOW
  }

  ghost predicate UsedRecently(h: History, nonce: string, now: Instant) {
    exists i :: 0 <= i < |h| && now - h[i].at <= WINDOW && h[i].nonce == nonce
  }

  ghost function HistoryDecision(h: History, nonce: string, now: Instant): Answer {
    if UsedRecently(h, nonce, now) then ReplayDetected
    else if |Recent(h, now)| >= CAPACITY then CacheFull
    else Accepted
  }

  ghost function HistoryAnswer(h: History, c: Call): Answer {
    if Unsigned(c) then SignatureRequired
    else if Forged(c) then SignatureInvalid
    else HistoryDecision(h, Nonce(c), c.now)
  }

  ghost function HistoryAfter(h: History, c: Call): History {
    if HistoryAnswer(h, c) == Accepted then h + [Acceptance(Nonce(c), c.now)] else h
  }

  // ------------------------------------------------------------ relation

  ghost predicate InOrder(h: History, clock: Instant) {
    && (forall i, j :: 0 <= i <= j < |h| ==> h[i].at <= h[j].at)
    && (forall i :: 0 <= i < |h| ==> h[i].at <= clock)
  }

  /** Two acceptances of one nonce are more than ten minutes apart. */
  ghost predicate Spaced(h: History) {
    forall i, j :: 0 <= i < j < |h| && h[i].nonce == h[j].nonce ==> h[j].at - h[i].at > WINDOW
  }

  /** Acceptances of the ten minutes up to and including the `j`-th. */
  ghost function Leading(h: History, j: nat): set<int>
    requires j < |h|
  {
    set i | 0 <= i <= j && h[j].at - h[i].at <= WINDOW
  }

  ghost predicate Throttled(h: History) {
    forall j :: 0 <= j < |h| ==> |Leading(h, j)| <= CAPACITY
  }

  /** Every entry is an acceptance, and every recent acceptance is an entry. */
  ghost predicate Mirrors(cache: Cache, h: History, clock: Instant) {
    && (forall n :: n in cache ==> exists i :: 0 <= i < |h| && h[i] == Acceptance(n, cache[n]))
    && (forall i :: 0 <= i < |h| && clock - h[i].at <= WINDOW ==> h[i].nonce in cache && cache[h[i].nonce] == h[i].at)
  }

  ghost predicate Related(cache: Cache, h: History, clock: Instant) {
    InOrder(h, clock) && Spaced(h) && Throttled(h) && Mirrors(cache, h, clock)
  }

  /** After a purge the cache is exactly the acceptances of the last ten minutes. */
  lemma PurgedIsRecent(cache: Cache, h: History, clock: Instant, now: Instant)
    requires Related(cache, h, clock) && clock <= now
    ensures forall n :: n in Purged(cache, now) <==> UsedRecently(h, n, now)
    ensures forall i :: i in Recent(h, now) ==>
              h[i].nonce in Purged(cache, now) && Purged(cache, now)[h[i].nonce] == h[i].at
    ensures |Purged(cache, now)| == |Recent(h, now)|
  {
    var purged := Purged(cache, now);
    forall n | n in purged ensures UsedRecently(h, n, now) {
      var i :| 0 <= i < |h| && h[i] == Acceptance(n, cache[n]);
    }
    SameSize(h, Recent(h, now), purged.Keys, now);
    assert |purged.Keys| == |purged|;
  }

  /** Recent acceptances have different nonces, so counting either counts both. */
  lemma {:induction false} SameSize(h: History, positions: set<int>, nonces: set<string>, now: Instant)
    requires Spaced(h) && InOrder(h, now) && positions <= Recent(h, now)
    requires forall n :: n in nonces <==> exists i :: i in positions && h[i].nonce == n
    ensures |nonces| == |positions|
    decreases |positions|
  {
    if positions == {} {
      assert nonces == {};
    } else {
      var i :| i in positions;
      var fewer := nonces - {h[i].nonce};
      forall n ensures n in fewer <==> exists k :: k in positions - {i} && h[k].nonce == n {
        if n in fewer {
          var k :| k in positions && h[k].nonce == n;
          assert k in positions - {i};
        }
        if exists k :: k in positions - {i} && h[k].nonce == n {
          var k :| k in positions - {i} && h[k].nonce == n;
          OneEach(h, i, k, now);
        }
      }
      SameSize(h, positions - {i}, fewer, now);
      assert h[i].nonce in nonces;
    }
  }

  lemma OneEach(h: History, i: int, k: int, now: Instant)
    requires Spaced(h) && InOrder(h, now) && i in Recent(h, now) && k in Recent(h, now) && i != k
    ensures h[i].nonce != h[k].nonce
  {
    if i < k {
      assert h[k].at - h[i].at <= now - h[i].at;
    } else {
      assert h[i].at - h[k].at <= now - h[k].at;
    }
  }

  // ---------------------------------------------------------- one call

  lemma SameDecision(cache: Cache, h: History, clock: Instant, nonce: string, now: Instant)
    requires Related(cache, h, clock) && clock <= now
    ensures CacheDecision(cache, nonce, now) == HistoryDecision(h, nonce, now)
  {
    PurgedIsRecent(cache, h, clock, now);
  }

  lemma AppendThrottled(h: History, a: Acceptance)
    requires InOrder(h, a.at) && Throttled(h) && |Recent(h, a.at)| < CAPACITY
    ensures Throttled(h + [a])
  {
    var next := h + [a];
    forall j | 0 <= j < |next| ensures |Leading(next, j)| <= CAPACITY {
      if j < |h| {
        assert Leading(next, j) == Leading(h, j);
      } else {
        assert Leading(next, j) == Recent(h, a.at) + {|h|};
      }
    }
  }

  lemma AppendSpaced(h: History, a: Acceptance)
    requires Spaced(h) && !UsedRecently(h, a.nonce, a.at)
    ensures Spaced(h + [a])
  {}

  lemma AcceptedKeepsHistory(h: History, clock: Instant, a: Acceptance)
    requires InOrder(h, clock) && Spaced(h) && Throttled(h) && clock <= a.at
              && HistoryDecision(h, a.nonce, a.at) == Accepted
    ensures InOrder(h + [a], a.at) && Spaced(h + [a]) && Throttled(h + [a])
  {
    assert InOrder(h, a.at);
    AppendThrottled(h, a);
    AppendSpaced(h, a);
  }

  lemma PurgedMirrors(cache: Cache, h: History, clock: Instant, now: Instant)
    requires Mirrors(cache, h, clock) && clock <= now
    ensures Mirrors(Purged(cache, now), h, now)
  {}

  lemma AcceptedMirrors(cache: Cache, h: History, a: Acceptance)
    requires Mirrors(cache, h, a.at) && !UsedRecently(h, a.nonce, a.at)
    ensures Mirrors(cache[a.nonce := a.at], h + [a], a.at)
  {
    var after, next := cache[a.nonce := a.at], h + [a];
    forall n | n in after ensures exists i :: 0 <= i < |next| && next[i] == Acceptance(n, after[n]) {
      if n == a.nonce {
        assert next[|h|] == Acceptance(n, after[n]);
      } else {
        var i :| 0 <= i < |h| && h[i] == Acceptance(n, cache[n]);
        assert next[i] == Acceptance(n, after[n]);
      }
    }
    forall i | 0 <= i < |next| && a.at - next[i].at <= WINDOW
      ensures next[i].nonce in after && after[next[i].nonce] == next[i].at
    {
      if i < |h| {
        assert next[i] == h[i];
        assert h[i].nonce != a.nonce;
      }
    }
  }

  lemma DecisionKeepsRelated(cache: Cache, h: History, clock: Instant, nonce: string, now: Instant)
    requires Related(cache, h, clock) && clock <= now
    ensures var a, purged := Acceptance(nonce, now), Purged(cache, now);
            if CacheDecision(cache, nonce, now) == Accepted then Related(purged[nonce := now], h + [a], now)
            else Related(purged, h, now)
  {
    var a := Acceptance(nonce, now);
    SameDecision(cache, h, clock, nonce, now);
    PurgedMirrors(cache, h, clock, now);
    if CacheDecision(cache, nonce, now) == Accepted {
      AcceptedKeepsHistory(h, clock, a);
      AcceptedMirrors(Purged(cache, now), h, a);
    }
  }

  lemma CallKeepsRelated(cache: Cache, h: History, clock: Instant, c: Call)
    requires Related(cache, h, clock) && clock <= c.now
    ensures CacheAnswer(cache, c) == HistoryAnswer(h, c)
    ensures Related(CacheAfter(cache, c), HistoryAfter(h, c), c.now)
  {
    if Unsigned(c) || Forged(c) {
      RelatedLater(cache, h, clock, c.now);
    } else {
      SameDecision(cache, h, clock, Nonce(c), c.now);
      DecisionKeepsRelated(cache, h, clock, Nonce(c), c.now);
    }
  }

  lemma RelatedLater(cache: Cache, h: History, clock: Instant, now: Instant)
    requires Related(cache, h, clock) && clock <= now
    ensures Related(cache, h, now)
  {}

  // --------------------------------------------------------- whole runs

  /** The clock readings of the calls, taken under the lock, do not go back. */
  predicate Ordered(calls: seq<Call>, clock: Instant) {
    calls != [] ==> clock <= calls[0].now && Ordered(calls[1..], calls[0].now)
  }

  function CacheAnswers(cache: Cache, calls: seq<Call>): seq<Answer>
    decreases |calls|
  {
    if calls == [] then [] else [CacheAnswer(cache, calls[0])] + CacheAnswers(CacheAfter(cache, calls[0]), calls[1..])
  }

  ghost function HistoryAnswers(h: History, calls: seq<Call>): seq<Answer>
    decreases |calls|
  {
    if calls == [] then [] else [HistoryAnswer(h, calls[0])] + HistoryAnswers(HistoryAfter(h, calls[0]), calls[1..])
  }

  function CacheEnd(cache: Cache, calls: seq<Call>): Cache
    decreases |calls|
  {
    if calls == [] then cache else CacheEnd(CacheAfter(cache, calls[0]), calls[1..])
  }

  ghost function HistoryEnd(h: History, calls: seq<Call>): History
    decreases |calls|
  {
    if calls == [] then h else HistoryEnd(HistoryAfter(h, calls[0]), calls[1..])
  }

  function ClockEnd(clock: Instant, calls: seq<Call>): Instant
    decreases |calls|
  {
    if calls == [] then clock else ClockEnd(calls[0].now, calls[1..])
  }

  /** The bounded cache answers every call as the full history would. */
  lemma {:induction false} CacheRefinesHistory(cache: Cache, h: History, clock: Instant, calls: seq<Call>)
    requires Related(cache, h, clock) && Ordered(calls, clock)
    ensures CacheAnswers(cache, calls) == HistoryAnswers(h, calls)
    ensures Related(CacheEnd(cache, calls), HistoryEnd(h, calls), ClockEnd(clock, calls))
    decreases |calls|
  {
    if calls != [] {
      CallKeepsRelated(cache, h, clock, calls[0]);
      CacheRefinesHistory(CacheAfter(cache, calls[0]), HistoryAfter(h, calls[0]), calls[0].now, calls[1..]);
    }
  }

  /** Acceptances between `from` and ten minutes later, both ends included. */
  ghost function Window(h: History, from: Instant): set<int> {
    set i | 0 <= i < |h| && from <= h[i].at <= from + WINDOW
  }

  lemma WindowBounded(h: History, clock: Instant, from: Instant)
    requires InOrder(h, clock) && Throttled(h)
    ensures |Window(h, from)| <= CAPACITY
  {
    var w := Window(h, from);
    if exists i :: i in w {
      var last := Latest(w);
      var leading := Leading(h, last);
      assert w <= leading;
      assert leading == w + (leading - w);
    } else {
      assert w == {};
    }
  }

  lemma {:induction false} Latest(s: set<int>) returns (m: int)
    requires exists x :: x in s
    ensures m in s && forall x :: x in s ==> x <= m
    decreases |s|
  {
    var k :| k in s;
    if exists y :: y in s && y != k {
      var y :| y in s && y != k;
      assert y in s - {k};
      var n := Latest(s - {k});
      m := if n > k then n else k;
      assert forall x :: x in s && x != k ==> x in s - {k};
    } else {
      m := k;
    }
  }

  /**
   From an empty cache: same answers as the full history, a nonce is accepted again only after more than ten
   minutes, no ten minutes hold more than ten thousand acceptances, and the purged cache is the recent history.
   */
  lemma NonceSafety(calls: seq<Call>, clock: Instant, from: Instant, now: Instant)
    requires Ordered(calls, clock) && ClockEnd(clock, calls) <= now
    ensures CacheAnswers(map[], calls) == HistoryAnswers([], calls)
    ensures var h := HistoryEnd([], calls);
            && Spaced(h)
            && |Window(h, from)| <= CAPACITY
            && (forall n :: n in Purged(CacheEnd(map[], calls), now) <==> UsedRecently(h, n, now))
  {
    CacheRefinesHistory(map[], [], clock, calls);
    WindowBounded(HistoryEnd([], calls), ClockEnd(clock, calls), from);
    PurgedIsRecent(CacheEnd(map[], calls), HistoryEnd([], calls), ClockEnd(clock, calls), now);
  }

  // ------------------------------------------------------- clocks that go back

  /** The call reaches the cache, and so purges it. */
  predicate Vetted(c: Call) {
    !Unsigned(c) && !Forged(c)
  }

  /** No call that purges reads a clock more than ten minutes past `at`. */
  ghost predicate NeverLate(calls: seq<Call>, at: Instant) {
    forall i :: 0 <= i < |calls| && Vetted(calls[i]) ==> calls[i].now - at <= WINDOW
  }

  ghost predicate NotAccepted(cache: Cache, calls: seq<Call>, nonce: string)
    decreases |calls|
  {
    calls != [] ==>
      && !(CacheAnswer(cache, calls[0]) == Accepted && Nonce(calls[0]) == nonce)
      && NotAccepted(CacheAfter(cache, calls[0]), calls[1..], nonce)
  }

  lemma {:induction false} StaysForgotten(cache: Cache, nonce: string, calls: seq<Call>)
    requires nonce !in cache && NotAccepted(cache, calls, nonce)
    ensures nonce !in CacheEnd(cache, calls)
    decreases |calls|
  {
    if calls != [] {
      StaysForgotten(CacheAfter(cache, calls[0]), nonce, calls[1..]);
    }
  }

  lemma {:induction false} HeldExactly(cache: Cache, nonce: string, calls: seq<Call>)
    requires nonce in cache && NotAccepted(cache, calls, nonce)
    ensures nonce in CacheEnd(cache, calls) <==> NeverLate(calls, cache[nonce])
    ensures nonce in CacheEnd(cache, calls) ==> CacheEnd(cache, calls)[nonce] == cache[nonce]
    decreases |calls|
  {
    if calls != [] {
      var next, rest := CacheAfter(cache, calls[0]), calls[1..];
      assert calls == [calls[0]] + rest;
      if nonce in next {
        HeldExactly(next, nonce, rest);
        assert NeverLate(calls, cache[nonce]) <==> NeverLate(rest, cache[nonce]);
      } else {
        StaysForgotten(next, nonce, rest);
      }
    }
  }

  /**
   Whatever the clock does: a nonce that was accepted and not accepted again since is refused as a replay exactly
   when no call that purged, this one included, has read a clock more than ten minutes past its acceptance.
   */
  lemma ReplayRefusedExactly(cache: Cache, calls: seq<Call>, c: Call)
    requires Vetted(c) && Nonce(c) in cache && NotAccepted(cache, calls, Nonce(c))
    ensures CacheAnswer(CacheEnd(cache, calls), c) == ReplayDetected <==> NeverLate(calls + [c], cache[Nonce(c)])
  {
    var at, all := cache[Nonce(c)], calls + [c];
    HeldExactly(cache, Nonce(c), calls);
    assert NeverLate(all, at) <==> NeverLate(calls, at) && c.now - at <= WINDOW by {
      assert all[|calls|] == c;
      assert NeverLate(all, at) ==> forall i :: 0 <= i < |calls| ==> all[i] == calls[i];
    }
  }

  function Signed(nonce: string, now: Instant): Call {
    Call("k", nonce, "s", true, "s", now)
  }

  /** A wall clock set back lets a nonce be accepted twice, one nanosecond apart. */
  lemma ClockSetBack()
    ensures var late := WINDOW + 1;
            var calls := [Signed("a", 0), Signed("b", late), Signed("a", 1)];
            CacheAnswers(map[], calls) == [Accepted, Accepted, Accepted]
  {
    var late := WINDOW + 1;
    var a, b, again := Signed("a", 0), Signed("b", late), Signed("a", 1);
    assert "a"[0] != "b"[0];
    assert CacheAfter(map[], a) == map["a" := 0];
    assert Purged(map["a" := 0], late) == map[];
    assert CacheAfter(map["a" := 0], b) == map["b" := late];
    var calls := [a, b, again];
    assert calls[1..] == [b, again] && calls[1..][1..] == [again];
    assert Purged(map["b" := late], 1) == map["b" := late];
    assert CacheAnswers(map["b" := late], [again]) == [Accepted];
    assert CacheAnswers(map["a" := 0], [b, again]) == [Accepted, Accepted];
  }

  // ------------------------------------------------------------ each answer

  /** The request carries a nonce and the signature of its body under a configured secret. */
  predicate Authentic(c: Call) {
    && c.secret != "" && c.readable
    && Trim(c.nonceHeader) != ""
    && Trim(c.signatureHeader) != "" && Trim(c.signatureHeader) == c.expected
  }

  /**
   After any calls on a clock that does not go back, a call is accepted exactly when it is authentic, its nonce was
   not accepted in the last ten minutes, and fewer than ten thousand were; and which refusal it gets otherwise.
   */
  lemma AnswerExact(calls: seq<Call>, clock: Instant, c: Call)
    requires Ordered(calls, clock) && ClockEnd(clock, calls) <= c.now
    ensures var h, answer := HistoryEnd([], calls), CacheAnswer(CacheEnd(map[], calls), c);
            var nonce := Trim(c.nonceHeader);
            var used := exists i :: 0 <= i < |h| && h[i].nonce == nonce && c.now - h[i].at <= 600_000_000_000;
            var full := |set i | 0 <= i < |h| && c.now - h[i].at <= 600_000_000_000| >= 10_000;
            var missing := c.secret == "" || Trim(c.nonceHeader) == "" || Trim(c.signatureHeader) == "" || !c.readable;
            && (answer == Accepted <==> Authentic(c) && !used && !full)
            && (answer == ReplayDetected <==> Authentic(c) && used)
            && (answer == CacheFull <==> Authentic(c) && !used && full)
            && (answer == SignatureRequired <==> missing)
            && (answer == SignatureInvalid <==> !missing && !Authentic(c))
  {
    CacheRefinesHistory(map[], [], clock, calls);
    var h := HistoryEnd([], calls);
    SameDecision(CacheEnd(map[], calls), h, ClockEnd(clock, calls), Nonce(c), c.now);
    assert Recent(h, c.now) == set i | 0 <= i < |h| && c.now - h[i].at <= 600_000_000_000;
  }
}
