/**
 Outbound deliveries: attempt counting, backoff and dead letters, with any number
 of consumers. A consumer picks a due delivery, loads it, talks to the endpoint
 and saves an outcome; other consumers and replays act between those steps. The
 save is guarded by the attempt count the consumer loaded.
 */
module Deliveries {
  import opened Wrappers

  type Instant = int

  datatype Status = Pending | Failed | Sent | DeadLetter

  datatype Reason =
    | EndpointInactive | UnsafeDestination | PayloadNotEncoded | SecretNotDecrypted
    | InvalidDestination | RequestFailed | NonSuccessStatus

  datatype Delivery = Delivery(
    status: Status,
    attempts: nat,
    responseStatus: Option<int>,
    lastError: Option<Reason>,
    nextAttemptAt: Option<Instant>,
    sentAt: Option<Instant>)

  datatype Config = Config(maxAttempts: int, backoff: seq<int>)

  /** What one attempt meets on its way; `response` is `None` when the request itself fails. */
  datatype Attempt = Attempt(active: bool, safe: bool, encodes: bool, decrypts: bool, builds: bool,
                             response: Option<int>)

  const MINUTE: int := 60_000_000_000

  function Normalized(c: Config): (r: Config)
    ensures r.maxAttempts >= 1 && r.backoff != []
    ensures r.maxAttempts == (if c.maxAttempts >= 1 then c.maxAttempts else 3)
    ensures c.backoff != [] ==> r.backoff == c.backoff
    ensures c.backoff == [] ==> r.backoff == [60_000_000_000, 300_000_000_000, 900_000_000_000]
  {
    Config(if c.maxAttempts < 1 then 3 else c.maxAttempts,
           if c.backoff == [] then [MINUTE, 5 * MINUTE, 15 * MINUTE] else c.backoff)
  }

  const CREATED: Delivery := Delivery(Pending, 0, None, None, None, None)

  // ---------------------------------------------------------- one attempt

  /** Why the attempt failed, and with which response, if it failed. */
  function Failing(a: Attempt): Option<Reason> {
    if !a.active then Some(EndpointInactive)
    else if !a.safe then Some(UnsafeDestination)
    else if !a.encodes then Some(PayloadNotEncoded)
    else if !a.decrypts then Some(SecretNotDecrypted)
    else if !a.builds then Some(InvalidDestination)
    else if a.response.None? then Some(RequestFailed)
    else if a.response.value < 200 || a.response.value >= 300 then Some(NonSuccessStatus)
    else None
  }

  function Min(a: int, b: int): int {
    if a <= b then a else b
  }

  function Outcome(attempts: nat, config: Config, a: Attempt, now: Instant): Delivery {
    var c, reason := Normalized(config), Failing(a);
    var response := if reason.None? || reason == Some(NonSuccessStatus) then a.response else None;
    if reason.None? then Delivery(Sent, attempts + 1, response, None, None, Some(now))
    else if attempts + 1 >= c.maxAttempts then Delivery(DeadLetter, attempts + 1, response, reason, None, None)
    else Delivery(Failed, attempts + 1, response, reason, Some(now + c.backoff[Min(attempts, |c.backoff| - 1)]), None)
  }

  /** The dispatcher's own path from a loaded delivery to the outcome it will save. */
  method Dispatch(attempts: nat, config: Config, a: Attempt, now: Instant) returns (outcome: Delivery)
    ensures outcome == Outcome(attempts, config, a, now)
  {
    var c := Normalized(config);
    if !a.active {
      outcome := Fail(attempts, c, None, EndpointInactive, now);
    } else if !a.safe {
      outcome := Fail(attempts, c, None, UnsafeDestination, now);
    } else if !a.encodes {
      outcome := Fail(attempts, c, None, PayloadNotEncoded, now);
    } else if !a.decrypts {
      outcome := Fail(attempts, c, None, SecretNotDecrypted, now);
    } else if !a.builds {
      outcome := Fail(attempts, c, None, InvalidDestination, now);
    } else if a.response.None? {
      outcome := Fail(attempts, c, None, RequestFailed, now);
    } else if 200 <= a.response.value < 300 {
      outcome := Delivery(Sent, attempts + 1, a.response, None, None, Some(now));
    } else {
      outcome := Fail(attempts, c, a.response, NonSuccessStatus, now);
    }
  }

  method Fail(attempts: nat, config: Config, response: Option<int>, reason: Reason, now: Instant)
    returns (outcome: Delivery)
    ensures outcome.attempts == attempts + 1 && outcome.responseStatus == response
    ensures outcome.lastError == Some(reason) && outcome.sentAt == None
    ensures outcome.status == if attempts + 1 >= Normalized(config).maxAttempts then DeadLetter else Failed
    ensures outcome.nextAttemptAt ==
              var backoff := Normalized(config).backoff;
              if outcome.status == DeadLetter then None else Some(now + backoff[Min(attempts, |backoff| - 1)])
  {
    var c := Normalized(config);
    var tries := attempts + 1;
    var status := Failed;
    var next := None;
    if tries >= c.maxAttempts {
      status := DeadLetter;
    } else {
      var index := tries - 1;
      if index >= |c.backoff| {
        index := |c.backoff| - 1;
      }
      next := Some(now + c.backoff[index]);
    }
    outcome := Delivery(status, tries, response, Some(reason), next, None);
  }

  // -------------------------------------------------------------- the row

  predicate Due(d: Delivery, now: Instant) {
    d.status == Pending || (d.status == Failed && (d.nextAttemptAt.None? || d.nextAttemptAt.value <= now))
  }

  class Row {
    var delivery: Delivery

    constructor ()
      ensures delivery == CREATED
    {
      delivery := CREATED;
    }

    /** Saves unless another consumer has finalised this attempt or the delivery is sent. */
    method Save(loaded: nat, outcome: Delivery) returns (saved: bool)
      modifies this
      ensures saved <==> old(delivery).attempts == loaded && old(delivery).status != Sent
      ensures delivery == if saved then outcome else old(delivery)
    {
      if delivery.attempts != loaded || delivery.status == Sent {
        return false;
      }
      delivery := outcome;
      return true;
    }

    method Replay()
      modifies this
      ensures delivery == old(delivery).(status := Pending, nextAttemptAt := None)
    {
      delivery := delivery.(status := Pending).(nextAttemptAt := None);
    }
  }

  // ------------------------------------------------------------- consumers

  /** How far a consumer is: it has picked the delivery, or has loaded it as it then was. */
  datatype Phase = Picked | Loaded(attempts: nat, status: Status)

  /** The row, its consumers, and every outcome committed so far. */
  datatype State = State(row: Delivery, consumers: map<nat, Phase>, log: seq<Delivery>)

  datatype Action =
    | Pick(consumer: nat, now: Instant)
    | Load(consumer: nat)
    | Save(consumer: nat, attempt: Attempt, now: Instant)
    | Abandon(consumer: nat)
    | Replay

  predicate Commits(s: State, a: Action) {
    && a.Save?
    && a.consumer in s.consumers
    && s.consumers[a.consumer].Loaded?
    && s.consumers[a.consumer].attempts == s.row.attempts
    && s.row.status != Sent
  }

  function Step(s: State, a: Action, config: Config): State {
    match a
    case Pick(c, now) =>
      if c !in s.consumers && Due(s.row, now) then s.(consumers := s.consumers[c := Picked]) else s
    case Load(c) =>
      if c !in s.consumers || !s.consumers[c].Picked? then s
      else if s.row.status == Sent then s.(consumers := s.consumers - {c})
      else s.(consumers := s.consumers[c := Loaded(s.row.attempts, s.row.status)])
    case Save(c, attempt, now) =>
      if c !in s.consumers || !s.consumers[c].Loaded? then s
      else if !Commits(s, a) then s.(consumers := s.consumers - {c})
      else
        var outcome := Outcome(s.consumers[c].attempts, config, attempt, now);
        State(outcome, s.consumers - {c}, s.log + [outcome])
    case Abandon(c) => s.(consumers := s.consumers - {c})
    case Replay => s.(row := s.row.(status := Pending, nextAttemptAt := None))
  }

  function Run(s: State, actions: seq<Action>, config: Config): State
    decreases |actions|
  {
    if actions == [] then s else Run(Step(s, actions[0], config), actions[1..], config)
  }

  function Start(row: Delivery): State {
    State(row, map[], [])
  }

  // ------------------------------------------------------------- invariants

  /** What the columns of a delivery say about each other. */
  predicate WellFormed(d: Delivery, config: Config) {
    match d.status
    case Pending => d.nextAttemptAt.None?
    case Failed => 1 <= d.attempts < Normalized(config).maxAttempts && d.nextAttemptAt.Some? && d.lastError.Some?
    case Sent => d.attempts >= 1 && d.nextAttemptAt.None? && d.sentAt.Some? && d.lastError.None?
    case DeadLetter => d.attempts >= Normalized(config).maxAttempts && d.nextAttemptAt.None? && d.lastError.Some?
  }

  /** Attempts are counted one by one: the log numbers its outcomes consecutively from `base`. */
  ghost predicate Counted(s: State, base: nat) {
    && s.row.attempts == base + |s.log|
    && (forall i :: 0 <= i < |s.log| ==> s.log[i].attempts == base + i + 1)
  }

  /** A consumer never knows a later attempt than the row, and knows of a dead letter it could overwrite. */
  ghost predicate Informed(s: State) {
    forall c :: c in s.consumers && s.consumers[c].Loaded? ==>
      && s.consumers[c].attempts <= s.row.attempts
      && (s.consumers[c].attempts == s.row.attempts && s.row.status == DeadLetter ==>
            s.consumers[c].status == DeadLetter)
  }

  lemma StepInforms(s: State, a: Action, config: Config)
    requires Informed(s)
    ensures Informed(Step(s, a, config))
  {}

  lemma StepKeeps(s: State, a: Action, config: Config, base: nat)
    requires Counted(s, base) && WellFormed(s.row, config) && Informed(s)
    ensures var t := Step(s, a, config);
            Counted(t, base) && WellFormed(t.row, config) && Informed(t) && s.row.attempts <= t.row.attempts
  {
    StepInforms(s, a, config);
  }

  /**
   Over every interleaving: the columns agree, attempts never fall even across replays, and every attempt number
   gets exactly one committed outcome, so two consumers never both finalise the same attempt.
   */
  lemma {:induction false} EveryRun(s: State, actions: seq<Action>, config: Config, base: nat)
    requires Counted(s, base) && WellFormed(s.row, config) && Informed(s)
    ensures var t := Run(s, actions, config);
            && Counted(t, base) && WellFormed(t.row, config) && Informed(t)
            && s.row.attempts <= t.row.attempts
            && s.log <= t.log
    decreases |actions|
  {
    if actions != [] {
      StepKeeps(s, actions[0], config, base);
      EveryRun(Step(s, actions[0], config), actions[1..], config, base);
    }
  }

  lemma FromCreation(actions: seq<Action>, config: Config)
    ensures var t := Run(Start(CREATED), actions, config);
            && t.row.attempts == |t.log|
            && (forall i :: 0 <= i < |t.log| ==> t.log[i].attempts == i + 1)
            && WellFormed(t.row, config)
  {
    EveryRun(Start(CREATED), actions, config, 0);
  }

  // ------------------------------------------------------- what a save records

  /** Every stage of the attempt passed and the endpoint answered with success. */
  predicate Succeeds(a: Attempt) {
    a.active && a.safe && a.encodes && a.decrypts && a.builds && a.response.Some? && 200 <= a.response.value <= 299
  }

  /** The reason names the first stage that failed. */
  predicate Blames(reason: Reason, a: Attempt) {
    match reason
    case EndpointInactive => !a.active
    case UnsafeDestination => a.active && !a.safe
    case PayloadNotEncoded => a.active && a.safe && !a.encodes
    case SecretNotDecrypted => a.active && a.safe && a.encodes && !a.decrypts
    case InvalidDestination => a.active && a.safe && a.encodes && a.decrypts && !a.builds
    case RequestFailed => a.active && a.safe && a.encodes && a.decrypts && a.builds && a.response.None?
    case NonSuccessStatus =>
      && a.active && a.safe && a.encodes && a.decrypts && a.builds && a.response.Some?
      && !(200 <= a.response.value <= 299)
  }

  /**
   A committing save records the next attempt: sent exactly when every stage passed with a response of 200 to 299,
   otherwise the stage to blame, and a retry after the backoff of that attempt unless it was the last one.
   */
  lemma SaveRecords(s: State, a: Action, config: Config)
    requires Commits(s, a)
    ensures var d := Step(s, a, config).row;
            var n := s.row.attempts + 1;
            && d.attempts == n
            && (d.status == Sent <==> Succeeds(a.attempt))
            && (d.status == Sent ==> d.lastError.None? && d.sentAt == Some(a.now) && d.nextAttemptAt.None?)
            && (d.status != Sent ==> d.sentAt.None? && d.lastError.Some? && Blames(d.lastError.value, a.attempt))
            && (d.status == DeadLetter <==> !Succeeds(a.attempt) && n >= Normalized(config).maxAttempts)
            && (d.status == Failed <==> !Succeeds(a.attempt) && n < Normalized(config).maxAttempts)
            && (d.status == Sent || d.lastError == Some(NonSuccessStatus) ==> d.responseStatus == a.attempt.response)
            && (d.status != Sent && d.lastError != Some(NonSuccessStatus) ==> d.responseStatus.None?)
  {}

  /** The wait before the next attempt is the backoff of this one, and the last backoff from then on. */
  lemma RetryWaits(s: State, a: Action, config: Config)
    requires Commits(s, a)
    ensures var d, waits := Step(s, a, config).row, Normalized(config).backoff;
            && (d.nextAttemptAt.Some? <==> d.status == Failed)
            && (d.status == Failed ==>
                  && (s.row.attempts < |waits| ==> d.nextAttemptAt == Some(a.now + waits[s.row.attempts]))
                  && (s.row.attempts >= |waits| ==> d.nextAttemptAt == Some(a.now + waits[|waits| - 1])))
  {}

  /** A consumer may take a delivery exactly when it is pending, or failed with its wait over. */
  lemma PickedExactly(s: State, c: nat, now: Instant, config: Config)
    requires c !in s.consumers
    ensures c in Step(s, Pick(c, now), config).consumers <==>
              || s.row.status == Pending
              || (s.row.status == Failed && (s.row.nextAttemptAt.None? || s.row.nextAttemptAt.value <= now))
  {}

  /** A replay makes any delivery pending and due at once, and keeps its history. */
  lemma ReplayReturns(s: State, config: Config, now: Instant)
    ensures var d := Step(s, Replay, config).row;
            && d.status == Pending && d.nextAttemptAt.None? && Due(d, now)
            && (d.attempts, d.responseStatus, d.lastError, d.sentAt) ==
               (s.row.attempts, s.row.responseStatus, s.row.lastError, s.row.sentAt)
  {}
}
