/**
 The delivery table as the polling worker sees it. The worker always takes the
 first due delivery by next attempt (or creation) time and id, and polls again at
 once after an error. A delivery that cannot be loaded gets no outcome and stays
 where it is in that order; this module says exactly which deliveries it starves.
 */
module DeliveryQueue {
  import opened Wrappers
  import opened Deliveries
  import opened DeadLetters

  /**
   A row; `loads` says whether it loads for dispatch, that is, whether its endpoint
   exists for the same tenant and project and its payload decodes.
   */
  datatype Item = Item(created: Instant, delivery: Delivery, loads: bool)

  /** Rows by id. */
  type Queue = seq<Item>

  function SortKey(x: Item): Instant {
    if x.delivery.nextAttemptAt.Some? then x.delivery.nextAttemptAt.value else x.created
  }

  predicate Sooner(q: Queue, i: nat, j: nat)
    requires i < |q| && j < |q|
  {
    SortKey(q[i]) < SortKey(q[j]) || (SortKey(q[i]) == SortKey(q[j]) && i < j)
  }

  predicate IsDue(q: Queue, i: nat, now: Instant)
    requires i < |q|
  {
    Due(q[i].delivery, now)
  }

  /** The first due row among the first `n`. */
  function SelectAmong(q: Queue, n: nat, now: Instant): (r: Option<nat>)
    requires n <= |q|
    ensures r.Some? ==> r.value < n
  {
    if n == 0 then None
    else
      var best := SelectAmong(q, n - 1, now);
      if !IsDue(q, n - 1, now) then best
      else if best.None? || Sooner(q, n - 1, best.value) then Some(n - 1)
      else best
  }

  function NextDispatchId(q: Queue, now: Instant): (r: Option<nat>)
    ensures r.Some? ==> r.value < |q|
  {
    SelectAmong(q, |q|, now)
  }

  ghost predicate FirstAmong(q: Queue, n: nat, now: Instant, i: nat)
    requires n <= |q|
  {
    i < n && IsDue(q, i, now) && forall j :: 0 <= j < n && j != i && IsDue(q, j, now) ==> Sooner(q, i, j)
  }

  lemma {:induction false} SelectMeans(q: Queue, n: nat, now: Instant)
    requires n <= |q|
    ensures SelectAmong(q, n, now).Some? ==> FirstAmong(q, n, now, SelectAmong(q, n, now).value)
    ensures SelectAmong(q, n, now).None? ==> forall j :: 0 <= j < n ==> !IsDue(q, j, now)
  {
    if n > 0 {
      SelectMeans(q, n - 1, now);
    }
  }

  /** A row is selected exactly when it is due and sooner than every other due row. */
  lemma SelectExact(q: Queue, now: Instant, i: nat)
    ensures NextDispatchId(q, now) == Some(i) <==> FirstAmong(q, |q|, now, i)
  {
    SelectMeans(q, |q|, now);
    if FirstAmong(q, |q|, now, i) {
      assert FirstAmong(q, |q|, now, SelectAmong(q, |q|, now).value);
    }
  }

  // -------------------------------------------------------------------- polling

  /** What one poll meets: when it selects, how the attempt goes, when the outcome is saved. */
  datatype Poll = Poll(now: Instant, attempt: Attempt, saved: Instant)

  function Attempted(x: Item, p: Poll, config: Config): Item {
    if x.loads then x.(delivery := Outcome(x.delivery.attempts, config, p.attempt, p.saved)) else x
  }

  function AfterPoll(q: Queue, p: Poll, config: Config): (r: Queue)
    ensures |r| == |q|
  {
    var next := NextDispatchId(q, p.now);
    if next.None? then q else q[next.value := Attempted(q[next.value], p, config)]
  }

  function AfterPolls(q: Queue, polls: seq<Poll>, config: Config): (r: Queue)
    ensures |r| == |q|
    decreases |polls|
  {
    if polls == [] then q else AfterPolls(AfterPoll(q, polls[0], config), polls[1..], config)
  }

  predicate Waiting(x: Item) {
    x.delivery.status == Pending || x.delivery.status == Failed
  }

  /** The row, or a waiting row before it, does not load. */
  predicate Starved(q: Queue, d: nat)
    requires d < |q|
  {
    exists b :: 0 <= b < |q| && !q[b].loads && Waiting(q[b]) && (b == d || Sooner(q, b, d))
  }

  /** The row waits and its turn has come at every poll. */
  predicate Overdue(q: Queue, d: nat, polls: seq<Poll>)
    requires d < |q|
  {
    Waiting(q[d]) && forall i :: 0 <= i < |polls| ==> SortKey(q[d]) <= polls[i].now
  }

  lemma {:induction false} AttemptsKept(q: Queue, d: nat, polls: seq<Poll>, config: Config)
    requires d < |q|
    ensures q[d].delivery.attempts <= AfterPolls(q, polls, config)[d].delivery.attempts
    decreases |polls|
  {
    if polls != [] {
      AttemptsKept(AfterPoll(q, polls[0], config), d, polls[1..], config);
    }
  }

  // ------------------------------------------------------------------ starvation

  /** With a sooner row that never loads and is due, the selection never reaches `d`. */
  lemma {:induction false} StarvedForEver(q: Queue, b: nat, d: nat, polls: seq<Poll>, config: Config)
    requires b < |q| && d < |q| && !q[b].loads && Waiting(q[b]) && (b == d || Sooner(q, b, d))
    requires forall i :: 0 <= i < |polls| ==> SortKey(q[d]) <= polls[i].now
    ensures AfterPolls(q, polls, config)[d] == q[d]
    decreases |polls|
  {
    if polls != [] {
      var next := AfterPoll(q, polls[0], config);
      SelectMeans(q, |q|, polls[0].now);
      assert IsDue(q, b, polls[0].now);
      assert next[b] == q[b] && next[d] == q[d];
      StarvedForEver(next, b, d, polls[1..], config);
    }
  }

  // --------------------------------------------------------------------- progress

  /** Outcomes a row can still get. */
  function Remaining(x: Item, config: Config): nat {
    if Waiting(x) then Budget(x.delivery.attempts, config) else 0
  }

  function Work(q: Queue, config: Config): nat {
    if q == [] then 0 else Work(q[..|q| - 1], config) + Remaining(q[|q| - 1], config)
  }

  lemma AttemptWorks(x: Item, p: Poll, config: Config)
    requires x.loads && Waiting(x)
    ensures Remaining(Attempted(x, p, config), config) < Remaining(x, config)
  {}

  lemma {:induction false} WorkFalls(q: Queue, i: nat, x: Item, config: Config)
    requires i < |q| && Remaining(x, config) < Remaining(q[i], config)
    ensures Work(q[i := x], config) < Work(q, config)
  {
    var shorter, after := q[..|q| - 1], q[i := x];
    if i == |q| - 1 {
      assert after[..|q| - 1] == shorter;
    } else {
      assert after[..|q| - 1] == shorter[i := x];
      WorkFalls(shorter, i, x, config);
    }
  }

  lemma {:induction false} WorkCovers(q: Queue, i: nat, config: Config)
    requires i < |q|
    ensures Remaining(q[i], config) <= Work(q, config)
  {
    if i < |q| - 1 {
      WorkCovers(q[..|q| - 1], i, config);
    }
  }

  /** A poll attempts the row itself or uses up work on one before it, and starves no new row. */
  lemma PollAdvances(q: Queue, d: nat, p: Poll, config: Config)
    requires d < |q| && Overdue(q, d, [p]) && !Starved(q, d)
    ensures var next := AfterPoll(q, p, config);
            || next[d].delivery.attempts > q[d].delivery.attempts
            || (next[d] == q[d] && Work(next, config) < Work(q, config) && !Starved(next, d))
  {
    assert SortKey(q[d]) <= [p][0].now;
    assert IsDue(q, d, p.now);
    SelectMeans(q, |q|, p.now);
    var i := NextDispatchId(q, p.now).value;
    assert i == d || Sooner(q, i, d);
    if i != d {
      var next := AfterPoll(q, p, config);
      AttemptWorks(q[i], p, config);
      WorkFalls(q, i, Attempted(q[i], p, config), config);
      forall b | 0 <= b < |q| && !next[b].loads && Waiting(next[b]) ensures b != d && !Sooner(next, b, d) {
        assert next[b] == q[b];
      }
    }
  }

  lemma {:induction false} ReachedInTime(q: Queue, d: nat, polls: seq<Poll>, config: Config)
    requires d < |q| && Overdue(q, d, polls) && !Starved(q, d) && |polls| >= Work(q, config)
    ensures AfterPolls(q, polls, config)[d].delivery.attempts > q[d].delivery.attempts
    decreases |polls|
  {
    WorkCovers(q, d, config);
    var next := AfterPoll(q, polls[0], config);
    assert Overdue(q, d, [polls[0]]);
    PollAdvances(q, d, polls[0], config);
    if next[d].delivery.attempts > q[d].delivery.attempts {
      AttemptsKept(next, d, polls[1..], config);
    } else {
      ReachedInTime(next, d, polls[1..], config);
    }
  }

  /**
   A waiting delivery whose turn has come is attempted within the work outstanding, whatever the attempts meet,
   exactly when it loads and every waiting delivery before it loads; otherwise it is never touched.
   */
  lemma AttemptedExactly(q: Queue, d: nat, polls: seq<Poll>, config: Config)
    requires d < |q| && Overdue(q, d, polls)
    ensures Starved(q, d) ==> AfterPolls(q, polls, config)[d] == q[d]
    ensures |polls| >= Work(q, config) ==>
              (AfterPolls(q, polls, config)[d].delivery.attempts > q[d].delivery.attempts <==> !Starved(q, d))
  {
    if Starved(q, d) {
      var b :| 0 <= b < |q| && !q[b].loads && Waiting(q[b]) && (b == d || Sooner(q, b, d));
      StarvedForEver(q, b, d, polls, config);
    } else if |polls| >= Work(q, config) {
      ReachedInTime(q, d, polls, config);
    }
  }

  /** Behind one delivery that does not load, a good one is never attempted, however long the worker polls. */
  lemma GoodDeliveryStarves(polls: seq<Poll>, config: Config)
    requires forall i :: 0 <= i < |polls| ==> polls[i].now >= 1
    ensures var q := [Item(0, CREATED, false), Item(1, CREATED, true)];
            AfterPolls(q, polls, config)[1] == q[1]
  {
    var q := [Item(0, CREATED, false), Item(1, CREATED, true)];
    StarvedForEver(q, 0, 1, polls, config);
  }
}
