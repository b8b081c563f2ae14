/**
 How many outcomes a delivery gets and when a dead letter is final. The
 dispatcher turns back only from a delivery it finds sent, so a consumer that
 loads a dead letter dispatches it; this module says exactly which runs that
 spoils, and shows that a lone polling worker never does it.
 */
module DeadLetters {
  import opened Wrappers
  import opened Deliveries

  predicate Settled(d: Delivery) {
    d.status == Sent || d.status == DeadLetter
  }

  /** The unguarded case: a consumer that loaded the dead letter saves an outcome over it. */
  predicate Overwrites(s: State, a: Action) {
    && a.Save?
    && s.row.status == DeadLetter
    && a.consumer in s.consumers
    && s.consumers[a.consumer] == Loaded(s.row.attempts, DeadLetter)
  }

  ghost predicate NeverOverwrites(s: State, actions: seq<Action>, config: Config)
    decreases |actions|
  {
    actions == [] ||
    (!Overwrites(s, actions[0]) && NeverOverwrites(Step(s, actions[0], config), actions[1..], config))
  }

  ghost predicate Replayless(actions: seq<Action>) {
    actions != [] ==> !actions[0].Replay? && Replayless(actions[1..])
  }

  /** The most outcomes a pending delivery with so many recorded attempts should get. */
  function Budget(attempts: nat, config: Config): nat {
    var max := Normalized(config).maxAttempts;
    if max - attempts > 1 then max - attempts else 1
  }

  // ----------------------------------------------------------------- histories

  lemma {:induction false} RunInforms(s: State, actions: seq<Action>, config: Config)
    requires Informed(s)
    ensures Informed(Run(s, actions, config))
    decreases |actions|
  {
    if actions != [] {
      StepInforms(s, actions[0], config);
      RunInforms(Step(s, actions[0], config), actions[1..], config);
    }
  }

  /** Outcomes and attempts go up together, whatever the consumers do. */
  lemma {:induction false} RunCounts(s: State, actions: seq<Action>, config: Config)
    ensures var t := Run(s, actions, config);
            t.row.attempts - s.row.attempts == |t.log| - |s.log| >= 0
    decreases |actions|
  {
    if actions != [] {
      RunCounts(Step(s, actions[0], config), actions[1..], config);
    }
  }

  // ----------------------------------------------------------- exactly when final

  lemma DeadLetterStep(s: State, a: Action, config: Config)
    requires Informed(s) && s.row.status == DeadLetter
    ensures Step(s, a, config).log != s.log <==> Overwrites(s, a)
    ensures Step(s, a, config).row != s.row <==> Overwrites(s, a) || a.Replay?
  {
    if Overwrites(s, a) {
      assert |Step(s, a, config).log| == |s.log| + 1;
    }
  }

  /**
   In every reachable state, a dead letter gets another outcome exactly when a consumer that loaded it as a dead
   letter at its current attempt saves, and its row changes exactly then or on a replay.
   */
  lemma DeadLetterOverwritten(row: Delivery, before: seq<Action>, a: Action, config: Config)
    ensures var s := Run(Start(row), before, config);
            s.row.status == DeadLetter ==>
              && (Step(s, a, config).log != s.log <==> Overwrites(s, a))
              && (Step(s, a, config).row != s.row <==> Overwrites(s, a) || a.Replay?)
  {
    var s := Run(Start(row), before, config);
    RunInforms(Start(row), before, config);
    if s.row.status == DeadLetter {
      DeadLetterStep(s, a, config);
    }
  }

  lemma {:induction false} SettledFrom(s: State, actions: seq<Action>, config: Config)
    requires Informed(s) && Settled(s.row) && Replayless(actions)
    ensures Run(s, actions, config).row == s.row <==> NeverOverwrites(s, actions, config)
    decreases |actions|
  {
    if actions != [] {
      var next := Step(s, actions[0], config);
      StepInforms(s, actions[0], config);
      if Overwrites(s, actions[0]) {
        RunCounts(next, actions[1..], config);
      } else {
        if s.row.status == DeadLetter {
          DeadLetterStep(s, actions[0], config);
        }
        SettledFrom(next, actions[1..], config);
      }
    }
  }

  /**
   From any reachable state, a settled delivery stays as it is without replays exactly when no dead letter is
   saved over.
   */
  lemma SettledExact(row: Delivery, before: seq<Action>, actions: seq<Action>, config: Config)
    requires Replayless(actions)
    ensures var s := Run(Start(row), before, config);
            Settled(s.row) ==> (Run(s, actions, config).row == s.row <==> NeverOverwrites(s, actions, config))
  {
    var s := Run(Start(row), before, config);
    RunInforms(Start(row), before, config);
    if Settled(s.row) {
      SettledFrom(s, actions, config);
    }
  }

  // ------------------------------------------------------------ exactly how many

  /** Where a delivery that was pending at `base` attempts can be while nothing has been saved over a dead letter. */
  predicate OnTrack(row: Delivery, base: nat, config: Config) {
    match row.status
    case Pending => row.attempts == base
    case Failed => base < row.attempts < Normalized(config).maxAttempts
    case Sent => base < row.attempts <= base + Budget(base, config)
    case DeadLetter => row.attempts == base + Budget(base, config)
  }

  lemma TrackStep(s: State, a: Action, base: nat, config: Config)
    requires Informed(s) && OnTrack(s.row, base, config) && !a.Replay?
    ensures !Overwrites(s, a) ==> OnTrack(Step(s, a, config).row, base, config)
    ensures Overwrites(s, a) ==> Step(s, a, config).row.attempts > base + Budget(base, config)
  {
    if s.row.status == DeadLetter {
      DeadLetterStep(s, a, config);
    }
  }

  lemma {:induction false} TrackRun(s: State, actions: seq<Action>, base: nat, config: Config)
    requires Informed(s) && OnTrack(s.row, base, config) && Replayless(actions)
    ensures var t := Run(s, actions, config);
            && (NeverOverwrites(s, actions, config) ==> OnTrack(t.row, base, config))
            && (!NeverOverwrites(s, actions, config) ==> t.row.attempts > base + Budget(base, config))
    decreases |actions|
  {
    if actions != [] {
      var next := Step(s, actions[0], config);
      StepInforms(s, actions[0], config);
      TrackStep(s, actions[0], base, config);
      if Overwrites(s, actions[0]) {
        RunCounts(next, actions[1..], config);
      } else {
        TrackRun(next, actions[1..], base, config);
      }
    }
  }

  /**
   From any reachable state in which the delivery is pending with `a` recorded attempts, and until it is replayed,
   it gets at most max(1, maxAttempts - a) outcomes exactly when no dead letter is saved over; having used them
   all, it is settled.
   */
  lemma BoundExact(row: Delivery, before: seq<Action>, actions: seq<Action>, config: Config)
    requires Replayless(actions)
    ensures var s := Run(Start(row), before, config);
            var t := Run(s, actions, config);
            s.row.status == Pending ==>
              && (|t.log| - |s.log| <= Budget(s.row.attempts, config) <==> NeverOverwrites(s, actions, config))
              && (|t.log| - |s.log| == Budget(s.row.attempts, config) ==> Settled(t.row))
  {
    var s := Run(Start(row), before, config);
    RunInforms(Start(row), before, config);
    if s.row.status == Pending {
      TrackRun(s, actions, s.row.attempts, config);
      RunCounts(s, actions, config);
    }
  }

  // ------------------------------------------------------------ the polling worker

  /** One turn of the worker loop: a delivery that does not load is left alone; otherwise the outcome is saved later. */
  datatype Turn = Missed(picked: Instant) | Made(picked: Instant, attempt: Attempt, saved: Instant)

  function Acts(t: Turn): seq<Action> {
    match t
    case Missed(picked) => [Pick(0, picked), Abandon(0)]
    case Made(picked, attempt, saved) => [Pick(0, picked), Load(0), Save(0, attempt, saved)]
  }

  function Loop(turns: seq<Turn>): seq<Action> {
    if turns == [] then [] else Acts(turns[0]) + Loop(turns[1..])
  }

  /** What a turn does to a delivery nobody else is working on. */
  function AfterTurn(s: State, t: Turn, config: Config): State {
    if t.Missed? || !Due(s.row, t.picked) then s
    else
      var outcome := Outcome(s.row.attempts, config, t.attempt, t.saved);
      State(outcome, s.consumers, s.log + [outcome])
  }

  lemma RunTwo(s: State, a: Action, b: Action, rest: seq<Action>, config: Config)
    ensures Run(s, [a, b] + rest, config) == Run(Step(Step(s, a, config), b, config), rest, config)
    ensures NeverOverwrites(s, [a, b] + rest, config) <==>
              && !Overwrites(s, a) && !Overwrites(Step(s, a, config), b)
              && NeverOverwrites(Step(Step(s, a, config), b, config), rest, config)
    ensures Replayless([a, b] + rest) <==> !a.Replay? && !b.Replay? && Replayless(rest)
  {
    var all, tail, next := [a, b] + rest, [b] + rest, Step(s, a, config);
    assert all[1..] == tail && tail[1..] == rest;
    assert Run(s, all, config) == Run(next, tail, config);
    assert NeverOverwrites(s, all, config) <==> !Overwrites(s, a) && NeverOverwrites(next, tail, config);
    assert Replayless(tail) <==> !b.Replay? && Replayless(rest);
  }

  lemma RunOne(s: State, a: Action, rest: seq<Action>, config: Config)
    ensures Run(s, [a] + rest, config) == Run(Step(s, a, config), rest, config)
    ensures NeverOverwrites(s, [a] + rest, config) <==>
              !Overwrites(s, a) && NeverOverwrites(Step(s, a, config), rest, config)
    ensures Replayless([a] + rest) <==> !a.Replay? && Replayless(rest)
  {
    assert ([a] + rest)[1..] == rest;
  }

  lemma TurnEffect(s: State, t: Turn, rest: seq<Action>, config: Config)
    requires s.consumers == map[]
    ensures Run(s, Acts(t) + rest, config) == Run(AfterTurn(s, t, config), rest, config)
    ensures NeverOverwrites(s, Acts(t) + rest, config) <==> NeverOverwrites(AfterTurn(s, t, config), rest, config)
    ensures Replayless(Acts(t) + rest) <==> Replayless(rest)
  {
    var picked := Step(s, Pick(0, t.picked), config);
    assert Due(s.row, t.picked) ==> picked.consumers == map[0 := Picked];
    match t {
      case Missed(_) =>
        RunTwo(s, Pick(0, t.picked), Abandon(0), rest, config);
        assert Step(picked, Abandon(0), config) == s;
      case Made(_, attempt, saved) =>
        var save := Save(0, attempt, saved);
        assert Acts(t) + rest == [Pick(0, t.picked), Load(0)] + ([save] + rest);
        RunTwo(s, Pick(0, t.picked), Load(0), [save] + rest, config);
        RunOne(Step(picked, Load(0), config), save, rest, config);
        MadeEffect(s, t, config);
    }
  }

  lemma MadeEffect(s: State, t: Turn, config: Config)
    requires s.consumers == map[] && t.Made?
    ensures var loaded := Step(Step(s, Pick(0, t.picked), config), Load(0), config);
            && Step(loaded, Save(0, t.attempt, t.saved), config) == AfterTurn(s, t, config)
            && !Overwrites(loaded, Save(0, t.attempt, t.saved))
  {
    var picked := Step(s, Pick(0, t.picked), config);
    var loaded := Step(picked, Load(0), config);
    if Due(s.row, t.picked) {
      assert loaded.consumers == map[0 := Loaded(s.row.attempts, s.row.status)];
      assert loaded.consumers - {0} == map[];
    }
  }

  /** A lone worker never saves over a dead letter, and acts on the delivery only when it is due. */
  lemma {:induction false} LoneWorkerCareful(s: State, turns: seq<Turn>, config: Config)
    requires s.consumers == map[]
    ensures NeverOverwrites(s, Loop(turns), config) && Replayless(Loop(turns))
    ensures turns != [] ==> Run(s, Loop(turns), config) == Run(AfterTurn(s, turns[0], config), Loop(turns[1..]), config)
    ensures turns != [] && AfterTurn(s, turns[0], config) != s ==> Due(s.row, turns[0].picked)
    decreases |turns|
  {
    if turns != [] {
      TurnEffect(s, turns[0], Loop(turns[1..]), config);
      LoneWorkerCareful(AfterTurn(s, turns[0], config), turns[1..], config);
    }
  }

  /** Every turn finds the delivery due and makes the attempt, until it has settled. */
  ghost predicate Timely(s: State, turns: seq<Turn>, config: Config)
    decreases |turns|
  {
    turns != [] ==>
      && (Settled(s.row) || (turns[0].Made? && Due(s.row, turns[0].picked)))
      && Timely(AfterTurn(s, turns[0], config), turns[1..], config)
  }

  lemma {:induction false} TimelySettles(s: State, turns: seq<Turn>, base: nat, config: Config)
    requires s.consumers == map[] && OnTrack(s.row, base, config) && Timely(s, turns, config)
    requires Settled(s.row) || s.row.attempts + |turns| >= base + Budget(base, config)
    ensures Settled(Run(s, Loop(turns), config).row)
    decreases |turns|
  {
    if turns != [] {
      var next := AfterTurn(s, turns[0], config);
      LoneWorkerCareful(s, turns, config);
      TimelySettles(next, turns[1..], base, config);
    }
  }

  /**
   With one worker, at any clocks and with any attempts: a pending delivery gets at most its budget of outcomes,
   is settled once they are used, settles within that many turns made when it is due, and is then left alone.
   */
  lemma LoneWorkerSettles(row: Delivery, turns: seq<Turn>, more: seq<Turn>, config: Config)
    requires row.status == Pending
    ensures var s := Run(Start(row), Loop(turns), config);
            && |s.log| <= Budget(row.attempts, config)
            && (|s.log| == Budget(row.attempts, config) ==> Settled(s.row))
            && (Timely(Start(row), turns, config) && |turns| >= Budget(row.attempts, config) ==> Settled(s.row))
            && (Settled(s.row) ==> Run(s, Loop(more), config).row == s.row)
  {
    var start := Start(row);
    var s := Run(start, Loop(turns), config);
    LoneWorkerCareful(start, turns, config);
    BoundExact(row, [], Loop(turns), config);
    if Timely(start, turns, config) && |turns| >= Budget(row.attempts, config) {
      TimelySettles(start, turns, row.attempts, config);
    }
    LoopEndsIdle(start, turns, config);
    LoneWorkerCareful(s, more, config);
    SettledExact(row, Loop(turns), Loop(more), config);
  }

  lemma {:induction false} LoopEndsIdle(s: State, turns: seq<Turn>, config: Config)
    requires s.consumers == map[]
    ensures Run(s, Loop(turns), config).consumers == map[]
    decreases |turns|
  {
    if turns != [] {
      LoneWorkerCareful(s, turns, config);
      LoopEndsIdle(AfterTurn(s, turns[0], config), turns[1..], config);
    }
  }

  // -------------------------------------------------------- the failing family

  /** Two consumers deliver a letter already given up: picked twice, it is loaded after it died. */
  lemma DeadLetterRevived()
    ensures var config := Config(1, [MINUTE]);
            var broken := Attempt(true, true, true, true, true, None);
            var good := Attempt(true, true, true, true, true, Some(200));
            var died := Run(Start(CREATED), [Pick(1, 0), Pick(2, 0), Load(1), Save(1, broken, 0)], config);
            var revived := Run(died, [Load(2), Save(2, good, 0)], config);
            && died.row.status == DeadLetter
            && revived.row.status == Sent && revived.row.attempts == 2 > Budget(0, config)
  {
    var config := Config(1, [MINUTE]);
    var broken := Attempt(true, true, true, true, true, None);
    var good := Attempt(true, true, true, true, true, Some(200));
    var first := [Pick(1, 0), Pick(2, 0), Load(1), Save(1, broken, 0)];
    var s1 := Step(Start(CREATED), Pick(1, 0), config);
    var s2 := Step(s1, Pick(2, 0), config);
    var s3 := Step(s2, Load(1), config);
    var s4 := Step(s3, Save(1, broken, 0), config);
    assert Run(Start(CREATED), first, config) == s4 by {
      assert first[1..] == [Pick(2, 0), Load(1), Save(1, broken, 0)];
      assert first[1..][1..] == [Load(1), Save(1, broken, 0)];
      assert first[1..][1..][1..] == [Save(1, broken, 0)];
      assert first[1..][1..][1..][1..] == [];
      assert Run(s3, [Save(1, broken, 0)], config) == Run(s4, [], config);
      assert Run(s2, [Load(1), Save(1, broken, 0)], config) == s4;
      assert Run(s1, first[1..], config) == s4;
    }
    var s5 := Step(s4, Load(2), config);
    var s6 := Step(s5, Save(2, good, 0), config);
    assert Run(s4, [Load(2), Save(2, good, 0)], config) == s6 by {
      assert [Load(2), Save(2, good, 0)][1..] == [Save(2, good, 0)] && [Save(2, good, 0)][1..] == [];
      assert Run(s5, [Save(2, good, 0)], config) == Run(s6, [], config);
    }
  }
}
