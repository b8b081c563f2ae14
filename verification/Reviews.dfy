/**
 Asset version reviews: an append-only event table shared by all versions. The
 status of a version is the target of its latest event, or draft.
 */
module Reviews {
  import opened Wrappers

  /** `Other` stands for any text a request may carry that is not a review status. */
  datatype Status = Draft | InReview | Approved | Deprecated | Other(text: string)

  datatype Event = Event(version: int, from: Status, to: Status, actor: int)

  /** Versions by id, with their author when one is recorded, and the event table in id order. */
  datatype Table = Table(authors: map<int, Option<int>>, events: seq<Event>)

  datatype Request = Request(actor: int, version: int, to: Status)

  datatype Refusal = VersionMissing | NotAllowed(from: Status, to: Status) | OwnVersion

  function Allowed(from: Status): seq<Status> {
    match from
    case Draft => [InReview]
    case InReview => [Approved, Deprecated]
    case Approved => [Deprecated]
    case Deprecated => []
    case Other(_) => []
  }

  // ------------------------------------------------------------ the table

  /** The events of one version, in order. */
  function Log(events: seq<Event>, version: int): seq<Event> {
    if events == [] then []
    else
      var before, last := Log(events[..|events| - 1], version), events[|events| - 1];
      if last.version == version then before + [last] else before
  }

  function StatusOf(log: seq<Event>): Status {
    if log == [] then Draft else log[|log| - 1].to
  }

  function Refused(t: Table, r: Request): Option<Refusal> {
    if r.version !in t.authors then Some(VersionMissing)
    else
      var from := StatusOf(Log(t.events, r.version));
      if r.to !in Allowed(from) then Some(NotAllowed(from, r.to))
      else if r.to == Approved && t.authors[r.version] == Some(r.actor) then Some(OwnVersion)
      else None
  }

  function Transitioned(t: Table, r: Request): Table {
    if Refused(t, r).Some? then t
    else t.(events := t.events + [Event(r.version, StatusOf(Log(t.events, r.version)), r.to, r.actor)])
  }

  function Run(t: Table, requests: seq<Request>): Table
    decreases |requests|
  {
    if requests == [] then t else Run(Transitioned(t, requests[0]), requests[1..])
  }

  class ReviewTable {
    var authors: map<int, Option<int>>
    var events: seq<Event>

    constructor (authors: map<int, Option<int>>)
      ensures Value() == Table(authors, [])
    {
      this.authors, this.events := authors, [];
    }

    function Value(): Table
      reads this
    {
      Table(authors, events)
    }

    /** `ORDER BY id DESC LIMIT 1` over the events of the version. */
    method Latest(version: int) returns (status: Status)
      ensures status == StatusOf(Log(events, version))
    {
      var k := |events|;
      assert events[..k] == events;
      while k > 0
        invariant 0 <= k <= |events|
        invariant Log(events, version) == Log(events[..k], version)
      {
        assert events[..k][..k - 1] == events[..k - 1];
        if events[k - 1].version == version {
          return events[k - 1].to;
        }
        k := k - 1;
      }
      return Draft;
    }

    method Transition(r: Request) returns (refusal: Option<Refusal>)
      modifies this
      ensures refusal == Refused(old(Value()), r)
      ensures Value() == Transitioned(old(Value()), r)
    {
      if r.version !in authors {
        return Some(VersionMissing);
      }
      var from := Latest(r.version);
      var allowed := Allowed(from);
      var valid := false;
      for i := 0 to |allowed|
        invariant valid <==> r.to in allowed[..i]
      {
        if allowed[i] == r.to {
          valid := true;
        }
      }
      if !valid {
        return Some(NotAllowed(from, r.to));
      }
      if r.to == Approved && authors[r.version].Some? && authors[r.version].value == r.actor {
        return Some(OwnVersion);
      }
      events := events + [Event(r.version, from, r.to, r.actor)];
      return None;
    }
  }

  // --------------------------------------------------------- what logs look like

  function Targets(log: seq<Event>): seq<Status> {
    seq(|log|, i requires 0 <= i < |log| => log[i].to)
  }

  /** The only courses a review can take. */
  predicate Course(targets: seq<Status>) {
    || targets == []
    || targets == [InReview]
    || targets == [InReview, Approved]
    || targets == [InReview, Deprecated]
    || targets == [InReview, Approved, Deprecated]
  }

  /** Each event continues from the one before it, starting at draft. */
  ghost predicate Chained(log: seq<Event>) {
    && (log != [] ==> log[0].from == Draft)
    && (forall i :: 0 < i < |log| ==> log[i].from == log[i - 1].to)
  }

  ghost predicate NoSelfApproval(log: seq<Event>, author: Option<int>) {
    forall i :: 0 <= i < |log| && log[i].to == Approved ==> author != Some(log[i].actor)
  }

  ghost predicate Proper(t: Table, version: int) {
    var log := Log(t.events, version);
    && Chained(log)
    && Course(Targets(log))
    && (version !in t.authors ==> log == [])
    && (version in t.authors ==> NoSelfApproval(log, t.authors[version]))
  }

  lemma LogAppend(events: seq<Event>, e: Event, version: int)
    ensures Log(events + [e], version) == Log(events, version) + if e.version == version then [e] else []
  {
    assert (events + [e])[..|events|] == events;
  }

  lemma CourseContinues(log: seq<Event>, e: Event)
    requires Course(Targets(log)) && e.to in Allowed(StatusOf(log))
    ensures Course(Targets(log + [e]))
  {
    assert Targets(log + [e]) == Targets(log) + [e.to];
    assert log != [] ==> Targets(log)[|log| - 1] == StatusOf(log);
  }

  lemma ChainContinues(log: seq<Event>, e: Event)
    requires Chained(log) && e.from == StatusOf(log)
    ensures Chained(log + [e])
  {
    var longer := log + [e];
    forall i | 0 < i < |longer| ensures longer[i].from == longer[i - 1].to {
      assert longer[i - 1] == log[i - 1];
    }
  }

  lemma TransitionKeeps(t: Table, r: Request, version: int)
    requires Proper(t, version)
    ensures Proper(Transitioned(t, r), version)
    ensures Transitioned(t, r).authors == t.authors
    ensures Log(t.events, version) <= Log(Transitioned(t, r).events, version)
  {
    if Refused(t, r).None? {
      var log := Log(t.events, r.version);
      var e := Event(r.version, StatusOf(log), r.to, r.actor);
      LogAppend(t.events, e, version);
      if r.version == version {
        ChainContinues(log, e);
        CourseContinues(log, e);
      }
    }
  }

  /** Through every interleaving of requests, each version's log is a proper, growing chain. */
  lemma {:induction false} EveryRun(t: Table, requests: seq<Request>, version: int)
    requires Proper(t, version)
    ensures Proper(Run(t, requests), version) && Run(t, requests).authors == t.authors
    ensures Log(t.events, version) <= Log(Run(t, requests).events, version)
    decreases |requests|
  {
    if requests != [] {
      TransitionKeeps(t, requests[0], version);
      EveryRun(Transitioned(t, requests[0]), requests[1..], version);
    }
  }

  /** From an empty table: at most three events, deprecated is final, and the status shown is the last target. */
  lemma ReviewSafety(authors: map<int, Option<int>>, requests: seq<Request>, more: seq<Request>, version: int)
    ensures var log := Log(Run(Table(authors, []), requests).events, version);
            var later := Log(Run(Run(Table(authors, []), requests), more).events, version);
            && Chained(log) && Course(Targets(log)) && |log| <= 3
            && (version in authors ==> NoSelfApproval(log, authors[version]))
            && log <= later
            && (StatusOf(log) == Deprecated ==> later == log)
  {
    var start := Table(authors, []);
    var t := Run(start, requests);
    EveryRun(start, requests, version);
    EveryRun(t, more, version);
    var log, later := Log(t.events, version), Log(Run(t, more).events, version);
    CourseLength(log);
    if StatusOf(log) == Deprecated {
      NothingAfterDeprecated(log, later);
    }
  }

  lemma CourseLength(log: seq<Event>)
    requires Course(Targets(log))
    ensures |log| <= 3
  {
    assert |Targets(log)| == |log|;
  }

  lemma NothingAfterDeprecated(log: seq<Event>, later: seq<Event>)
    requires Course(Targets(log)) && Course(Targets(later)) && log <= later && StatusOf(log) == Deprecated
    ensures later == log
  {
    assert Targets(log)[|log| - 1] == Deprecated && Targets(later)[|log| - 1] == Deprecated;
    assert |Targets(later)| == |later|;
  }

  /** One request per target, all by the same user. */
  function Asking(version: int, actor: int, targets: seq<Status>): seq<Request> {
    if targets == [] then [] else [Request(actor, version, targets[0])] + Asking(version, actor, targets[1..])
  }

  /** Each target is allowed after the one before it. */
  predicate Legal(from: Status, targets: seq<Status>)
    decreases |targets|
  {
    targets != [] ==> targets[0] in Allowed(from) && Legal(targets[0], targets[1..])
  }

  /** Every course really occurs, for any version and any user who is not its author. */
  lemma CoursesOccur(authors: map<int, Option<int>>, version: int, actor: int, targets: seq<Status>)
    requires version in authors && authors[version] != Some(actor)
    requires Course(targets)
    ensures Targets(Log(Run(Table(authors, []), Asking(version, actor, targets)).events, version)) == targets
  {
    CourseIsLegal(targets);
    Follow(Table(authors, []), version, actor, targets);
    assert Targets([]) + targets == targets;
  }

  lemma CourseIsLegal(targets: seq<Status>)
    requires Course(targets)
    ensures Legal(Draft, targets)
  {
    if |targets| == 2 {
      assert targets[1..] == [targets[1]];
    } else if |targets| == 3 {
      assert targets[1..] == [targets[1], targets[2]] && targets[1..][1..] == [targets[2]];
      assert Legal(targets[1], [targets[2]]);
    }
  }

  lemma {:induction false} Follow(t: Table, version: int, actor: int, targets: seq<Status>)
    requires version in t.authors && t.authors[version] != Some(actor)
    requires Legal(StatusOf(Log(t.events, version)), targets)
    ensures var end := Run(t, Asking(version, actor, targets));
            Targets(Log(end.events, version)) == Targets(Log(t.events, version)) + targets
    decreases |targets|
  {
    if targets != [] {
      var first := Request(actor, version, targets[0]);
      FollowOne(t, version, actor, targets[0]);
      Follow(Transitioned(t, first), version, actor, targets[1..]);
      RunFirst(t, first, Asking(version, actor, targets[1..]));
      OneMore(Targets(Log(t.events, version)), targets);
    }
  }

  lemma RunFirst(t: Table, first: Request, rest: seq<Request>)
    ensures Run(t, [first] + rest) == Run(Transitioned(t, first), rest)
  {
    assert ([first] + rest)[1..] == rest;
  }

  lemma OneMore(before: seq<Status>, targets: seq<Status>)
    requires targets != []
    ensures before + [targets[0]] + targets[1..] == before + targets
  {}

  lemma FollowOne(t: Table, version: int, actor: int, target: Status)
    requires version in t.authors && t.authors[version] != Some(actor)
    requires target in Allowed(StatusOf(Log(t.events, version)))
    ensures var next := Transitioned(t, Request(actor, version, target));
            && next.authors == t.authors
            && Targets(Log(next.events, version)) == Targets(Log(t.events, version)) + [target]
            && StatusOf(Log(next.events, version)) == target
  {
    var log := Log(t.events, version);
    LogAppend(t.events, Event(version, StatusOf(log), target, actor), version);
  }

  // ------------------------------------------------------ what a request gets

  lemma NextOnCourse(log: seq<Event>, to: Status)
    requires Course(Targets(log))
    ensures to in Allowed(StatusOf(log)) <==> Course(Targets(log) + [to])
  {
    var targets := Targets(log);
    assert log != [] ==> targets[|log| - 1] == StatusOf(log);
    if Course(targets + [to]) {
      assert (targets + [to])[|targets|] == to && (targets + [to])[..|targets|] == targets;
    }
  }

  /**
   Anyone, the author included, may take a version one step along a course, except that its author may not approve
   it; what is refused, and why; and what an accepted request records.
   */
  lemma RequestExact(authors: map<int, Option<int>>, requests: seq<Request>, r: Request)
    ensures var t := Run(Table(authors, []), requests);
            var log := Log(t.events, r.version);
            var onCourse := Course(Targets(log) + [r.to]);
            var own := r.to == Approved && r.version in authors && authors[r.version] == Some(r.actor);
            && (Refused(t, r).None? <==> r.version in authors && onCourse && !own)
            && (Refused(t, r) == Some(VersionMissing) <==> r.version !in authors)
            && (Refused(t, r) == Some(NotAllowed(StatusOf(log), r.to)) <==> r.version in authors && !onCourse)
            && (Refused(t, r) == Some(OwnVersion) <==> r.version in authors && onCourse && own)
  {
    var t := Run(Table(authors, []), requests);
    EveryRun(Table(authors, []), requests, r.version);
    NextOnCourse(Log(t.events, r.version), r.to);
  }

  /** An accepted request adds its own event at the end, and a refused one adds nothing. */
  lemma RequestRecorded(t: Table, r: Request)
    ensures var after := Transitioned(t, r);
            && after.authors == t.authors
            && (Refused(t, r).Some? ==> after.events == t.events)
            && (Refused(t, r).None? ==>
                  && |after.events| == |t.events| + 1 && t.events <= after.events
                  && var e := after.events[|t.events|];
                     (e.version, e.to, e.actor) == (r.version, r.to, r.actor)
                       && e.from == StatusOf(Log(t.events, r.version)))
  {}
}
