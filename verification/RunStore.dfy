/**
 The schedule table: launching runs, singly or as a matrix, under idempotency
 keys that the table holds unique per tenant and project.
 */
module RunStore {
  import opened Wrappers
  import opened Text
  import opened Runs
  import opened RunInvariants
  import opened Matrix

  datatype Key = Key(tenant: int, project: int, text: string)

  datatype Table = Table(rows: map<int, Row>, index: map<Key, int>, nextId: int)

  /** Every key has a row, no two keys the same one, and every row is coherent. */
  ghost predicate Valid(t: Table) {
    && (forall key :: key in t.index ==> t.index[key] in t.rows)
    && (forall k, k' :: k in t.index && k' in t.index && k != k' ==> t.index[k] != t.index[k'])
    && (forall id :: id in t.rows ==> id < t.nextId)
    && AllCoherent(t.rows)
  }

  ghost predicate AllCoherent(rows: map<int, Row>) {
    forall id :: id in rows ==> Coherent(rows[id])
  }

  // --------------------------------------------------------- derived keys

  const BASE_LIMIT: int := 96
  const KEY_LIMIT: int := 128

  type Digest = Combination -> seq<Byte>

  ghost predicate EightBytes(digest: Digest) {
    forall c :: |digest(c)| == 8
  }

  /** The base key, a dash, and the first eight digest bytes of the combination in hexadecimal. */
  function DerivedKey(base: string, c: Combination, digest: Digest): string {
    base + "-" + Hex(digest(c))
  }

  /** A derived key fits the column, and determines its base and its digest. */
  lemma DerivedKeys(base: string, c: Combination, base': string, c': Combination, digest: Digest)
    requires EightBytes(digest) && ByteLength(base) <= BASE_LIMIT
    ensures |DerivedKey(base, c, digest)| <= ByteLength(DerivedKey(base, c, digest)) <= KEY_LIMIT
    ensures DerivedKey(base, c, digest) == DerivedKey(base', c', digest) <==> base == base' && digest(c) == digest(c')
  {
    var a, b := DerivedKey(base, c, digest), DerivedKey(base', c', digest);
    ByteLengthJoin(base, "-");
    ByteLengthJoin(base + "-", Hex(digest(c)));
    HexByteLength(digest(c));
    if a == b {
      assert |base| == |base'|;
      assert a[..|base|] == base && b[..|base'|] == base';
      assert a[|base| + 1..] == Hex(digest(c)) && b[|base'| + 1..] == Hex(digest(c'));
      HexInjective(digest(c), digest(c'));
    }
  }

  // ------------------------------------------------------------ launching

  /** Insert, or on a duplicate key touch nothing and answer the row that has it. */
  function Insert(t: Table, key: Key, concurrency: int, now: Instant): Table {
    if key in t.index then t
    else Table(t.rows[t.nextId := Scheduled(concurrency, now)], t.index[key := t.nextId], t.nextId + 1)
  }

  function Launch(t: Table, keys: seq<Key>, concurrency: int, now: Instant): Table {
    if keys == [] then t
    else Insert(Launch(t, keys[..|keys| - 1], concurrency, now), keys[|keys| - 1], concurrency, now)
  }

  /** The runs answered, in the order of the keys. */
  function Answers(t: Table, keys: seq<Key>): seq<int>
    requires Present(t, keys)
  {
    seq(|keys|, i requires 0 <= i < |keys| => t.index[keys[i]])
  }

  /** Rows are kept as they are and keys keep their rows. */
  ghost predicate Keeps(later: Table, earlier: Table) {
    && (forall id :: id in earlier.rows ==> id in later.rows && later.rows[id] == earlier.rows[id])
    && (forall key :: key in earlier.index ==> key in later.index && later.index[key] == earlier.index[key])
  }

  lemma RowAdded(rows: map<int, Row>, id: int, concurrency: int, now: Instant)
    requires AllCoherent(rows)
    ensures AllCoherent(rows[id := Scheduled(concurrency, now)])
  {
    ReachableStates(concurrency, now, []);
  }

  lemma InsertKeeps(t: Table, key: Key, concurrency: int, now: Instant)
    requires Valid(t)
    ensures Valid(Insert(t, key, concurrency, now))
    ensures Keeps(Insert(t, key, concurrency, now), t)
    ensures key in Insert(t, key, concurrency, now).index
  {
    RowAdded(t.rows, t.nextId, concurrency, now);
  }

  lemma KeepsTransitive(a: Table, b: Table, c: Table)
    requires Keeps(b, a) && Keeps(c, b)
    ensures Keeps(c, a)
  {
    assert forall key :: key in a.index ==> key in b.index;
    assert forall id :: id in a.rows ==> id in b.rows;
  }

  lemma {:induction false} LaunchKeeps(t: Table, keys: seq<Key>, concurrency: int, now: Instant)
    requires Valid(t)
    ensures Valid(Launch(t, keys, concurrency, now))
    ensures Keeps(Launch(t, keys, concurrency, now), t)
  {
    if keys != [] {
      var mid := Launch(t, keys[..|keys| - 1], concurrency, now);
      LaunchKeeps(t, keys[..|keys| - 1], concurrency, now);
      InsertKeeps(mid, keys[|keys| - 1], concurrency, now);
      KeepsTransitive(t, mid, Launch(t, keys, concurrency, now));
    }
  }

  ghost predicate Present(t: Table, keys: seq<Key>) {
    forall key :: key in keys ==> key in t.index
  }

  lemma {:induction false} LaunchPlaces(t: Table, keys: seq<Key>, concurrency: int, now: Instant)
    requires Valid(t)
    ensures Present(Launch(t, keys, concurrency, now), keys)
  {
    if keys != [] {
      var k := |keys| - 1;
      LaunchKeeps(t, keys[..k], concurrency, now);
      LaunchPlaces(t, keys[..k], concurrency, now);
      InsertPlaces(Launch(t, keys[..k], concurrency, now), keys[..k], keys[k], concurrency, now);
      LaunchStep(t, keys, k, concurrency, now);
      assert keys[..k + 1] == keys;
    }
  }

  lemma InsertPlaces(t: Table, keys: seq<Key>, key: Key, concurrency: int, now: Instant)
    requires Valid(t) && Present(t, keys)
    ensures Present(Insert(t, key, concurrency, now), keys + [key])
  {
    InsertKeeps(t, key, concurrency, now);
    PresentGrows(t, Insert(t, key, concurrency, now), keys, key);
  }

  lemma PresentGrows(before: Table, after: Table, keys: seq<Key>, key: Key)
    requires Present(before, keys) && Keeps(after, before) && key in after.index
    ensures Present(after, keys + [key])
  {}

  lemma LaunchStep(t: Table, keys: seq<Key>, k: nat, concurrency: int, now: Instant)
    requires k < |keys|
    ensures keys[..k] + [keys[k]] == keys[..k + 1]
    ensures Launch(t, keys[..k + 1], concurrency, now) ==
              Insert(Launch(t, keys[..k], concurrency, now), keys[k], concurrency, now)
  {
    assert keys[..k + 1][..k] == keys[..k];
  }

  /** Launching keys that are all present inserts nothing. */
  lemma {:induction false} LaunchPresent(t: Table, keys: seq<Key>, concurrency: int, now: Instant)
    requires Present(t, keys)
    ensures Launch(t, keys, concurrency, now) == t
  {
    if keys != [] {
      LaunchPresent(t, keys[..|keys| - 1], concurrency, now);
    }
  }

  /** Distinct keys, and only distinct keys, are answered by distinct runs. */
  lemma AnswersDistinct(t: Table, keys: seq<Key>)
    requires Valid(t) && Present(t, keys)
    ensures NoRepeats(Answers(t, keys)) <==> NoRepeats(keys)
  {
    var ids := Answers(t, keys);
    if NoRepeats(ids) {
      forall i, j | 0 <= i < j < |keys| ensures keys[i] != keys[j] {
        assert ids[i] != ids[j];
      }
    }
  }

  lemma AnswersGrow(before: Table, after: Table, keys: seq<Key>, key: Key)
    requires Present(before, keys) && Keeps(after, before) && key in after.index
    ensures Present(after, keys + [key])
    ensures Answers(after, keys + [key]) == Answers(before, keys) + [after.index[key]]
  {
    PresentGrows(before, after, keys, key);
    var longer := Answers(after, keys + [key]);
    forall i | 0 <= i < |keys| ensures longer[i] == Answers(before, keys)[i] {
      assert keys[i] in keys;
    }
  }

  // --------------------------------------------------------- life of a table

  datatype Action =
    | Launched(keys: seq<Key>, concurrency: int, now: Instant)
    | Stepped(id: int, op: Op)

  ghost function Perform(t: Table, a: Action): Table {
    match a
    case Launched(keys, concurrency, now) => Launch(t, keys, concurrency, now)
    case Stepped(id, op) => if id in t.rows then t.(rows := t.rows[id := Next(t.rows[id], op)]) else t
  }

  ghost function Life(t: Table, actions: seq<Action>): Table
    decreases |actions|
  {
    if actions == [] then t else Life(Perform(t, actions[0]), actions[1..])
  }

  /** Keys keep their rows, rows stay, and finished rows stay as they are. */
  ghost predicate Preserves(later: Table, earlier: Table) {
    && (forall key :: key in earlier.index ==> key in later.index && later.index[key] == earlier.index[key])
    && (forall id :: id in earlier.rows ==> id in later.rows)
    && (forall id :: id in earlier.rows && Terminal(earlier.rows[id].status) ==> later.rows[id] == earlier.rows[id])
  }

  lemma PreservesTransitive(a: Table, b: Table, c: Table)
    requires Preserves(b, a) && Preserves(c, b)
    ensures Preserves(c, a)
  {
    assert forall key :: key in a.index ==> key in b.index;
    assert forall id :: id in a.rows ==> id in b.rows;
  }

  lemma RowStepped(rows: map<int, Row>, id: int, op: Op)
    requires AllCoherent(rows) && id in rows
    ensures AllCoherent(rows[id := Next(rows[id], op)])
    ensures Terminal(rows[id].status) ==> Next(rows[id], op) == rows[id]
  {
    StepKeeps(rows[id], op);
  }

  lemma PerformKeeps(t: Table, a: Action)
    requires Valid(t)
    ensures Valid(Perform(t, a)) && Preserves(Perform(t, a), t)
  {
    match a {
      case Launched(keys, concurrency, now) => LaunchKeeps(t, keys, concurrency, now);
      case Stepped(id, op) =>
        if id in t.rows {
          RowStepped(t.rows, id, op);
        }
    }
  }

  /**
   Through any mixture of launches and protocol steps keys keep their rows, rows stay coherent, finished rows
   stay as they are.
   */
  lemma {:induction false} LifeKeeps(t: Table, actions: seq<Action>)
    requires Valid(t)
    ensures Valid(Life(t, actions)) && Preserves(Life(t, actions), t)
    decreases |actions|
  {
    if actions != [] {
      var next := Perform(t, actions[0]);
      PerformKeeps(t, actions[0]);
      LifeKeeps(next, actions[1..]);
      PreservesTransitive(t, next, Life(t, actions));
    }
  }

  /** Launching the same keys again, however much later, changes nothing and answers the same runs in the same order. */
  lemma LaunchReplays(t: Table, keys: seq<Key>, concurrency: int, now: Instant, between: seq<Action>,
                      concurrency': int, now': Instant)
    requires Valid(t)
    ensures var first := Launch(t, keys, concurrency, now);
            var later := Life(first, between);
            && Present(first, keys) && Present(later, keys)
            && Launch(later, keys, concurrency', now') == later
            && Answers(later, keys) == Answers(first, keys)
  {
    var first := Launch(t, keys, concurrency, now);
    LaunchKeeps(t, keys, concurrency, now);
    LaunchPlaces(t, keys, concurrency, now);
    LifeKeeps(first, between);
    StaysAnswered(first, Life(first, between), keys);
    LaunchPresent(Life(first, between), keys, concurrency', now');
  }

  lemma StaysAnswered(earlier: Table, later: Table, keys: seq<Key>)
    requires Present(earlier, keys) && Preserves(later, earlier)
    ensures Present(later, keys) && Answers(later, keys) == Answers(earlier, keys)
  {}

  // ------------------------------------------------------- matrix launches

  function MatrixKeys(tenant: int, project: int, base: string, combinations: seq<Combination>,
                      digest: Digest): seq<Key> {
    seq(|combinations|, i requires 0 <= i < |combinations| =>
      Key(tenant, project, DerivedKey(base, combinations[i], digest)))
  }

  /** A single launch has no combination and keeps its key. */
  function RunKeys(tenant: int, project: int, base: string, combinations: Option<seq<Combination>>,
                   digest: Digest): seq<Key> {
    if combinations.None? then [Key(tenant, project, base)]
    else MatrixKeys(tenant, project, base, combinations.value, digest)
  }

  /** A matrix launch gives every combination its own run exactly when no two combinations share a digest. */
  lemma MatrixRunsDistinct(t: Table, tenant: int, project: int, base: string, matrix: Request, digest: Digest,
                           concurrency: int, now: Instant)
    requires Valid(t) && EightBytes(digest) && ByteLength(base) <= BASE_LIMIT && Expansion(matrix).Some?
    ensures var combinations := Expansion(matrix).value;
            var keys := MatrixKeys(tenant, project, base, combinations, digest);
            var after := Launch(t, keys, concurrency, now);
            && Present(after, keys)
            && (forall i :: 0 <= i < |keys| ==> ByteLength(keys[i].text) <= KEY_LIMIT)
            && NoRepeats(combinations)
            && (NoRepeats(Answers(after, keys)) <==> DigestsDiffer(combinations, digest))
  {
    var combinations := Expansion(matrix).value;
    var keys := MatrixKeys(tenant, project, base, combinations, digest);
    var after := Launch(t, keys, concurrency, now);
    LaunchKeeps(t, keys, concurrency, now);
    LaunchPlaces(t, keys, concurrency, now);
    AnswersDistinct(after, keys);
    ExpansionExact(matrix);
    forall i | 0 <= i < |keys| ensures ByteLength(keys[i].text) <= KEY_LIMIT {
      DerivedKeys(base, combinations[i], base, combinations[i], digest);
    }
    KeysDistinct(tenant, project, base, combinations, digest);
  }

  ghost predicate DigestsDiffer(combinations: seq<Combination>, digest: Digest) {
    forall i, j :: 0 <= i < j < |combinations| ==> digest(combinations[i]) != digest(combinations[j])
  }

  lemma KeysDistinct(tenant: int, project: int, base: string, combinations: seq<Combination>, digest: Digest)
    requires EightBytes(digest) && ByteLength(base) <= BASE_LIMIT
    ensures NoRepeats(MatrixKeys(tenant, project, base, combinations, digest)) <==> DigestsDiffer(combinations, digest)
  {
    var keys := MatrixKeys(tenant, project, base, combinations, digest);
    forall i, j | 0 <= i < j < |keys|
      ensures keys[i] == keys[j] <==> digest(combinations[i]) == digest(combinations[j])
    {
      DerivedKeys(base, combinations[i], base, combinations[j], digest);
    }
  }

  // ------------------------------------------------------------- requests

  const MAX_CONCURRENCY: int := 32
  const MAX_MATRIX_RUNS: int := 64

  datatype Body = Body(cycle: int, key: string, concurrency: int, matrix: Option<Request>)

  datatype Rejection = BadKey | BadConcurrency | MatrixMissing | AxisTooLong | NoAxisValue | TooManyRuns

  datatype Plan = Plan(base: string, concurrency: int, combinations: seq<Combination>)

  /** The checks of a matrix launch, in their order. */
  method PlanMatrix(body: Body) returns (r: Result<Plan, Rejection>)
    ensures r.Success? <==>
              && body.cycle >= 1 && Trim(body.key) != "" && ByteLength(body.key) <= BASE_LIMIT
              && 0 <= body.concurrency <= MAX_CONCURRENCY
              && body.matrix.Some? && Expansion(body.matrix.value).Some?
              && 0 < |Expansion(body.matrix.value).value| <= MAX_MATRIX_RUNS
    ensures r.Success? ==>
              && r.value.base == Trim(body.key) && ByteLength(r.value.base) <= BASE_LIMIT
              && r.value.concurrency == (if body.concurrency == 0 then 1 else body.concurrency)
              && 1 <= r.value.concurrency <= MAX_CONCURRENCY
              && r.value.combinations == Expansion(body.matrix.value).value
    ensures r.Failure? ==>
              var badKey := body.cycle < 1 || Trim(body.key) == "" || ByteLength(body.key) > 96;
              var badConcurrency := body.concurrency < 0 || body.concurrency > 32;
              && (r.error == BadKey <==> badKey)
              && (r.error == BadConcurrency <==> !badKey && badConcurrency)
              && (r.error == MatrixMissing <==> !badKey && !badConcurrency && body.matrix.None?)
              && (r.error == AxisTooLong ==> body.matrix.Some? && Expansion(body.matrix.value).None?)
              && (r.error == NoAxisValue ==> body.matrix.Some? && Expansion(body.matrix.value) == Some([]))
              && (r.error == TooManyRuns ==>
                    body.matrix.Some? && Expansion(body.matrix.value).Some?
                      && |Expansion(body.matrix.value).value| > 64)
  {
    if body.cycle < 1 || Trim(body.key) == "" || ByteLength(body.key) > 96 {
      return Failure(BadKey);
    }
    var concurrency := body.concurrency;
    if concurrency == 0 {
      concurrency := 1;
    }
    if concurrency < 1 || concurrency > 32 {
      return Failure(BadConcurrency);
    }
    if body.matrix.None? {
      return Failure(MatrixMissing);
    }
    var combinations, invalid := MatrixCombinations(body.matrix.value);
    if invalid {
      return Failure(AxisTooLong);
    }
    if combinations == [] {
      return Failure(NoAxisValue);
    }
    if |combinations| > 64 {
      return Failure(TooManyRuns);
    }
    TrimNotLonger(body.key);
    return Success(Plan(Trim(body.key), concurrency, combinations));
  }

  // ----------------------------------------------------------- the object

  class Schedule {
    var rows: map<int, Row>
    var index: map<Key, int>
    var nextId: int

    function Value(): Table
      reads this
    {
      Table(rows, index, nextId)
    }

    constructor ()
      ensures Value() == Table(map[], map[], 1) && Valid(Value())
    {
      rows, index, nextId := map[], map[], 1;
    }

    /** The insert of one row, or the row that already has the key. */
    method Upsert(key: Key, concurrency: int, now: Instant) returns (id: int)
      requires Valid(Value())
      modifies this
      ensures Value() == Insert(old(Value()), key, concurrency, now)
      ensures Valid(Value()) && Keeps(Value(), old(Value()))
      ensures key in index && id == index[key]
    {
      InsertKeeps(Value(), key, concurrency, now);
      if key !in index {
        rows := rows[nextId := Scheduled(concurrency, now)];
        index := index[key := nextId];
        nextId := nextId + 1;
      }
      id := index[key];
    }

    /** The rows of one launch, in order. */
    method UpsertAll(keys: seq<Key>, concurrency: int, now: Instant) returns (answered: seq<int>)
      requires Valid(Value())
      modifies this
      ensures Valid(Value())
      ensures Value() == Launch(old(Value()), keys, concurrency, now)
      ensures Present(Value(), keys) && answered == Answers(Value(), keys)
    {
      answered := [];
      for i := 0 to |keys|
        invariant Valid(Value())
        invariant Value() == Launch(old(Value()), keys[..i], concurrency, now)
        invariant Present(Value(), keys[..i]) && answered == Answers(Value(), keys[..i])
      {
        ghost var before := Value();
        var id := Upsert(keys[i], concurrency, now);
        LaunchStep(old(Value()), keys, i, concurrency, now);
        AnswersGrow(before, Value(), keys[..i], keys[i]);
        answered := answered + [id];
      }
      assert keys[..|keys|] == keys;
    }

    /** One transaction; `owned` says whether the project and cycle belong to the tenant. */
    method CreateRuns(owned: bool, tenant: int, project: int, base: string, combinations: Option<seq<Combination>>,
                      digest: Digest, concurrency: int, now: Instant)
      returns (ids: Option<seq<int>>)
      requires Valid(Value())
      modifies this
      ensures Valid(Value())
      ensures ids.Some? <==> owned
      ensures !owned ==> Value() == old(Value())
      ensures owned ==>
                var keys := RunKeys(tenant, project, base, combinations, digest);
                && Value() == Launch(old(Value()), keys, concurrency, now)
                && Present(Value(), keys)
                && ids.value == Answers(Value(), keys)
    {
      if !owned {
        return None;
      }
      var answered := UpsertAll(RunKeys(tenant, project, base, combinations, digest), concurrency, now);
      return Some(answered);
    }
  }

  // ------------------------------------------------------- what a launch adds

  /** A row nobody has touched: queued, empty, with the concurrency that was asked for. */
  predicate Untouched(row: Row, concurrency: int, now: Instant) {
    && row.status == Queued && row.concurrency == concurrency
    && row.workers == map[] && row.summary == NeverWritten
    && (row.active, row.total, row.completed, row.failed, row.cancelled) == (0, 0, 0, 0, 0)
    && row.aggregate.None? && row.startedAt.None? && row.completedAt.None? && row.cancelledAt.None?
    && row.updatedAt == now
  }

  lemma InsertAdds(t: Table, key: Key, concurrency: int, now: Instant)
    requires Valid(t) && key !in t.index
    ensures var after := Insert(t, key, concurrency, now);
            && after.index.Keys == t.index.Keys + {key} && after.index[key] !in t.rows
            && after.rows.Keys == t.rows.Keys + {after.index[key]}
            && Untouched(after.rows[after.index[key]], concurrency, now)
  {}

  /** Every key new to the launch names a new, untouched row with the concurrency asked for. */
  ghost predicate Adds(t: Table, after: Table, keys: seq<Key>, concurrency: int, now: Instant) {
    && (forall key :: key in after.index <==> key in t.index || key in keys)
    && (forall key :: key in keys && key !in t.index ==> NewRow(t, after, key, concurrency, now))
    && (forall id :: id in after.rows && id !in t.rows ==> HasNewKey(t, after, keys, id))
  }

  ghost predicate NewRow(t: Table, after: Table, key: Key, concurrency: int, now: Instant) {
    && key in after.index && after.index[key] !in t.rows
    && after.index[key] in after.rows && Untouched(after.rows[after.index[key]], concurrency, now)
  }

  ghost predicate HasNewKey(t: Table, after: Table, keys: seq<Key>, id: int) {
    exists key :: key in keys && key !in t.index && key in after.index && after.index[key] == id
  }

  lemma AddsOneMore(t: Table, mid: Table, keys: seq<Key>, key: Key, concurrency: int, now: Instant)
    requires Valid(mid) && Keeps(mid, t) && Adds(t, mid, keys, concurrency, now)
    ensures Adds(t, Insert(mid, key, concurrency, now), keys + [key], concurrency, now)
  {
    var after, longer := Insert(mid, key, concurrency, now), keys + [key];
    InsertKeeps(mid, key, concurrency, now);
    if key !in mid.index {
      InsertAdds(mid, key, concurrency, now);
    }
    forall k | k in longer && k !in t.index ensures NewRow(t, after, k, concurrency, now) {
      if k in mid.index {
        assert k in keys;
        assert NewRow(t, mid, k, concurrency, now);
      }
    }
    forall id | id in after.rows && id !in t.rows ensures HasNewKey(t, after, longer, id) {
      if id in mid.rows {
        assert HasNewKey(t, mid, keys, id);
        var k :| k in keys && k !in t.index && k in mid.index && mid.index[k] == id;
        assert k in longer && after.index[k] == id;
      } else {
        assert key in longer && after.index[key] == id;
      }
    }
  }

  /** A launch adds one row for each new key and nothing else. */
  lemma {:induction false} LaunchAdds(t: Table, keys: seq<Key>, concurrency: int, now: Instant)
    requires Valid(t)
    ensures Adds(t, Launch(t, keys, concurrency, now), keys, concurrency, now)
  {
    if keys != [] {
      var k := |keys| - 1;
      LaunchKeeps(t, keys[..k], concurrency, now);
      LaunchAdds(t, keys[..k], concurrency, now);
      AddsOneMore(t, Launch(t, keys[..k], concurrency, now), keys[..k], keys[k], concurrency, now);
      LaunchStep(t, keys, k, concurrency, now);
      assert keys[..k + 1] == keys;
    }
  }

  /** A single launch goes under its own key, a matrix launch under one derived key per combination, in their order. */
  lemma KeysOfLaunch(tenant: int, project: int, base: string, combinations: Option<seq<Combination>>, digest: Digest)
    ensures var keys := RunKeys(tenant, project, base, combinations, digest);
            && (forall i :: 0 <= i < |keys| ==> keys[i].tenant == tenant && keys[i].project == project)
            && (combinations.None? ==> |keys| == 1 && keys[0].text == base)
            && (combinations.Some? ==> |keys| == |combinations.value|)
            && (combinations.Some? ==> forall i :: 0 <= i < |keys| ==>
                  keys[i].text == base + "-" + Hex(digest(combinations.value[i])))
  {}
}
