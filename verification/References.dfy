/**
 Impact analysis: whether a stored configuration refers to one of a set of asset
 ids. The recursive search is compared with a description by document paths.
 */
module References {
  import opened Wrappers

  /** A decoded JSON document. Numbers are doubles, taken at their exact value. */
  datatype Json =
    | Null
    | Bool(flag: bool)
    | Number(value: real)
    | Text(text: string)
    | Array(items: seq<Json>)
    | Object(fields: map<string, Json>)

  const INT64: real := 9223372036854775808.0

  /** A whole number, within the range of a 64-bit integer, that is one of the ids. */
  predicate IsId(v: real, ids: set<int>) {
    -INT64 <= v < INT64 && v == v.Floor as real && v.Floor in ids
  }

  predicate NumberIn(node: Json, ids: set<int>) {
    node.Number? && IsId(node.value, ids)
  }

  // ------------------------------------------------------------ the search

  /** An array with an id, or with an object whose `id` or `assetId` is one. */
  predicate ArrayRefers(node: Json, ids: set<int>) {
    node.Array? && exists i :: 0 <= i < |node.items| && ItemRefers(node.items[i], ids)
  }

  predicate ItemRefers(item: Json, ids: set<int>) {
    || NumberIn(item, ids)
    || (item.Object? && "id" in item.fields && NumberIn(item.fields["id"], ids))
    || (item.Object? && "assetId" in item.fields && NumberIn(item.fields["assetId"], ids))
  }

  predicate Refers(node: Json, keys: set<string>, ids: set<int>, parent: string) {
    match node
    case Number(v) => parent != "" && parent in keys && IsId(v, ids)
    case Object(fields) =>
      exists key :: key in fields &&
        ((key in keys && ArrayRefers(fields[key], ids)) || Refers(fields[key], keys, ids, key))
    case Array(items) => exists i :: 0 <= i < |items| && Refers(items[i], keys, ids, parent)
    case _ => false
  }

  /** `None` is a configuration that does not decode. */
  predicate ConfigRefers(config: Option<Json>, keys: set<string>, ids: set<int>) {
    config.Some? && Refers(config.value, keys, ids, "")
  }

  method SearchArray(node: Json, ids: set<int>) returns (found: bool)
    ensures found == ArrayRefers(node, ids)
  {
    if !node.Array? {
      return false;
    }
    for i := 0 to |node.items|
      invariant forall k :: 0 <= k < i ==> !ItemRefers(node.items[k], ids)
    {
      var item := node.items[i];
      match item {
        case Number(v) =>
          if IsId(v, ids) {
            return true;
          }
        case Object(fields) =>
          if "id" in fields && NumberIn(fields["id"], ids) {
            return true;
          }
          if "assetId" in fields && NumberIn(fields["assetId"], ids) {
            return true;
          }
        case _ =>
      }
    }
    return false;
  }

  /** The recursive walk; object fields come in whatever order the map yields them. */
  method Search(node: Json, keys: set<string>, ids: set<int>, parent: string) returns (found: bool)
    ensures found == Refers(node, keys, ids, parent)
    decreases node, 0
  {
    match node {
      case Number(v) =>
        return parent != "" && parent in keys && IsId(v, ids);
      case Object(fields) =>
        var rest := fields.Keys;
        while rest != {}
          invariant rest <= fields.Keys
          invariant forall key :: key in fields && key !in rest ==>
                      !(key in keys && ArrayRefers(fields[key], ids)) && !Refers(fields[key], keys, ids, key)
          decreases |rest|
        {
          var key :| key in rest;
          if key in keys {
            var hit := SearchArray(fields[key], ids);
            if hit {
              return true;
            }
          }
          var hit := Search(fields[key], keys, ids, key);
          if hit {
            return true;
          }
          rest := rest - {key};
        }
        return false;
      case Array(items) =>
        for i := 0 to |items|
          invariant forall k :: 0 <= k < i ==> !Refers(items[k], keys, ids, parent)
        {
          var hit := Search(items[i], keys, ids, parent);
          if hit {
            return true;
          }
        }
        return false;
      case _ =>
        return false;
    }
  }

  // ------------------------------------------------------------- by paths

  datatype Segment = Field(name: string) | Item(index: int)

  type Path = seq<Segment>

  function At(node: Json, path: Path): Option<Json> {
    if path == [] then Some(node)
    else match path[0]
      case Field(name) => if node.Object? && name in node.fields then At(node.fields[name], path[1..]) else None
      case Item(i) => if node.Array? && 0 <= i < |node.items| then At(node.items[i], path[1..]) else None
  }

  predicate Reaches(node: Json, path: Path, ids: set<int>) {
    At(node, path).Some? && NumberIn(At(node, path).value, ids)
  }

  predicate OnlyItems(path: Path) {
    forall i :: 0 <= i < |path| ==> path[i].Item?
  }

  /** The path ends at a key of interest, possibly followed by array positions only. */
  ghost predicate UnderKey(path: Path, keys: set<string>) {
    exists k :: 0 <= k < |path| && path[k].Field? && path[k].name in keys && OnlyItems(path[k + 1..])
                && (path[k].name != "" || |path| == k + 2)
  }

  /** The path ends at `id` or `assetId` of an entry of an array directly under a key of interest. */
  predicate InEntry(path: Path, keys: set<string>) {
    var n := |path|;
    && n >= 3
    && path[n - 3].Field? && path[n - 3].name in keys
    && path[n - 2].Item?
    && (path[n - 1] == Field("id") || path[n - 1] == Field("assetId"))
  }

  /** What the search looks for, told without recursion. */
  ghost predicate Mentions(doc: Json, keys: set<string>, ids: set<int>) {
    exists path :: Reaches(doc, path, ids) && (UnderKey(path, keys) || InEntry(path, keys))
  }

  // -------------------------------------------- paths as the search meets them

  predicate EntryTail(rest: Path) {
    || (|rest| == 1 && rest[0].Item?)
    || (|rest| == 2 && rest[0].Item? && (rest[1] == Field("id") || rest[1] == Field("assetId")))
  }

  predicate Covered(parent: string, path: Path, keys: set<string>)
    decreases |path|
  {
    if path == [] then parent != "" && parent in keys
    else match path[0]
      case Item(_) => Covered(parent, path[1..], keys)
      case Field(name) => (name in keys && EntryTail(path[1..])) || Covered(name, path[1..], keys)
  }

  lemma {:induction false} CoveredMeans(parent: string, path: Path, keys: set<string>)
    ensures Covered(parent, path, keys) <==>
              || (parent != "" && parent in keys && OnlyItems(path))
              || UnderKey(path, keys)
              || InEntry(path, keys)
    decreases |path|
  {
    if path != [] {
      var rest := path[1..];
      match path[0] {
        case Item(_) =>
          CoveredMeans(parent, rest, keys);
          assert OnlyItems(path) <==> OnlyItems(rest) by {
            assert forall i :: 0 <= i < |rest| ==> rest[i] == path[i + 1];
          }
          UnderKeyTail(path, keys);
        case Field(name) =>
          CoveredMeans(name, rest, keys);
          UnderKeyTail(path, keys);
          InEntryTail(path, keys);
      }
    }
  }

  lemma UnderKeyTail(path: Path, keys: set<string>)
    requires path != []
    ensures UnderKey(path, keys) <==>
              || UnderKey(path[1..], keys)
              || (path[0].Field? && path[0].name in keys && OnlyItems(path[1..]) && (path[0].name != "" || |path| == 2))
  {
    var rest := path[1..];
    if UnderKey(path, keys) {
      var k :| 0 <= k < |path| && path[k].Field? && path[k].name in keys && OnlyItems(path[k + 1..])
               && (path[k].name != "" || |path| == k + 2);
      if k > 0 {
        assert rest[k - 1] == path[k] && rest[k..] == path[k + 1..];
      }
    }
    if UnderKey(rest, keys) {
      var k :| 0 <= k < |rest| && rest[k].Field? && rest[k].name in keys && OnlyItems(rest[k + 1..])
               && (rest[k].name != "" || |rest| == k + 2);
      assert path[k + 1] == rest[k] && path[k + 2..] == rest[k + 1..];
    }
  }

  lemma InEntryTail(path: Path, keys: set<string>)
    requires path != [] && path[0].Field?
    ensures InEntry(path, keys) || (path[0].name in keys && |path| == 2 && path[1].Item?) <==>
              InEntry(path[1..], keys) || (path[0].name in keys && EntryTail(path[1..]))
  {}

  // -------------------------------------------------------- search and paths

  lemma ArrayPath(node: Json, ids: set<int>) returns (rest: Path)
    requires ArrayRefers(node, ids)
    ensures EntryTail(rest) && Reaches(node, rest, ids)
  {
    var i :| 0 <= i < |node.items| && ItemRefers(node.items[i], ids);
    var item := node.items[i];
    if NumberIn(item, ids) {
      rest := [Item(i)];
      assert rest[1..] == [];
    } else {
      var name := if "id" in item.fields && NumberIn(item.fields["id"], ids) then "id" else "assetId";
      rest := [Item(i), Field(name)];
      assert rest[1..] == [Field(name)] && rest[1..][1..] == [];
      assert At(item, [Field(name)]) == Some(item.fields[name]);
    }
  }

  lemma ArrayFromPath(node: Json, rest: Path, ids: set<int>)
    requires EntryTail(rest) && Reaches(node, rest, ids)
    ensures ArrayRefers(node, ids)
  {
    var item := node.items[rest[0].index];
    assert At(node, rest) == At(item, rest[1..]);
    if |rest| == 1 {
      assert rest[1..] == [];
    } else {
      var name := rest[1].name;
      assert rest[1..] == [Field(name)] && rest[1..][1..] == [];
      assert At(item, [Field(name)]) == At(item.fields[name], []);
    }
    assert ItemRefers(item, ids);
  }

  /** Whatever the search finds lies on a covered path. */
  lemma {:induction false} FoundOnPath(node: Json, keys: set<string>, ids: set<int>, parent: string)
    returns (path: Path)
    requires Refers(node, keys, ids, parent)
    ensures Reaches(node, path, ids) && Covered(parent, path, keys)
    decreases node
  {
    match node {
      case Number(_) =>
        path := [];
      case Object(fields) =>
        var key :| key in fields &&
          ((key in keys && ArrayRefers(fields[key], ids)) || Refers(fields[key], keys, ids, key));
        var rest;
        if key in keys && ArrayRefers(fields[key], ids) {
          rest := ArrayPath(fields[key], ids);
        } else {
          rest := FoundOnPath(fields[key], keys, ids, key);
        }
        path := [Field(key)] + rest;
        assert path[1..] == rest;
      case Array(items) =>
        var i :| 0 <= i < |items| && Refers(items[i], keys, ids, parent);
        var rest := FoundOnPath(items[i], keys, ids, parent);
        path := [Item(i)] + rest;
        assert path[1..] == rest;
    }
  }

  /** Whatever lies on a covered path is found. */
  lemma {:induction false} PathIsFound(node: Json, path: Path, keys: set<string>, ids: set<int>, parent: string)
    requires Reaches(node, path, ids) && Covered(parent, path, keys)
    ensures Refers(node, keys, ids, parent)
    decreases |path|
  {
    if path != [] {
      match path[0] {
        case Field(name) =>
          if name in keys && EntryTail(path[1..]) {
            ArrayFromPath(node.fields[name], path[1..], ids);
          } else {
            PathIsFound(node.fields[name], path[1..], keys, ids, name);
          }
        case Item(i) =>
          PathIsFound(node.items[i], path[1..], keys, ids, parent);
      }
    }
  }

  /** The search succeeds exactly when the document mentions one of the ids in one of the two places. */
  lemma SearchExact(doc: Json, keys: set<string>, ids: set<int>)
    ensures Refers(doc, keys, ids, "") <==> Mentions(doc, keys, ids)
  {
    if Refers(doc, keys, ids, "") {
      var path := FoundOnPath(doc, keys, ids, "");
      CoveredMeans("", path, keys);
    }
    if Mentions(doc, keys, ids) {
      var path :| Reaches(doc, path, ids) && (UnderKey(path, keys) || InEntry(path, keys));
      CoveredMeans("", path, keys);
      PathIsFound(doc, path, keys, ids, "");
    }
  }

  /** Looking for several ids, or under several keys, is looking for each. */
  lemma SearchDistributes(config: Option<Json>, keys: set<string>, keys': set<string>, ids: set<int>, ids': set<int>)
    ensures ConfigRefers(config, keys, ids + ids') <==>
              ConfigRefers(config, keys, ids) || ConfigRefers(config, keys, ids')
    ensures ConfigRefers(config, keys + keys', ids) <==>
              ConfigRefers(config, keys, ids) || ConfigRefers(config, keys', ids)
  {
    if config.Some? {
      var doc := config.value;
      SearchExact(doc, keys, ids);
      SearchExact(doc, keys, ids');
      SearchExact(doc, keys, ids + ids');
      SearchExact(doc, keys', ids);
      SearchExact(doc, keys + keys', ids);
      assert forall path :: Reaches(doc, path, ids + ids') <==> Reaches(doc, path, ids) || Reaches(doc, path, ids');
      forall path ensures UnderKey(path, keys + keys') <==> UnderKey(path, keys) || UnderKey(path, keys') {}
      assert forall path :: InEntry(path, keys + keys') <==> InEntry(path, keys) || InEntry(path, keys');
    }
  }

  // ------------------------------------------------------------- impact

  datatype AssetType = EnvironmentAsset | PluginAsset | StepAsset | TestAsset | TestCycleAsset | UnknownAsset

  function ReferenceKeys(t: AssetType): set<string> {
    match t
    case EnvironmentAsset => {"environment", "environments"}
    case PluginAsset => {"plugin", "plugins"}
    case StepAsset => {"step", "steps"}
    case TestAsset => {"test", "tests"}
    case TestCycleAsset => {"testCycle", "testCycles", "test_cycle", "test_cycles"}
    case UnknownAsset => {}
  }

  /** A stored test or test cycle. */
  datatype Resource = Resource(id: int, config: Option<Json>)

  /** A resource names the asset itself, one hop away. */
  ghost predicate Names(r: Resource, t: AssetType, id: int) {
    r.config.Some? && Mentions(r.config.value, ReferenceKeys(t), {id})
  }

  ghost predicate TestImpacted(test: Resource, t: AssetType, id: int) {
    if t == TestAsset then test.id == id else Names(test, t, id)
  }

  /** A cycle is hit directly, or through a test that is. */
  ghost predicate CycleImpacted(cycle: Resource, tests: seq<Resource>, t: AssetType, id: int) {
    if t == TestCycleAsset then cycle.id == id
    else
      || Names(cycle, t, id)
      || exists i :: 0 <= i < |tests| && TestImpacted(tests[i], t, id) && Names(cycle, TestAsset, tests[i].id)
  }

  /** A search for many ids is a mention of one of them. */
  lemma {:induction false} SearchMany(config: Option<Json>, keys: set<string>, ids: set<int>)
    ensures ConfigRefers(config, keys, ids) <==>
              config.Some? && exists id :: id in ids && Mentions(config.value, keys, {id})
    decreases |ids|
  {
    if config.Some? {
      if id :| id in ids {
        SearchMany(config, keys, ids - {id});
        SearchExact(config.value, keys, {id});
        assert ids == (ids - {id}) + {id};
        SearchDistributes(config, keys, {}, ids - {id}, {id});
      } else {
        SearchExact(config.value, keys, ids);
      }
    }
  }

  method TestAffected(test: Resource, t: AssetType, id: int) returns (affected: bool)
    ensures affected == TestImpacted(test, t, id)
  {
    affected := false;
    if t == TestAsset {
      affected := test.id == id;
    } else if test.config.Some? {
      affected := Search(test.config.value, ReferenceKeys(t), {id}, "");
      SearchExact(test.config.value, ReferenceKeys(t), {id});
    }
  }

  method ImpactedTests(tests: seq<Resource>, t: AssetType, id: int) returns (hit: seq<Resource>)
    ensures forall r :: r in hit <==> r in tests && TestImpacted(r, t, id)
  {
    hit := [];
    for i := 0 to |tests|
      invariant forall r :: r in hit <==> r in tests[..i] && TestImpacted(r, t, id)
    {
      var test := tests[i];
      var affected := TestAffected(test, t, id);
      if affected {
        hit := hit + [test];
      }
      assert tests[..i + 1] == tests[..i] + [test];
    }
    assert tests[..|tests|] == tests;
  }

  /** Tests and cycles affected by an asset, cycles also through their tests. */
  method Impact(tests: seq<Resource>, cycles: seq<Resource>, t: AssetType, id: int)
    returns (testHits: seq<Resource>, cycleHits: seq<Resource>)
    ensures forall r :: r in testHits <==> r in tests && TestImpacted(r, t, id)
    ensures forall r :: r in cycleHits <==> r in cycles && CycleImpacted(r, tests, t, id)
  {
    testHits := ImpactedTests(tests, t, id);
    var dependents := set r | r in testHits :: r.id;
    cycleHits := [];
    for i := 0 to |cycles|
      invariant forall r :: r in cycleHits <==> r in cycles[..i] && CycleImpacted(r, tests, t, id)
    {
      var cycle := cycles[i];
      var affected := false;
      if t == TestCycleAsset {
        affected := cycle.id == id;
      } else if cycle.config.Some? {
        affected := Search(cycle.config.value, ReferenceKeys(t), {id}, "");
        SearchExact(cycle.config.value, ReferenceKeys(t), {id});
        if !affected && |testHits| != 0 {
          affected := Search(cycle.config.value, ReferenceKeys(TestAsset), dependents, "");
        }
        ThroughTests(cycle, tests, testHits, dependents, t, id);
      }
      if affected {
        cycleHits := cycleHits + [cycle];
      }
      assert cycles[..i + 1] == cycles[..i] + [cycle];
    }
    assert cycles[..|cycles|] == cycles;
  }

  lemma ThroughTests(cycle: Resource, tests: seq<Resource>, hits: seq<Resource>, dependents: set<int>, t: AssetType,
                     id: int)
    requires forall r :: r in hits <==> r in tests && TestImpacted(r, t, id)
    requires dependents == set r | r in hits :: r.id
    ensures ConfigRefers(cycle.config, ReferenceKeys(TestAsset), dependents) <==>
              exists i :: 0 <= i < |tests| && TestImpacted(tests[i], t, id) && Names(cycle, TestAsset, tests[i].id)
  {
    SearchMany(cycle.config, ReferenceKeys(TestAsset), dependents);
    if ConfigRefers(cycle.config, ReferenceKeys(TestAsset), dependents) {
      var d :| d in dependents && Mentions(cycle.config.value, ReferenceKeys(TestAsset), {d});
      var r :| r in hits && r.id == d;
      var i :| 0 <= i < |tests| && tests[i] == r;
      assert Names(cycle, TestAsset, tests[i].id);
    }
    if exists i :: 0 <= i < |tests| && TestImpacted(tests[i], t, id) && Names(cycle, TestAsset, tests[i].id) {
      var i :| 0 <= i < |tests| && TestImpacted(tests[i], t, id) && Names(cycle, TestAsset, tests[i].id);
      assert tests[i] in hits;
    }
  }

  // ------------------------------------------------------- numbers and keys

  /** The number is the id, which fits 64 bits. */
  predicate Denotes(v: real, id: int) {
    -0x8000_0000_0000_0000 <= id < 0x8000_0000_0000_0000 && v == id as real
  }

  /** A number counts exactly when it is the value of one of the ids, within 64 bits. */
  lemma IdExact(v: real, ids: set<int>)
    ensures IsId(v, ids) <==> exists id :: id in ids && Denotes(v, id)
  {
    if IsId(v, ids) {
      assert Denotes(v, v.Floor);
    }
  }

  function Singular(t: AssetType): string
    requires t != UnknownAsset
  {
    match t
    case EnvironmentAsset => "environment"
    case PluginAsset => "plugin"
    case StepAsset => "step"
    case TestAsset => "test"
    case TestCycleAsset => "testCycle"
  }

  /** Assets are referred to by their name in singular and plural; test cycles also in snake case. */
  lemma KeysExact(t: AssetType)
    ensures t == UnknownAsset ==> ReferenceKeys(t) == {}
    ensures t != UnknownAsset ==>
              ReferenceKeys(t) == {Singular(t), Singular(t) + "s"} +
                                  if t == TestCycleAsset then {"test_cycle", "test_cycles"} else {}
  {
    assert "environment" + "s" == "environments" && "plugin" + "s" == "plugins" && "step" + "s" == "steps";
    assert "test" + "s" == "tests" && "testCycle" + "s" == "testCycles";
  }
}
