/**
 Golden fixtures: the redactor that sanitises a captured exchange and the
 validator that gates what may be committed. Both judge header names, field
 names and strings by the same rules, which are the `Policy` argument; all that
 is asked of it is that the replacement marker is not itself a credential.
 */
module Fixtures {
  import opened Wrappers

  datatype Tree =
    | Null
    | Flag(on: bool)
    | Number(text: string)
    | Str(text: string)
    | List(items: seq<Tree>)
    | Dict(fields: seq<Field>)

  /** A dictionary keeps its insertion order. */
  datatype Field = Field(key: string, value: Tree)

  datatype Policy = Policy(forbiddenHeader: string -> bool, sensitiveKey: string -> bool, credential: string -> bool)

  const REDACTED: string := "[REDACTED]"

  predicate MarkerSafe(p: Policy) {
    !p.credential(REDACTED)
  }

  // -------------------------------------------------------------- locations

  function Decimal(n: nat): string {
    var digit := ["0123456789"[n % 10]];
    if n < 10 then digit else Decimal(n / 10) + digit
  }

  function Child(path: string, key: string): string {
    path + "." + key
  }

  function Element(path: string, index: nat): string {
    path + "[" + Decimal(index) + "]"
  }

  // ------------------------------------------------------- the tree redacted

  function Redacted(p: Policy, t: Tree): Tree
    decreases t
  {
    match t
    case Dict(fields) => Dict(RedactedFields(p, fields))
    case List(items) => List(RedactedItems(p, items))
    case Str(text) => if p.credential(text) then Str(REDACTED) else t
    case _ => t
  }

  function RedactedFields(p: Policy, fields: seq<Field>): seq<Field>
    decreases fields
  {
    if fields == [] then []
    else
      var last := fields[|fields| - 1];
      RedactedFields(p, fields[..|fields| - 1]) +
      if p.sensitiveKey(last.key) then [] else [Field(last.key, Redacted(p, last.value))]
  }

  function RedactedItems(p: Policy, items: seq<Tree>): (r: seq<Tree>)
    ensures |r| == |items|
    ensures forall i :: 0 <= i < |items| ==> r[i] == Redacted(p, items[i])
    decreases items
  {
    if items == [] then [] else RedactedItems(p, items[..|items| - 1]) + [Redacted(p, items[|items| - 1])]
  }

  // ------------------------------------------------------- the manifest

  datatype Rule = HeaderRule | FieldRule | StringRule

  function RuleText(r: Rule): string {
    match r
    case HeaderRule => "Remove sensitive HTTP header before persisting the fixture."
    case FieldRule => "Remove sensitive field before persisting the fixture."
    case StringRule => "Replace credential-like string before persisting the fixture."
  }

  /** A manifest record; a record made by hand may carry more than path and rule. */
  datatype Entry = Entry(path: string, rule: string, extra: seq<Field>)

  function Record(path: string, rule: Rule): Entry {
    Entry(path, RuleText(rule), [])
  }

  function TreeRecords(p: Policy, t: Tree, path: string): seq<Entry>
    decreases t
  {
    match t
    case Dict(fields) => FieldRecords(p, fields, path)
    case List(items) => ItemRecords(p, items, path)
    case Str(text) => if p.credential(text) then [Record(path, StringRule)] else []
    case _ => []
  }

  function FieldRecords(p: Policy, fields: seq<Field>, path: string): seq<Entry>
    decreases fields
  {
    if fields == [] then []
    else
      var last := fields[|fields| - 1];
      FieldRecords(p, fields[..|fields| - 1], path) +
      if p.sensitiveKey(last.key) then [Record(Child(path, last.key), FieldRule)]
      else TreeRecords(p, last.value, Child(path, last.key))
  }

  function ItemRecords(p: Policy, items: seq<Tree>, path: string): seq<Entry>
    decreases items
  {
    if items == [] then []
    else ItemRecords(p, items[..|items| - 1], path) + TreeRecords(p, items[|items| - 1], Element(path, |items| - 1))
  }

  function Added(entries: seq<Entry>, e: Entry): seq<Entry> {
    if e in entries then entries else entries + [e]
  }

  function AddedAll(entries: seq<Entry>, records: seq<Entry>): seq<Entry> {
    if records == [] then entries else Added(AddedAll(entries, records[..|records| - 1]), records[|records| - 1])
  }

  lemma {:induction false} AddedAllAppend(entries: seq<Entry>, a: seq<Entry>, b: seq<Entry>)
    ensures AddedAll(entries, a + b) == AddedAll(AddedAll(entries, a), b)
    decreases |b|
  {
    if b == [] {
      assert a + b == a;
    } else {
      assert (a + b)[..|a + b| - 1] == a + b[..|b| - 1];
      AddedAllAppend(entries, a, b[..|b| - 1]);
    }
  }

  /** Adding keeps what is there, in place, and every record ends up in the manifest. */
  lemma {:induction false} AddedAllHolds(entries: seq<Entry>, records: seq<Entry>)
    ensures entries <= AddedAll(entries, records)
    ensures forall e :: e in records ==> e in AddedAll(entries, records)
    ensures forall e :: e in AddedAll(entries, records) ==> e in entries || e in records
  {
    if records != [] {
      var shorter, last := records[..|records| - 1], records[|records| - 1];
      AddedAllHolds(entries, shorter);
      assert records == shorter + [last];
    }
  }

  class Manifest {
    var entries: seq<Entry>

    constructor (entries: seq<Entry>)
      ensures this.entries == entries
    {
      this.entries := entries;
    }

    method Add(path: string, rule: Rule)
      modifies this
      ensures entries == Added(old(entries), Record(path, rule))
    {
      var record := Record(path, rule);
      if record !in entries {
        entries := entries + [record];
      }
    }
  }

  /** The recursive walk, which builds a new tree and appends to the shared manifest. */
  method RedactTree(p: Policy, t: Tree, path: string, log: Manifest) returns (r: Tree)
    modifies log
    ensures r == Redacted(p, t)
    ensures log.entries == AddedAll(old(log.entries), TreeRecords(p, t, path))
    decreases t, 1
  {
    match t {
      case Dict(fields) =>
        var kept := RedactDict(p, fields, path, log);
        return Dict(kept);
      case List(items) =>
        var done := RedactList(p, items, path, log);
        return List(done);
      case Str(text) =>
        if p.credential(text) {
          AddedOne(log.entries, Record(path, StringRule));
          log.Add(path, StringRule);
          return Str(REDACTED);
        }
        return t;
      case _ =>
        return t;
    }
  }

  method RedactDict(p: Policy, fields: seq<Field>, path: string, log: Manifest) returns (kept: seq<Field>)
    modifies log
    ensures kept == RedactedFields(p, fields)
    ensures log.entries == AddedAll(old(log.entries), FieldRecords(p, fields, path))
    decreases fields, 0
  {
    kept := [];
    for i := 0 to |fields|
      invariant kept == RedactedFields(p, fields[..i])
      invariant log.entries == AddedAll(old(log.entries), FieldRecords(p, fields[..i], path))
    {
      var field := fields[i];
      assert fields[..i + 1][..i] == fields[..i];
      if p.sensitiveKey(field.key) {
        ghost var record := Record(Child(path, field.key), FieldRule);
        AddedOne(log.entries, record);
        AddedAllAppend(old(log.entries), FieldRecords(p, fields[..i], path), [record]);
        log.Add(Child(path, field.key), FieldRule);
      } else {
        AddedAllAppend(old(log.entries), FieldRecords(p, fields[..i], path),
                       TreeRecords(p, field.value, Child(path, field.key)));
        var value := RedactTree(p, field.value, Child(path, field.key), log);
        kept := kept + [Field(field.key, value)];
      }
    }
    assert fields[..|fields|] == fields;
  }

  method RedactList(p: Policy, items: seq<Tree>, path: string, log: Manifest) returns (done: seq<Tree>)
    modifies log
    ensures done == RedactedItems(p, items)
    ensures log.entries == AddedAll(old(log.entries), ItemRecords(p, items, path))
    decreases items, 0
  {
    done := [];
    for i := 0 to |items|
      invariant done == RedactedItems(p, items[..i])
      invariant log.entries == AddedAll(old(log.entries), ItemRecords(p, items[..i], path))
    {
      assert items[..i + 1][..i] == items[..i];
      AddedAllAppend(old(log.entries), ItemRecords(p, items[..i], path), TreeRecords(p, items[i], Element(path, i)));
      var item := RedactTree(p, items[i], Element(path, i), log);
      done := done + [item];
    }
    assert items[..|items|] == items;
  }

  lemma AddedOne(entries: seq<Entry>, e: Entry)
    ensures AddedAll(entries, [e]) == Added(entries, e)
  {
    assert [e][..0] == [];
    assert AddedAll(entries, []) == entries;
  }

  // --------------------------------------------------------- the validator

  datatype Kind = SensitiveHeader | SensitiveField | CredentialString

  datatype Finding = Finding(location: string, kind: Kind)

  function Inspect(p: Policy, t: Tree, location: string): seq<Finding>
    decreases t
  {
    match t
    case Dict(fields) => InspectFields(p, fields, location)
    case List(items) => InspectItems(p, items, location)
    case Str(text) => if p.credential(text) then [Finding(location, CredentialString)] else []
    case _ => []
  }

  function InspectFields(p: Policy, fields: seq<Field>, location: string): seq<Finding>
    decreases fields
  {
    if fields == [] then []
    else
      var last := fields[|fields| - 1];
      InspectFields(p, fields[..|fields| - 1], location) +
      (if p.sensitiveKey(last.key) then [Finding(Child(location, last.key), SensitiveField)] else []) +
      Inspect(p, last.value, Child(location, last.key))
  }

  function InspectItems(p: Policy, items: seq<Tree>, location: string): seq<Finding>
    decreases items
  {
    if items == [] then []
    else
      InspectItems(p, items[..|items| - 1], location) + Inspect(p, items[|items| - 1], Element(location, |items| - 1))
  }

  /** The error list the validator's functions share. */
  class Errors {
    var found: seq<Finding>

    constructor ()
      ensures found == []
    {
      found := [];
    }

    method Append(location: string, kind: Kind)
      modifies this
      ensures found == old(found) + [Finding(location, kind)]
    {
      found := found + [Finding(location, kind)];
    }
  }

  method InspectTree(p: Policy, t: Tree, location: string, errors: Errors)
    modifies errors
    ensures errors.found == old(errors.found) + Inspect(p, t, location)
    decreases t, 1
  {
    match t {
      case Dict(fields) =>
        InspectDict(p, fields, location, errors);
      case List(items) =>
        InspectList(p, items, location, errors);
      case Str(text) =>
        if p.credential(text) {
          errors.Append(location, CredentialString);
        }
      case _ =>
    }
  }

  /** A sensitive field is reported and its value inspected all the same. */
  method InspectDict(p: Policy, fields: seq<Field>, location: string, errors: Errors)
    modifies errors
    ensures errors.found == old(errors.found) + InspectFields(p, fields, location)
    decreases fields, 0
  {
    for i := 0 to |fields|
      invariant errors.found == old(errors.found) + InspectFields(p, fields[..i], location)
    {
      var child := Child(location, fields[i].key);
      assert fields[..i + 1][..i] == fields[..i];
      if p.sensitiveKey(fields[i].key) {
        errors.Append(child, SensitiveField);
      }
      InspectTree(p, fields[i].value, child, errors);
    }
    assert fields[..|fields|] == fields;
  }

  method InspectList(p: Policy, items: seq<Tree>, location: string, errors: Errors)
    modifies errors
    ensures errors.found == old(errors.found) + InspectItems(p, items, location)
    decreases items, 0
  {
    for i := 0 to |items|
      invariant errors.found == old(errors.found) + InspectItems(p, items[..i], location)
    {
      assert items[..i + 1][..i] == items[..i];
      InspectTree(p, items[i], Element(location, i), errors);
    }
    assert items[..|items|] == items;
  }

  // --------------------------------------------- redactor against validator

  /** The validator finds nothing in a redacted tree. */
  lemma {:induction false} RedactedPasses(p: Policy, t: Tree, location: string)
    requires MarkerSafe(p)
    ensures Inspect(p, Redacted(p, t), location) == []
    decreases t, 1
  {
    match t {
      case Dict(fields) => RedactedFieldsPass(p, fields, location);
      case List(items) => RedactedItemsPass(p, items, location);
      case _ =>
    }
  }

  lemma {:induction false} RedactedFieldsPass(p: Policy, fields: seq<Field>, location: string)
    requires MarkerSafe(p)
    ensures InspectFields(p, RedactedFields(p, fields), location) == []
    decreases fields, 0
  {
    if fields != [] {
      var shorter, last := fields[..|fields| - 1], fields[|fields| - 1];
      RedactedFieldsPass(p, shorter, location);
      if !p.sensitiveKey(last.key) {
        RedactedPasses(p, last.value, Child(location, last.key));
        var r := RedactedFields(p, fields);
        assert r[..|r| - 1] == RedactedFields(p, shorter);
      } else {
        assert RedactedFields(p, fields) == RedactedFields(p, shorter);
      }
    }
  }

  lemma {:induction false} RedactedItemsPass(p: Policy, items: seq<Tree>, location: string)
    requires MarkerSafe(p)
    ensures InspectItems(p, RedactedItems(p, items), location) == []
    decreases items, 0
  {
    if items != [] {
      var shorter, last := items[..|items| - 1], items[|items| - 1];
      RedactedItemsPass(p, shorter, location);
      RedactedPasses(p, last, Element(location, |items| - 1));
      var r := RedactedItems(p, items);
      assert r[..|r| - 1] == RedactedItems(p, shorter);
    }
  }

  /** The validator passes a tree exactly when redaction would change nothing and record nothing. */
  lemma {:induction false} PassesExactly(p: Policy, t: Tree, location: string)
    requires MarkerSafe(p)
    ensures Inspect(p, t, location) == [] <==> Redacted(p, t) == t
    ensures Inspect(p, t, location) == [] <==> TreeRecords(p, t, location) == []
    decreases t, 1
  {
    match t {
      case Dict(fields) => FieldsPassExactly(p, fields, location);
      case List(items) => ItemsPassExactly(p, items, location);
      case _ =>
    }
  }

  lemma {:induction false} FieldsPassExactly(p: Policy, fields: seq<Field>, location: string)
    requires MarkerSafe(p)
    ensures |RedactedFields(p, fields)| <= |fields|
    ensures InspectFields(p, fields, location) == [] <==> RedactedFields(p, fields) == fields
    ensures InspectFields(p, fields, location) == [] <==> FieldRecords(p, fields, location) == []
    decreases fields, 0
  {
    if fields != [] {
      var shorter, last := fields[..|fields| - 1], fields[|fields| - 1];
      FieldsPassExactly(p, shorter, location);
      PassesExactly(p, last.value, Child(location, last.key));
      assert fields == shorter + [last];
      var r := RedactedFields(p, fields);
      if !p.sensitiveKey(last.key) {
        assert r == RedactedFields(p, shorter) + [Field(last.key, Redacted(p, last.value))];
        assert r == fields <==> RedactedFields(p, shorter) == shorter && Redacted(p, last.value) == last.value;
      }
    }
  }

  lemma {:induction false} ItemsPassExactly(p: Policy, items: seq<Tree>, location: string)
    requires MarkerSafe(p)
    ensures InspectItems(p, items, location) == [] <==> RedactedItems(p, items) == items
    ensures InspectItems(p, items, location) == [] <==> ItemRecords(p, items, location) == []
    decreases items, 0
  {
    if items != [] {
      var shorter, last := items[..|items| - 1], items[|items| - 1];
      ItemsPassExactly(p, shorter, location);
      PassesExactly(p, last, Element(location, |items| - 1));
      assert items == shorter + [last];
    }
  }

  // -------------------------------------------------- manifest and findings

  /** One step down a tree; a position is a sequence of steps. */
  datatype Step = Key(name: string) | Index(at: nat)

  /** How both tools write a position below `path`. */
  function Rendered(path: string, steps: seq<Step>): string
    decreases |steps|
  {
    if steps == [] then path
    else match steps[0]
      case Key(name) => Rendered(Child(path, name), steps[1..])
      case Index(i) => Rendered(Element(path, i), steps[1..])
  }

  /** Following `steps` from `t` leads to `v`. */
  ghost predicate Leads(t: Tree, steps: seq<Step>, v: Tree)
    decreases |steps|
  {
    if steps == [] then t == v
    else match steps[0]
      case Key(name) =>
        t.Dict? && exists i :: 0 <= i < |t.fields| && t.fields[i].key == name && Leads(t.fields[i].value, steps[1..], v)
      case Index(i) => t.List? && i < |t.items| && Leads(t.items[i], steps[1..], v)
  }

  predicate PassesSensitiveKey(p: Policy, steps: seq<Step>) {
    exists i :: 0 <= i < |steps| && steps[i].Key? && p.sensitiveKey(steps[i].name)
  }

  lemma PassesFirst(p: Policy, steps: seq<Step>)
    requires steps != []
    ensures PassesSensitiveKey(p, steps) <==>
              (steps[0].Key? && p.sensitiveKey(steps[0].name)) || PassesSensitiveKey(p, steps[1..])
  {
    var rest := steps[1..];
    if PassesSensitiveKey(p, rest) {
      var i :| 0 <= i < |rest| && rest[i].Key? && p.sensitiveKey(rest[i].name);
      assert steps[i + 1] == rest[i];
    }
  }

  /** What is wrong at a position, said of the tree: a field under a sensitive key, or a credential-like string. */
  ghost predicate Objectionable(p: Policy, t: Tree, steps: seq<Step>, kind: Kind) {
    match kind
    case SensitiveHeader => false
    case SensitiveField =>
      && steps != [] && steps[|steps| - 1].Key? && p.sensitiveKey(steps[|steps| - 1].name)
      && exists v :: Leads(t, steps, v)
    case CredentialString => exists text :: Leads(t, steps, Str(text)) && p.credential(text)
  }

  /** The steps strictly above the thing objected to: a field lies below its parent, a string below its own key. */
  function Above(steps: seq<Step>, kind: Kind): seq<Step> {
    if kind == SensitiveField && steps != [] then steps[..|steps| - 1] else steps
  }

  /** Objectionable, and not inside a field that goes as a whole. */
  ghost predicate Topmost(p: Policy, t: Tree, steps: seq<Step>, kind: Kind) {
    Objectionable(p, t, steps, kind) && !PassesSensitiveKey(p, Above(steps, kind))
  }

  function RuleFor(kind: Kind): Rule {
    match kind
    case SensitiveHeader => HeaderRule
    case SensitiveField => FieldRule
    case CredentialString => StringRule
  }

  // ---------------------------------------------------- one step down

  /** `child` is what the first step of some position in `t` leads to. */
  ghost predicate StepsTo(t: Tree, step: Step, child: Tree) {
    match step
    case Key(name) =>
      t.Dict? && exists i :: 0 <= i < |t.fields| && t.fields[i].key == name && t.fields[i].value == child
    case Index(i) => t.List? && i < |t.items| && t.items[i] == child
  }

  lemma LeadsOn(t: Tree, step: Step, child: Tree, rest: seq<Step>, v: Tree)
    requires StepsTo(t, step, child) && Leads(child, rest, v)
    ensures Leads(t, [step] + rest, v)
  {
    assert ([step] + rest)[1..] == rest;
  }

  lemma LeadsThrough(t: Tree, steps: seq<Step>, v: Tree) returns (child: Tree)
    requires steps != [] && Leads(t, steps, v)
    ensures StepsTo(t, steps[0], child) && Leads(child, steps[1..], v)
  {
    match steps[0] {
      case Key(name) =>
        var i :| 0 <= i < |t.fields| && t.fields[i].key == name && Leads(t.fields[i].value, steps[1..], v);
        child := t.fields[i].value;
      case Index(i) =>
        child := t.items[i];
    }
  }

  lemma ObjectionDeeper(p: Policy, t: Tree, step: Step, child: Tree, rest: seq<Step>, kind: Kind)
    requires StepsTo(t, step, child) && Objectionable(p, child, rest, kind)
    ensures Objectionable(p, t, [step] + rest, kind)
  {
    match kind {
      case SensitiveField =>
        var v :| Leads(child, rest, v);
        LeadsOn(t, step, child, rest, v);
        assert ([step] + rest)[|rest|] == rest[|rest| - 1];
      case CredentialString =>
        var text :| Leads(child, rest, Str(text)) && p.credential(text);
        LeadsOn(t, step, child, rest, Str(text));
    }
  }

  /** An objection is at the first step itself, or lies in what that step leads to. */
  lemma ObjectionShallower(p: Policy, t: Tree, steps: seq<Step>, kind: Kind) returns (child: Tree)
    requires steps != [] && Objectionable(p, t, steps, kind)
    ensures StepsTo(t, steps[0], child)
    ensures || Objectionable(p, child, steps[1..], kind)
            || (kind == SensitiveField && |steps| == 1 && steps[0].Key? && p.sensitiveKey(steps[0].name))
  {
    match kind {
      case SensitiveField =>
        var v :| Leads(t, steps, v);
        child := LeadsThrough(t, steps, v);
      case CredentialString =>
        var text :| Leads(t, steps, Str(text)) && p.credential(text);
        child := LeadsThrough(t, steps, Str(text));
    }
  }

  lemma AboveDeeper(p: Policy, step: Step, rest: seq<Step>, kind: Kind)
    requires kind == SensitiveField ==> rest != []
    ensures PassesSensitiveKey(p, Above([step] + rest, kind)) <==>
              (step.Key? && p.sensitiveKey(step.name)) || PassesSensitiveKey(p, Above(rest, kind))
  {
    var above := Above([step] + rest, kind);
    assert above == [step] + Above(rest, kind);
    PassesFirst(p, above);
    assert above[1..] == Above(rest, kind);
  }

  // -------------------------------------------------- findings by position

  function FindingsOf(p: Policy, field: Field, location: string): seq<Finding> {
    (if p.sensitiveKey(field.key) then [Finding(Child(location, field.key), SensitiveField)] else []) +
    Inspect(p, field.value, Child(location, field.key))
  }

  lemma {:induction false} FieldFindings(p: Policy, fields: seq<Field>, location: string, f: Finding)
    ensures f in InspectFields(p, fields, location) <==>
              exists i :: 0 <= i < |fields| && f in FindingsOf(p, fields[i], location)
  {
    if fields != [] {
      var shorter, last := fields[..|fields| - 1], fields[|fields| - 1];
      FieldFindings(p, shorter, location, f);
      assert InspectFields(p, fields, location) == InspectFields(p, shorter, location) + FindingsOf(p, last, location);
      if f in InspectFields(p, shorter, location) {
        var i :| 0 <= i < |shorter| && f in FindingsOf(p, shorter[i], location);
        assert fields[i] == shorter[i];
      }
    }
  }

  predicate FoundIn(p: Policy, items: seq<Tree>, location: string, f: Finding, i: nat)
    requires i < |items|
  {
    f in Inspect(p, items[i], Element(location, i))
  }

  lemma {:induction false} ItemFindings(p: Policy, items: seq<Tree>, location: string, f: Finding)
    ensures f in InspectItems(p, items, location) <==> exists i :: 0 <= i < |items| && FoundIn(p, items, location, f, i)
  {
    if items != [] {
      var shorter, k := items[..|items| - 1], |items| - 1;
      ItemFindings(p, shorter, location, f);
      LastItemFound(p, items, location, f);
      forall i | 0 <= i < k ensures FoundIn(p, items, location, f, i) <==> FoundIn(p, shorter, location, f, i) {
        assert items[i] == shorter[i];
      }
    }
  }

  lemma LastItemFound(p: Policy, items: seq<Tree>, location: string, f: Finding)
    requires items != []
    ensures f in InspectItems(p, items, location) <==>
              || f in InspectItems(p, items[..|items| - 1], location)
              || FoundIn(p, items, location, f, |items| - 1)
  {}

  lemma {:induction false} FindingPlace(p: Policy, t: Tree, location: string, f: Finding) returns (steps: seq<Step>)
    requires f in Inspect(p, t, location)
    ensures f.location == Rendered(location, steps) && Objectionable(p, t, steps, f.kind)
    decreases t
  {
    match t {
      case Dict(fields) =>
        FieldFindings(p, fields, location, f);
        var i :| 0 <= i < |fields| && f in FindingsOf(p, fields[i], location);
        var child, step := Child(location, fields[i].key), Key(fields[i].key);
        assert StepsTo(t, step, fields[i].value);
        if f in Inspect(p, fields[i].value, child) {
          var rest := FindingPlace(p, fields[i].value, child, f);
          ObjectionDeeper(p, t, step, fields[i].value, rest, f.kind);
          steps := [step] + rest;
          assert steps[1..] == rest;
        } else {
          LeadsOn(t, step, fields[i].value, [], fields[i].value);
          steps := [step] + [];
        }
      case List(items) =>
        ItemFindings(p, items, location, f);
        var i :| 0 <= i < |items| && FoundIn(p, items, location, f, i);
        var rest := FindingPlace(p, items[i], Element(location, i), f);
        ObjectionDeeper(p, t, Index(i), items[i], rest, f.kind);
        steps := [Index(i)] + rest;
        assert steps[1..] == rest;
      case Str(text) =>
        steps := [];
        assert Leads(t, steps, Str(text));
    }
  }

  lemma FoundUnderKey(p: Policy, t: Tree, location: string, name: string, child: Tree, f: Finding)
    requires StepsTo(t, Key(name), child)
    requires || f in Inspect(p, child, Child(location, name))
             || (p.sensitiveKey(name) && f == Finding(Child(location, name), SensitiveField))
    ensures f in Inspect(p, t, location)
  {
    var i :| 0 <= i < |t.fields| && t.fields[i].key == name && t.fields[i].value == child;
    assert f in FindingsOf(p, t.fields[i], location);
    FieldFindings(p, t.fields, location, f);
  }

  lemma FoundUnderIndex(p: Policy, t: Tree, location: string, i: nat, child: Tree, f: Finding)
    requires StepsTo(t, Index(i), child) && f in Inspect(p, child, Element(location, i))
    ensures f in Inspect(p, t, location)
  {
    assert FoundIn(p, t.items, location, f, i);
    ItemFindings(p, t.items, location, f);
  }

  lemma {:induction false} PlaceFound(p: Policy, t: Tree, location: string, steps: seq<Step>, kind: Kind)
    requires Objectionable(p, t, steps, kind)
    ensures Finding(Rendered(location, steps), kind) in Inspect(p, t, location)
    decreases |steps|
  {
    if steps != [] {
      var f := Finding(Rendered(location, steps), kind);
      var child := ObjectionShallower(p, t, steps, kind);
      match steps[0] {
        case Key(name) =>
          if Objectionable(p, child, steps[1..], kind) {
            PlaceFound(p, child, Child(location, name), steps[1..], kind);
          } else {
            assert steps[1..] == [] && Rendered(location, steps) == Child(location, name);
          }
          FoundUnderKey(p, t, location, name, child, f);
        case Index(i) =>
          PlaceFound(p, child, Element(location, i), steps[1..], kind);
          FoundUnderIndex(p, t, location, i, child, f);
      }
    }
  }

  /** The validator reports exactly the objectionable positions of the tree. */
  lemma FindingsExact(p: Policy, t: Tree, location: string, f: Finding)
    ensures f in Inspect(p, t, location) <==>
              exists steps :: Objectionable(p, t, steps, f.kind) && f.location == Rendered(location, steps)
  {
    if f in Inspect(p, t, location) {
      var steps := FindingPlace(p, t, location, f);
    }
    if exists steps :: Objectionable(p, t, steps, f.kind) && f.location == Rendered(location, steps) {
      var steps :| Objectionable(p, t, steps, f.kind) && f.location == Rendered(location, steps);
      PlaceFound(p, t, location, steps, f.kind);
    }
  }

  // --------------------------------------------------- records by position

  function RecordsOf(p: Policy, field: Field, path: string): seq<Entry> {
    if p.sensitiveKey(field.key) then [Record(Child(path, field.key), FieldRule)]
    else TreeRecords(p, field.value, Child(path, field.key))
  }

  lemma {:induction false} FieldRecordsBy(p: Policy, fields: seq<Field>, path: string, e: Entry)
    ensures e in FieldRecords(p, fields, path) <==>
              exists i :: 0 <= i < |fields| && e in RecordsOf(p, fields[i], path)
  {
    if fields != [] {
      var shorter, last := fields[..|fields| - 1], fields[|fields| - 1];
      FieldRecordsBy(p, shorter, path, e);
      assert FieldRecords(p, fields, path) == FieldRecords(p, shorter, path) + RecordsOf(p, last, path);
      if e in FieldRecords(p, shorter, path) {
        var i :| 0 <= i < |shorter| && e in RecordsOf(p, shorter[i], path);
        assert fields[i] == shorter[i];
      }
    }
  }

  predicate RecordedIn(p: Policy, items: seq<Tree>, path: string, e: Entry, i: nat)
    requires i < |items|
  {
    e in TreeRecords(p, items[i], Element(path, i))
  }

  lemma {:induction false} ItemRecordsBy(p: Policy, items: seq<Tree>, path: string, e: Entry)
    ensures e in ItemRecords(p, items, path) <==> exists i :: 0 <= i < |items| && RecordedIn(p, items, path, e, i)
  {
    if items != [] {
      var shorter, k := items[..|items| - 1], |items| - 1;
      ItemRecordsBy(p, shorter, path, e);
      LastItemRecorded(p, items, path, e);
      forall i | 0 <= i < k ensures RecordedIn(p, items, path, e, i) <==> RecordedIn(p, shorter, path, e, i) {
        assert items[i] == shorter[i];
      }
    }
  }

  lemma LastItemRecorded(p: Policy, items: seq<Tree>, path: string, e: Entry)
    requires items != []
    ensures e in ItemRecords(p, items, path) <==>
              || e in ItemRecords(p, items[..|items| - 1], path)
              || RecordedIn(p, items, path, e, |items| - 1)
  {}

  lemma TopmostDeeper(p: Policy, t: Tree, step: Step, child: Tree, rest: seq<Step>, kind: Kind)
    requires StepsTo(t, step, child) && Topmost(p, child, rest, kind)
    requires !(step.Key? && p.sensitiveKey(step.name))
    ensures Topmost(p, t, [step] + rest, kind)
  {
    ObjectionDeeper(p, t, step, child, rest, kind);
    AboveDeeper(p, step, rest, kind);
  }

  /**
   A topmost position is the sensitive field at its first step, or a topmost position below a step that is not
   one.
   */
  lemma TopmostShallower(p: Policy, t: Tree, steps: seq<Step>, kind: Kind) returns (child: Tree)
    requires steps != [] && Topmost(p, t, steps, kind)
    ensures StepsTo(t, steps[0], child)
    ensures if steps[0].Key? && p.sensitiveKey(steps[0].name) then kind == SensitiveField && |steps| == 1
            else Topmost(p, child, steps[1..], kind)
  {
    child := ObjectionShallower(p, t, steps, kind);
    assert [steps[0]] + steps[1..] == steps;
    if kind != SensitiveField || |steps| > 1 {
      AboveDeeper(p, steps[0], steps[1..], kind);
    }
  }

  lemma {:induction false} RecordPlace(p: Policy, t: Tree, path: string, e: Entry)
    returns (steps: seq<Step>, kind: Kind)
    requires e in TreeRecords(p, t, path)
    ensures e == Record(Rendered(path, steps), RuleFor(kind)) && Topmost(p, t, steps, kind)
    decreases t
  {
    match t {
      case Dict(fields) =>
        FieldRecordsBy(p, fields, path, e);
        var i :| 0 <= i < |fields| && e in RecordsOf(p, fields[i], path);
        var step := Key(fields[i].key);
        assert StepsTo(t, step, fields[i].value);
        if p.sensitiveKey(fields[i].key) {
          LeadsOn(t, step, fields[i].value, [], fields[i].value);
          steps, kind := [step] + [], SensitiveField;
        } else {
          var rest;
          rest, kind := RecordPlace(p, fields[i].value, Child(path, fields[i].key), e);
          TopmostDeeper(p, t, step, fields[i].value, rest, kind);
          steps := [step] + rest;
          assert steps[1..] == rest;
        }
      case List(items) =>
        ItemRecordsBy(p, items, path, e);
        var i :| 0 <= i < |items| && RecordedIn(p, items, path, e, i);
        var rest;
        rest, kind := RecordPlace(p, items[i], Element(path, i), e);
        TopmostDeeper(p, t, Index(i), items[i], rest, kind);
        steps := [Index(i)] + rest;
        assert steps[1..] == rest;
      case Str(text) =>
        steps, kind := [], CredentialString;
        assert Leads(t, steps, Str(text));
    }
  }

  lemma RecordedUnderKey(p: Policy, t: Tree, path: string, name: string, child: Tree, e: Entry)
    requires StepsTo(t, Key(name), child)
    requires if p.sensitiveKey(name) then e == Record(Child(path, name), FieldRule)
             else e in TreeRecords(p, child, Child(path, name))
    ensures e in TreeRecords(p, t, path)
  {
    var i :| 0 <= i < |t.fields| && t.fields[i].key == name && t.fields[i].value == child;
    assert e in RecordsOf(p, t.fields[i], path);
    FieldRecordsBy(p, t.fields, path, e);
  }

  lemma RecordedUnderIndex(p: Policy, t: Tree, path: string, i: nat, child: Tree, e: Entry)
    requires StepsTo(t, Index(i), child) && e in TreeRecords(p, child, Element(path, i))
    ensures e in TreeRecords(p, t, path)
  {
    assert RecordedIn(p, t.items, path, e, i);
    ItemRecordsBy(p, t.items, path, e);
  }

  lemma {:induction false} PlaceRecorded(p: Policy, t: Tree, path: string, steps: seq<Step>, kind: Kind)
    requires Topmost(p, t, steps, kind)
    ensures Record(Rendered(path, steps), RuleFor(kind)) in TreeRecords(p, t, path)
    decreases |steps|
  {
    if steps != [] {
      var e := Record(Rendered(path, steps), RuleFor(kind));
      var child := TopmostShallower(p, t, steps, kind);
      match steps[0] {
        case Key(name) =>
          if !p.sensitiveKey(name) {
            PlaceRecorded(p, child, Child(path, name), steps[1..], kind);
          } else {
            assert steps[1..] == [] && Rendered(path, steps) == Child(path, name);
          }
          RecordedUnderKey(p, t, path, name, child, e);
        case Index(i) =>
          PlaceRecorded(p, child, Element(path, i), steps[1..], kind);
          RecordedUnderIndex(p, t, path, i, child, e);
      }
    }
  }

  /** The redactor records exactly the objectionable positions with no sensitive key above them. */
  lemma RecordsExact(p: Policy, t: Tree, path: string, e: Entry)
    ensures e in TreeRecords(p, t, path) <==>
              exists steps, kind :: Topmost(p, t, steps, kind) && e == Record(Rendered(path, steps), RuleFor(kind))
  {
    if e in TreeRecords(p, t, path) {
      var steps, kind := RecordPlace(p, t, path, e);
    }
    if exists steps, kind :: Topmost(p, t, steps, kind) && e == Record(Rendered(path, steps), RuleFor(kind)) {
      var steps, kind :| Topmost(p, t, steps, kind) && e == Record(Rendered(path, steps), RuleFor(kind));
      PlaceRecorded(p, t, path, steps, kind);
    }
  }

  // ----------------------------------------------- what redaction leaves alone

  function Lookup(fields: seq<Field>, name: string): Option<Tree> {
    if fields == [] then None
    else
      var before := Lookup(fields[..|fields| - 1], name);
      if before.Some? then before
      else if fields[|fields| - 1].key == name then Some(fields[|fields| - 1].value)
      else None
  }

  function At(t: Tree, steps: seq<Step>): Option<Tree>
    decreases |steps|
  {
    if steps == [] then Some(t)
    else match steps[0]
      case Key(name) =>
        if t.Dict? && Lookup(t.fields, name).Some? then At(Lookup(t.fields, name).value, steps[1..]) else None
      case Index(i) => if t.List? && i < |t.items| then At(t.items[i], steps[1..]) else None
  }

  lemma {:induction false} LookupRedacted(p: Policy, fields: seq<Field>, name: string)
    ensures Lookup(RedactedFields(p, fields), name) ==
              if p.sensitiveKey(name) || Lookup(fields, name).None? then None
              else Some(Redacted(p, Lookup(fields, name).value))
  {
    if fields != [] {
      var shorter, last := fields[..|fields| - 1], fields[|fields| - 1];
      LookupRedacted(p, shorter, name);
      if !p.sensitiveKey(last.key) {
        var r := RedactedFields(p, fields);
        assert r[..|r| - 1] == RedactedFields(p, shorter);
      } else {
        assert RedactedFields(p, fields) == RedactedFields(p, shorter);
      }
    }
  }

  /** A location survives exactly when it passes through no sensitive key, and then holds its own redaction. */
  lemma {:induction false} RedactionIsLocal(p: Policy, t: Tree, steps: seq<Step>)
    ensures At(Redacted(p, t), steps) ==
              if PassesSensitiveKey(p, steps) || At(t, steps).None? then None
              else Some(Redacted(p, At(t, steps).value))
    decreases |steps|
  {
    if steps != [] {
      var rest := steps[1..];
      PassesFirst(p, steps);
      match steps[0] {
        case Key(name) =>
          if t.Dict? {
            LookupRedacted(p, t.fields, name);
            if Lookup(t.fields, name).Some? {
              RedactionIsLocal(p, Lookup(t.fields, name).value, rest);
            }
          }
        case Index(i) =>
          if t.List? && i < |t.items| {
            RedactionIsLocal(p, t.items[i], rest);
          }
      }
    }
  }

  /** The positions, in order, of the fields whose key is not dropped. */
  ghost predicate Selects(kept: seq<nat>, fields: seq<Field>, drops: string -> bool) {
    Increasing(kept, |fields|) && SelectsOnly(kept, fields, drops) && SelectsAll(kept, fields, drops)
  }

  ghost predicate Increasing(kept: seq<nat>, limit: nat) {
    && (forall j, k :: 0 <= j < k < |kept| ==> kept[j] < kept[k])
    && (forall k :: 0 <= k < |kept| ==> kept[k] < limit)
  }

  ghost predicate SelectsOnly(kept: seq<nat>, fields: seq<Field>, drops: string -> bool) {
    forall k :: 0 <= k < |kept| ==> kept[k] < |fields| && !drops(fields[kept[k]].key)
  }

  ghost predicate SelectsAll(kept: seq<nat>, fields: seq<Field>, drops: string -> bool) {
    forall i {:trigger i in kept} :: 0 <= i < |fields| && !drops(fields[i].key) ==> i in kept
  }

  lemma SelectsOneMore(kept: seq<nat>, fields: seq<Field>, last: Field, drops: string -> bool)
    requires Selects(kept, fields, drops)
    ensures Selects(if drops(last.key) then kept else kept + [|fields|], fields + [last], drops)
  {
    var more, longer := if drops(last.key) then kept else kept + [|fields|], fields + [last];
    OnlyOneMore(kept, fields, last, drops);
    forall i | 0 <= i < |longer| && !drops(longer[i].key) ensures i in more {
      if i < |fields| {
        assert longer[i] == fields[i];
        assert i in kept;
      }
    }
  }

  lemma OnlyOneMore(kept: seq<nat>, fields: seq<Field>, last: Field, drops: string -> bool)
    requires SelectsOnly(kept, fields, drops)
    ensures SelectsOnly(if drops(last.key) then kept else kept + [|fields|], fields + [last], drops)
  {
    var more, longer := if drops(last.key) then kept else kept + [|fields|], fields + [last];
    forall k | 0 <= k < |more| ensures more[k] < |longer| && !drops(longer[more[k]].key) {
      if k < |kept| {
        assert longer[kept[k]] == fields[kept[k]];
      }
    }
  }

  /**
   `w` is what should stand where `v` stood: the marker for a credential, and for a dictionary its other keys in
   order.
   */
  ghost predicate StandsFor(p: Policy, v: Tree, w: Tree) {
    match v
    case Str(text) => w == Str(if p.credential(text) then "[REDACTED]" else text)
    case List(items) => w.List? && |w.items| == |items|
    case Dict(fields) =>
      w.Dict? && exists kept :: Selects(kept, fields, p.sensitiveKey) && SameKeys(w.fields, fields, kept)
    case _ => w == v
  }

  ghost predicate SameKeys(after: seq<Field>, before: seq<Field>, kept: seq<nat>) {
    |after| == |kept| && forall k :: 0 <= k < |kept| ==> kept[k] < |before| && after[k].key == before[kept[k]].key
  }

  lemma {:induction false} KeysKept(p: Policy, fields: seq<Field>) returns (kept: seq<nat>)
    ensures Selects(kept, fields, p.sensitiveKey) && SameKeys(RedactedFields(p, fields), fields, kept)
  {
    kept := [];
    if fields != [] {
      var shorter, last := fields[..|fields| - 1], fields[|fields| - 1];
      var before := KeysKept(p, shorter);
      SelectsOneMore(before, shorter, last, p.sensitiveKey);
      assert fields == shorter + [last];
      kept := if p.sensitiveKey(last.key) then before else before + [|shorter|];
      SameKeysOneMore(RedactedFields(p, shorter), shorter, before, last, Redacted(p, last.value));
    }
  }

  lemma SameKeysOneMore(after: seq<Field>, before: seq<Field>, kept: seq<nat>, last: Field, v: Tree)
    requires SameKeys(after, before, kept)
    ensures SameKeys(after + [], before + [last], kept)
    ensures SameKeys(after + [Field(last.key, v)], before + [last], kept + [|before|])
  {
    assert after + [] == after;
  }

  lemma RedactedStands(p: Policy, v: Tree)
    ensures StandsFor(p, v, Redacted(p, v))
  {
    if v.Dict? {
      var kept := KeysKept(p, v.fields);
    }
  }

  /**
   Every position that passes no sensitive key is still there and holds what it held, or the marker for a
   credential.
   */
  ghost predicate KeepsPositions(p: Policy, t: Tree, r: Tree) {
    forall steps :: KeepsPosition(p, t, r, steps)
  }

  ghost predicate KeepsPosition(p: Policy, t: Tree, r: Tree, steps: seq<Step>) {
    && (At(r, steps).Some? <==> At(t, steps).Some? && !PassesSensitiveKey(p, steps))
    && (At(r, steps).Some? ==> StandsFor(p, At(t, steps).value, At(r, steps).value))
  }

  /** Redaction removes what is under a sensitive key, replaces credentials, and leaves everything else in place. */
  lemma RedactionKeeps(p: Policy, t: Tree)
    ensures KeepsPositions(p, t, Redacted(p, t))
  {
    forall steps ensures KeepsPosition(p, t, Redacted(p, t), steps) {
      RedactionIsLocal(p, t, steps);
      if At(Redacted(p, t), steps).Some? {
        RedactedStands(p, At(t, steps).value);
      }
    }
  }

  // ----------------------------------------------------------- what is written

  /** The number a row of decimal digits stands for. */
  function DecimalValue(s: string): int {
    if s == "" then 0 else 10 * DecimalValue(s[..|s| - 1]) + (s[|s| - 1] as int - '0' as int)
  }

  /** Indices are written in decimal without leading zeros. */
  lemma {:induction false} DecimalExact(n: nat)
    ensures DecimalValue(Decimal(n)) == n && Decimal(n) != ""
    ensures forall i :: 0 <= i < |Decimal(n)| ==> '0' <= Decimal(n)[i] <= '9'
    ensures n > 0 ==> Decimal(n)[0] != '0'
  {
    var d := Decimal(n);
    DigitValue(n % 10);
    if n < 10 {
      assert d[..0] == "";
    } else {
      DecimalExact(n / 10);
      assert d[..|d| - 1] == Decimal(n / 10);
    }
  }

  lemma DigitValue(k: nat)
    requires k < 10
    ensures "0123456789"[k] as int == '0' as int + k
  {}

  /** However often a removal is recorded it is listed once, and earlier entries are listed as often as before. */
  lemma {:induction false} AddedCount(entries: seq<Entry>, records: seq<Entry>, e: Entry)
    ensures multiset(AddedAll(entries, records))[e] ==
              if e in entries then multiset(entries)[e] else if e in records then 1 else 0
  {
    if records != [] {
      var shorter, last := records[..|records| - 1], records[|records| - 1];
      AddedCount(entries, shorter, e);
      AddedAllHolds(entries, shorter);
      assert records == shorter + [last];
      var before := AddedAll(entries, shorter);
      assert e in before <==> multiset(before)[e] > 0;
      assert e in entries <==> multiset(entries)[e] > 0;
    }
  }
}
