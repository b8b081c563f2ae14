/** Whole fixture documents: which parts are redacted, which are validated, and the sorted manifest. */
module FixtureDocuments {
  import opened Wrappers
  import opened Text
  import opened Fixtures

  datatype Headers = HeaderDict(fields: seq<Field>) | OtherHeaders(value: Tree)

  datatype Message = Message(headers: Option<Headers>, query: Option<Tree>, body: Option<Tree>, rest: seq<Field>)

  datatype Part = Missing | NotDict(value: Tree) | Present(message: Message)

  /** The existing manifest: absent, usable, or of a shape on which the tool raises. */
  datatype Redactions = Absent | Entries(entries: seq<Entry>) | Unusable

  /** A fixture; `rest` holds the fields neither tool looks at for secrets. */
  datatype Document = Document(request: Part, response: Part, sideEffects: Option<Tree>, redactions: Redactions,
                               rest: seq<Field>)

  // --------------------------------------------------------------- headers

  function KeptHeaders(p: Policy, fields: seq<Field>): seq<Field> {
    if fields == [] then []
    else
      KeptHeaders(p, fields[..|fields| - 1]) +
      if p.forbiddenHeader(fields[|fields| - 1].key) then [] else [fields[|fields| - 1]]
  }

  function HeaderRecords(p: Policy, fields: seq<Field>, path: string): seq<Entry> {
    if fields == [] then []
    else
      HeaderRecords(p, fields[..|fields| - 1], path) +
      if !p.forbiddenHeader(fields[|fields| - 1].key) then []
      else [Record(Child(path, fields[|fields| - 1].key), HeaderRule)]
  }

  function HeaderFindings(p: Policy, fields: seq<Field>, location: string): seq<Finding> {
    if fields == [] then []
    else
      HeaderFindings(p, fields[..|fields| - 1], location) +
      if !p.forbiddenHeader(fields[|fields| - 1].key) then []
      else [Finding(Child(location, fields[|fields| - 1].key), SensitiveHeader)]
  }

  /** Kept headers show nothing, and keeping again keeps everything; the three views agree on cleanliness. */
  lemma {:induction false} HeadersClean(p: Policy, fields: seq<Field>, path: string)
    ensures HeaderFindings(p, KeptHeaders(p, fields), path) == []
    ensures HeaderRecords(p, KeptHeaders(p, fields), path) == []
    ensures KeptHeaders(p, KeptHeaders(p, fields)) == KeptHeaders(p, fields)
    ensures HeaderFindings(p, fields, path) == [] <==> HeaderRecords(p, fields, path) == []
  {
    if fields != [] {
      var shorter, kept := fields[..|fields| - 1], KeptHeaders(p, fields);
      HeadersClean(p, shorter, path);
      if !p.forbiddenHeader(fields[|fields| - 1].key) {
        assert kept[..|kept| - 1] == KeptHeaders(p, shorter);
      } else {
        assert kept == KeptHeaders(p, shorter);
      }
    }
  }

  // ------------------------------------------------------------- redaction

  function RedactedHeaders(p: Policy, h: Option<Headers>): Option<Headers> {
    if h.Some? && h.value.HeaderDict? then Some(HeaderDict(KeptHeaders(p, h.value.fields))) else h
  }

  function HeaderPartRecords(p: Policy, h: Option<Headers>, path: string): seq<Entry> {
    if h.Some? && h.value.HeaderDict? then HeaderRecords(p, h.value.fields, path) else []
  }

  function RedactedOption(p: Policy, t: Option<Tree>): Option<Tree> {
    if t.Some? then Some(Redacted(p, t.value)) else None
  }

  function OptionRecords(p: Policy, t: Option<Tree>, path: string): seq<Entry> {
    if t.Some? then TreeRecords(p, t.value, path) else []
  }

  function RedactedPart(p: Policy, part: Part): Part {
    if !part.Present? then part
    else
      var m := part.message;
      Present(Message(RedactedHeaders(p, m.headers), RedactedOption(p, m.query), RedactedOption(p, m.body), m.rest))
  }

  function PartRecords(p: Policy, part: Part, path: string): seq<Entry> {
    if !part.Present? then []
    else
      HeaderPartRecords(p, part.message.headers, Child(path, "headers")) +
      OptionRecords(p, part.message.query, Child(path, "query")) +
      OptionRecords(p, part.message.body, Child(path, "body"))
  }

  /** Everything the tool does to the document, in the order it does it. */
  function DocumentRecords(p: Policy, d: Document): seq<Entry> {
    PartRecords(p, d.request, "$.request") + PartRecords(p, d.response, "$.response") +
    OptionRecords(p, d.sideEffects, "$.sideEffects")
  }

  function Existing(r: Redactions): seq<Entry> {
    if r.Entries? then r.entries else []
  }

  function RedactedDocument(p: Policy, d: Document): Option<Document> {
    if d.redactions.Unusable? then None
    else Some(Document(
                RedactedPart(p, d.request), RedactedPart(p, d.response), RedactedOption(p, d.sideEffects),
                Entries(Sorted(AddedAll(Existing(d.redactions), DocumentRecords(p, d)))), d.rest))
  }

  // --------------------------------------------------------------- sorting

  /** Manifest order: by path, then by rule. */
  predicate EntryBefore(a: Entry, b: Entry) {
    Before(a.path, b.path) || (a.path == b.path && Before(a.rule, b.rule))
  }

  /** Before the first entry that is not smaller, so equal entries keep their order. */
  function Insert(e: Entry, s: seq<Entry>): seq<Entry> {
    if s == [] then [e]
    else if EntryBefore(s[0], e) then [s[0]] + Insert(e, s[1..])
    else [e] + s
  }

  /** The stable sort. */
  function Sorted(s: seq<Entry>): seq<Entry> {
    if s == [] then [] else Insert(s[0], Sorted(s[1..]))
  }

  predicate Ordered(s: seq<Entry>) {
    |s| >= 2 ==> !EntryBefore(s[1], s[0]) && Ordered(s[1..])
  }

  lemma EntryBeforeAsymmetric(a: Entry, b: Entry)
    requires EntryBefore(a, b)
    ensures !EntryBefore(b, a)
  {
    if Before(a.path, b.path) {
      BeforeAsymmetric(a.path, b.path);
    } else {
      BeforeAsymmetric(a.rule, b.rule);
    }
  }

  lemma {:induction false} InsertOrdered(e: Entry, s: seq<Entry>)
    requires Ordered(s)
    ensures Ordered(Insert(e, s)) && Insert(e, s) != []
    ensures Insert(e, s)[0] == e || (s != [] && Insert(e, s)[0] == s[0])
  {
    if s != [] && EntryBefore(s[0], e) {
      EntryBeforeAsymmetric(s[0], e);
      InsertOrdered(e, s[1..]);
      assert ([s[0]] + Insert(e, s[1..]))[1..] == Insert(e, s[1..]);
    } else {
      assert ([e] + s)[1..] == s;
    }
  }

  lemma {:induction false} InsertSame(e: Entry, s: seq<Entry>)
    ensures multiset(Insert(e, s)) == multiset(s) + multiset{e}
  {
    if s != [] && EntryBefore(s[0], e) {
      InsertSame(e, s[1..]);
      assert s == [s[0]] + s[1..];
    }
  }

  lemma {:induction false} SortedOrdered(s: seq<Entry>)
    ensures Ordered(Sorted(s)) && multiset(Sorted(s)) == multiset(s)
  {
    if s != [] {
      SortedOrdered(s[1..]);
      InsertOrdered(s[0], Sorted(s[1..]));
      InsertSame(s[0], Sorted(s[1..]));
      assert s == [s[0]] + s[1..];
    }
  }

  lemma {:induction false} SortedIdle(s: seq<Entry>)
    requires Ordered(s)
    ensures Sorted(s) == s
  {
    if s != [] {
      SortedIdle(s[1..]);
      assert s == [s[0]] + s[1..];
    }
  }

  // ------------------------------------------------------------- validation

  function OptionFindings(p: Policy, t: Option<Tree>, location: string): seq<Finding> {
    if t.Some? then Inspect(p, t.value, location) else []
  }

  function HeaderPartFindings(p: Policy, part: Part, location: string): seq<Finding> {
    if part.Present? && part.message.headers.Some? && part.message.headers.value.HeaderDict?
    then HeaderFindings(p, part.message.headers.value.fields, location)
    else []
  }

  function Body(part: Part): Option<Tree> {
    if part.Present? then part.message.body else None
  }

  function Query(part: Part): Option<Tree> {
    if part.Present? then part.message.query else None
  }

  /** The secret-related errors of the commit gate, in its order. Side effects count only as a list. */
  function DocumentFindings(p: Policy, d: Document): seq<Finding> {
    HeadersFindings(p, d) + BodiesFindings(p, d) + RestFindings(p, d)
  }

  function HeadersFindings(p: Policy, d: Document): seq<Finding> {
    HeaderPartFindings(p, d.request, "$.request.headers") + HeaderPartFindings(p, d.response, "$.response.headers")
  }

  function BodiesFindings(p: Policy, d: Document): seq<Finding> {
    OptionFindings(p, Body(d.request), "$.request.body") + OptionFindings(p, Body(d.response), "$.response.body")
  }

  function RestFindings(p: Policy, d: Document): seq<Finding> {
    OptionFindings(p, Query(d.request), "$.request.query") +
    if d.sideEffects.Some? && d.sideEffects.value.List? then Inspect(p, d.sideEffects.value, "$.sideEffects") else []
  }

  lemma OptionPasses(p: Policy, t: Option<Tree>, location: string)
    requires MarkerSafe(p)
    ensures OptionFindings(p, RedactedOption(p, t), location) == []
    ensures OptionRecords(p, RedactedOption(p, t), location) == []
    ensures RedactedOption(p, RedactedOption(p, t)) == RedactedOption(p, t)
  {
    if t.Some? {
      RedactedPasses(p, t.value, location);
      PassesExactly(p, Redacted(p, t.value), location);
    }
  }

  lemma PartPasses(p: Policy, part: Part, path: string)
    requires MarkerSafe(p)
    ensures HeaderPartFindings(p, RedactedPart(p, part), path) == []
    ensures PartRecords(p, RedactedPart(p, part), path) == []
    ensures RedactedPart(p, RedactedPart(p, part)) == RedactedPart(p, part)
  {
    if part.Present? {
      var m := part.message;
      if m.headers.Some? && m.headers.value.HeaderDict? {
        HeadersClean(p, m.headers.value.fields, Child(path, "headers"));
        HeadersClean(p, m.headers.value.fields, path);
      }
      OptionPasses(p, m.query, Child(path, "query"));
      OptionPasses(p, m.body, Child(path, "body"));
    }
  }

  /** A redacted fixture raises none of the gate's secret-related errors. */
  lemma RedactedDocumentPasses(p: Policy, d: Document)
    requires MarkerSafe(p) && RedactedDocument(p, d).Some?
    ensures DocumentFindings(p, RedactedDocument(p, d).value) == []
  {
    PartPasses(p, d.request, "$.request.headers");
    PartPasses(p, d.response, "$.response.headers");
    if d.request.Present? {
      OptionPasses(p, d.request.message.body, "$.request.body");
      OptionPasses(p, d.request.message.query, "$.request.query");
    }
    if d.response.Present? {
      OptionPasses(p, d.response.message.body, "$.response.body");
    }
    OptionPasses(p, d.sideEffects, "$.sideEffects");
  }

  /** Paths go up, and rules within one path. */
  predicate MayFollow(a: Entry, b: Entry) {
    Before(a.path, b.path) || (a.path == b.path && (Before(a.rule, b.rule) || a.rule == b.rule))
  }

  ghost predicate InManifestOrder(s: seq<Entry>) {
    forall i :: 0 < i < |s| ==> MayFollow(s[i - 1], s[i])
  }

  lemma {:induction false} OrderedMeans(s: seq<Entry>)
    requires Ordered(s)
    ensures InManifestOrder(s)
  {
    if |s| >= 2 {
      var rest := s[1..];
      OrderedMeans(rest);
      BeforeTotal(s[0].path, s[1].path);
      BeforeTotal(s[0].rule, s[1].rule);
      forall i | 0 < i < |s| ensures MayFollow(s[i - 1], s[i]) {
        if i > 1 {
          assert s[i - 1] == rest[i - 2] && s[i] == rest[i - 1];
        }
      }
    }
  }

  /** Every action is in the manifest, nothing recorded earlier is lost, and the manifest is in order. */
  lemma ManifestComplete(p: Policy, d: Document)
    requires RedactedDocument(p, d).Some?
    ensures var manifest := RedactedDocument(p, d).value.redactions.entries;
            && InManifestOrder(manifest)
            && multiset(manifest) == multiset(AddedAll(Existing(d.redactions), DocumentRecords(p, d)))
            && (forall e :: e in DocumentRecords(p, d) ==> e in manifest)
            && (forall e :: e in Existing(d.redactions) ==> e in manifest)
            && (forall e :: e in manifest ==> e in DocumentRecords(p, d) || e in Existing(d.redactions))
  {
    var all := AddedAll(Existing(d.redactions), DocumentRecords(p, d));
    var manifest := RedactedDocument(p, d).value.redactions.entries;
    SortedOrdered(all);
    OrderedMeans(manifest);
    AddedAllHolds(Existing(d.redactions), DocumentRecords(p, d));
    forall e ensures e in manifest <==> e in all {
      assert e in manifest <==> e in multiset(manifest);
      assert e in all <==> e in multiset(all);
    }
    forall e | e in Existing(d.redactions) ensures e in all {
      var i :| 0 <= i < |Existing(d.redactions)| && Existing(d.redactions)[i] == e;
      assert all[i] == e;
    }
  }

  /** Redacting a redacted fixture changes nothing at all. */
  lemma RedactionIdempotent(p: Policy, d: Document)
    requires MarkerSafe(p) && RedactedDocument(p, d).Some?
    ensures RedactedDocument(p, RedactedDocument(p, d).value) == RedactedDocument(p, d)
  {
    var once := RedactedDocument(p, d).value;
    PartPasses(p, d.request, "$.request");
    PartPasses(p, d.response, "$.response");
    OptionPasses(p, d.sideEffects, "$.sideEffects");
    assert DocumentRecords(p, once) == [];
    SortedOrdered(AddedAll(Existing(d.redactions), DocumentRecords(p, d)));
    SortedIdle(once.redactions.entries);
  }

  // ------------------------------------------------------------- the tool

  /** Deletes forbidden headers while walking a copy of the names. */
  method RedactHeaders(p: Policy, fields: seq<Field>, path: string, log: Manifest) returns (kept: seq<Field>)
    modifies log
    ensures kept == KeptHeaders(p, fields)
    ensures log.entries == AddedAll(old(log.entries), HeaderRecords(p, fields, path))
  {
    kept := [];
    for i := 0 to |fields|
      invariant kept == KeptHeaders(p, fields[..i])
      invariant log.entries == AddedAll(old(log.entries), HeaderRecords(p, fields[..i], path))
    {
      assert fields[..i + 1][..i] == fields[..i];
      if p.forbiddenHeader(fields[i].key) {
        ghost var record := Record(Child(path, fields[i].key), HeaderRule);
        AddedOne(log.entries, record);
        AddedAllAppend(old(log.entries), HeaderRecords(p, fields[..i], path), [record]);
        log.Add(Child(path, fields[i].key), HeaderRule);
      } else {
        assert HeaderRecords(p, fields[..i + 1], path) == HeaderRecords(p, fields[..i], path);
        kept := kept + [fields[i]];
      }
    }
    assert fields[..|fields|] == fields;
  }

  method RedactOption(p: Policy, t: Option<Tree>, path: string, log: Manifest) returns (r: Option<Tree>)
    modifies log
    ensures r == RedactedOption(p, t)
    ensures log.entries == AddedAll(old(log.entries), OptionRecords(p, t, path))
  {
    if t.None? {
      return None;
    }
    var tree := RedactTree(p, t.value, path, log);
    return Some(tree);
  }

  method RedactPart(p: Policy, part: Part, path: string, log: Manifest) returns (r: Part)
    modifies log
    ensures r == RedactedPart(p, part)
    ensures log.entries == AddedAll(old(log.entries), PartRecords(p, part, path))
  {
    if !part.Present? {
      return part;
    }
    var m := part.message;
    ghost var a := HeaderPartRecords(p, m.headers, Child(path, "headers"));
    ghost var b := OptionRecords(p, m.query, Child(path, "query"));
    ghost var c := OptionRecords(p, m.body, Child(path, "body"));
    AddedAllAppend(log.entries, a, b);
    AddedAllAppend(log.entries, a + b, c);
    var headers := m.headers;
    if headers.Some? && headers.value.HeaderDict? {
      var kept := RedactHeaders(p, headers.value.fields, Child(path, "headers"), log);
      headers := Some(HeaderDict(kept));
    }
    var query := RedactOption(p, m.query, Child(path, "query"), log);
    var body := RedactOption(p, m.body, Child(path, "body"), log);
    return Present(Message(headers, query, body, m.rest));
  }

  method RedactFixture(p: Policy, d: Document) returns (r: Option<Document>)
    ensures r == RedactedDocument(p, d)
  {
    if d.redactions.Unusable? {
      return None;
    }
    var log := new Manifest(Existing(d.redactions));
    ghost var a := PartRecords(p, d.request, "$.request");
    ghost var b := PartRecords(p, d.response, "$.response");
    ghost var c := OptionRecords(p, d.sideEffects, "$.sideEffects");
    AddedAllAppend(log.entries, a, b);
    AddedAllAppend(log.entries, a + b, c);
    var request := RedactPart(p, d.request, "$.request", log);
    var response := RedactPart(p, d.response, "$.response", log);
    var sideEffects := RedactOption(p, d.sideEffects, "$.sideEffects", log);
    return Some(Document(request, response, sideEffects, Entries(Sorted(log.entries)), d.rest));
  }

  // --------------------------------------------------------------- the gate

  method ValidateHeaders(p: Policy, part: Part, location: string, errors: Errors)
    modifies errors
    ensures errors.found == old(errors.found) + HeaderPartFindings(p, part, location)
  {
    if !part.Present? || part.message.headers.None? || !part.message.headers.value.HeaderDict? {
      return;
    }
    var fields := part.message.headers.value.fields;
    for i := 0 to |fields|
      invariant errors.found == old(errors.found) + HeaderFindings(p, fields[..i], location)
    {
      assert fields[..i + 1][..i] == fields[..i];
      if p.forbiddenHeader(fields[i].key) {
        errors.Append(Child(location, fields[i].key), SensitiveHeader);
      }
    }
    assert fields[..|fields|] == fields;
  }

  method InspectOption(p: Policy, t: Option<Tree>, location: string, errors: Errors)
    modifies errors
    ensures errors.found == old(errors.found) + OptionFindings(p, t, location)
  {
    if t.Some? {
      InspectTree(p, t.value, location, errors);
    }
  }

  /** The secret-related errors of the commit gate. */
  method ValidateFixture(p: Policy, d: Document) returns (found: seq<Finding>)
    ensures found == DocumentFindings(p, d)
  {
    var errors := new Errors();
    GateHeaders(p, d, errors);
    GateBodies(p, d, errors);
    GateRest(p, d, errors);
    return errors.found;
  }

  method GateHeaders(p: Policy, d: Document, errors: Errors)
    modifies errors
    ensures errors.found == old(errors.found) + HeadersFindings(p, d)
  {
    ValidateHeaders(p, d.request, "$.request.headers", errors);
    ValidateHeaders(p, d.response, "$.response.headers", errors);
  }

  method GateBodies(p: Policy, d: Document, errors: Errors)
    modifies errors
    ensures errors.found == old(errors.found) + BodiesFindings(p, d)
  {
    InspectOption(p, Body(d.request), "$.request.body", errors);
    InspectOption(p, Body(d.response), "$.response.body", errors);
  }

  method GateRest(p: Policy, d: Document, errors: Errors)
    modifies errors
    ensures errors.found == old(errors.found) + RestFindings(p, d)
  {
    InspectOption(p, Query(d.request), "$.request.query", errors);
    if d.sideEffects.Some? && d.sideEffects.value.List? {
      InspectTree(p, d.sideEffects.value, "$.sideEffects", errors);
    }
  }

  // ------------------------------------------------------ what documents keep

  ghost predicate KeptFields(after: seq<Field>, before: seq<Field>, kept: seq<nat>) {
    |after| == |kept| && forall k :: 0 <= k < |kept| ==> kept[k] < |before| && after[k] == before[kept[k]]
  }

  lemma {:induction false} HeadersSelected(p: Policy, fields: seq<Field>) returns (kept: seq<nat>)
    ensures Selects(kept, fields, p.forbiddenHeader) && KeptFields(KeptHeaders(p, fields), fields, kept)
  {
    kept := [];
    if fields != [] {
      var shorter, last := fields[..|fields| - 1], fields[|fields| - 1];
      var before := HeadersSelected(p, shorter);
      SelectsOneMore(before, shorter, last, p.forbiddenHeader);
      assert fields == shorter + [last];
      kept := if p.forbiddenHeader(last.key) then before else before + [|shorter|];
      KeptOneMore(KeptHeaders(p, shorter), shorter, before, last);
      LastHeader(p, fields);
    }
  }

  lemma LastHeader(p: Policy, fields: seq<Field>)
    requires fields != []
    ensures var shorter, last := fields[..|fields| - 1], fields[|fields| - 1];
            KeptHeaders(p, fields) == KeptHeaders(p, shorter) + if p.forbiddenHeader(last.key) then [] else [last]
  {}

  lemma KeptOneMore(after: seq<Field>, before: seq<Field>, kept: seq<nat>, last: Field)
    requires KeptFields(after, before, kept)
    ensures KeptFields(after + [], before + [last], kept)
    ensures KeptFields(after + [last], before + [last], kept + [|before|])
  {
    assert after + [] == after;
  }

  /** Exactly the headers that are not forbidden remain, with their values and in order. */
  ghost predicate HeadersKept(p: Policy, before: Option<Headers>, after: Option<Headers>) {
    match before
    case Some(HeaderDict(fields)) =>
      && after.Some? && after.value.HeaderDict?
      && exists kept :: Selects(kept, fields, p.forbiddenHeader) && KeptFields(after.value.fields, fields, kept)
    case _ => after == before
  }

  ghost predicate OptionKept(p: Policy, before: Option<Tree>, after: Option<Tree>) {
    (before.Some? <==> after.Some?) && (before.Some? ==> KeepsPositions(p, before.value, after.value))
  }

  ghost predicate PartKept(p: Policy, before: Part, after: Part) {
    match before
    case Present(m) =>
      && after.Present?
      && HeadersKept(p, m.headers, after.message.headers)
      && OptionKept(p, m.query, after.message.query)
      && OptionKept(p, m.body, after.message.body)
      && after.message.rest == m.rest
    case _ => after == before
  }

  lemma RedactedOptionKept(p: Policy, t: Option<Tree>)
    ensures OptionKept(p, t, RedactedOption(p, t))
  {
    if t.Some? {
      RedactionKeeps(p, t.value);
    }
  }

  lemma RedactedPartKept(p: Policy, part: Part)
    ensures PartKept(p, part, RedactedPart(p, part))
  {
    if part.Present? {
      var m := part.message;
      RedactedOptionKept(p, m.query);
      RedactedOptionKept(p, m.body);
      if m.headers.Some? && m.headers.value.HeaderDict? {
        var kept := HeadersSelected(p, m.headers.value.fields);
      }
    }
  }

  /** Redaction fails only on an unusable manifest, and changes nothing in the document but what is sensitive. */
  lemma DocumentKept(p: Policy, d: Document)
    ensures RedactedDocument(p, d).None? <==> d.redactions.Unusable?
    ensures RedactedDocument(p, d).Some? ==>
              var r := RedactedDocument(p, d).value;
              && PartKept(p, d.request, r.request)
              && PartKept(p, d.response, r.response)
              && OptionKept(p, d.sideEffects, r.sideEffects)
              && r.rest == d.rest
  {
    RedactedPartKept(p, d.request);
    RedactedPartKept(p, d.response);
    RedactedOptionKept(p, d.sideEffects);
  }

  // ---------------------------------------------- findings and records, exactly

  /** The finding is a forbidden header of the message. */
  ghost predicate HeaderFault(p: Policy, part: Part, location: string, f: Finding) {
    && part.Present? && part.message.headers.Some? && part.message.headers.value.HeaderDict?
    && f.kind == SensitiveHeader
    && var fields := part.message.headers.value.fields;
       exists i :: 0 <= i < |fields| && p.forbiddenHeader(fields[i].key) && f.location == location + "." + fields[i].key
  }

  /** The finding is an objectionable position of the tree. */
  ghost predicate TreeFault(p: Policy, t: Tree, location: string, f: Finding) {
    exists steps :: Objectionable(p, t, steps, f.kind) && f.location == Rendered(location, steps)
  }

  ghost predicate BodyFault(p: Policy, part: Part, location: string, f: Finding) {
    part.Present? && part.message.body.Some? && TreeFault(p, part.message.body.value, location, f)
  }

  ghost predicate QueryFault(p: Policy, part: Part, location: string, f: Finding) {
    part.Present? && part.message.query.Some? && TreeFault(p, part.message.query.value, location, f)
  }

  lemma {:induction false} HeadersFound(p: Policy, fields: seq<Field>, location: string, f: Finding)
    ensures f in HeaderFindings(p, fields, location) <==>
              && f.kind == SensitiveHeader
              && exists i :: 0 <= i < |fields| && p.forbiddenHeader(fields[i].key)
                             && f.location == location + "." + fields[i].key
  {
    if fields != [] {
      var shorter, last := fields[..|fields| - 1], fields[|fields| - 1];
      HeadersFound(p, shorter, location, f);
      assert fields == shorter + [last];
      assert forall i :: 0 <= i < |shorter| ==> fields[i] == shorter[i];
    }
  }

  lemma HeaderPartFound(p: Policy, part: Part, location: string, f: Finding)
    ensures f in HeaderPartFindings(p, part, location) <==> HeaderFault(p, part, location, f)
  {
    if part.Present? && part.message.headers.Some? && part.message.headers.value.HeaderDict? {
      HeadersFound(p, part.message.headers.value.fields, location, f);
    }
  }

  lemma BodyFound(p: Policy, part: Part, location: string, f: Finding)
    ensures f in OptionFindings(p, Body(part), location) <==> BodyFault(p, part, location, f)
  {
    if part.Present? && part.message.body.Some? {
      FindingsExact(p, part.message.body.value, location, f);
    }
  }

  lemma QueryFound(p: Policy, part: Part, location: string, f: Finding)
    ensures f in OptionFindings(p, Query(part), location) <==> QueryFault(p, part, location, f)
  {
    if part.Present? && part.message.query.Some? {
      FindingsExact(p, part.message.query.value, location, f);
    }
  }

  /**
   The gate reports exactly the forbidden headers and the objectionable positions of bodies, query and listed
   effects.
   */
  lemma GateExact(p: Policy, d: Document, f: Finding)
    ensures f in DocumentFindings(p, d) <==>
              || HeaderFault(p, d.request, "$.request.headers", f)
              || HeaderFault(p, d.response, "$.response.headers", f)
              || BodyFault(p, d.request, "$.request.body", f)
              || BodyFault(p, d.response, "$.response.body", f)
              || QueryFault(p, d.request, "$.request.query", f)
              || (d.sideEffects.Some? && d.sideEffects.value.List? &&
                  TreeFault(p, d.sideEffects.value, "$.sideEffects", f))
  {
    HeaderPartFound(p, d.request, "$.request.headers", f);
    HeaderPartFound(p, d.response, "$.response.headers", f);
    BodyFound(p, d.request, "$.request.body", f);
    BodyFound(p, d.response, "$.response.body", f);
    QueryFound(p, d.request, "$.request.query", f);
    if d.sideEffects.Some? && d.sideEffects.value.List? {
      FindingsExact(p, d.sideEffects.value, "$.sideEffects", f);
    }
    assert f in HeadersFindings(p, d) <==>
           f in HeaderPartFindings(p, d.request, "$.request.headers") ||
           f in HeaderPartFindings(p, d.response, "$.response.headers");
    assert f in DocumentFindings(p, d) <==>
           f in HeadersFindings(p, d) || f in BodiesFindings(p, d) || f in RestFindings(p, d);
  }

  lemma {:induction false} HeadersRecorded(p: Policy, fields: seq<Field>, path: string, e: Entry)
    ensures e in HeaderRecords(p, fields, path) <==>
              exists i :: 0 <= i < |fields| && p.forbiddenHeader(fields[i].key)
                          && e == Record(path + "." + fields[i].key, HeaderRule)
  {
    if fields != [] {
      var shorter, last := fields[..|fields| - 1], fields[|fields| - 1];
      HeadersRecorded(p, shorter, path, e);
      assert fields == shorter + [last];
      assert forall i :: 0 <= i < |shorter| ==> fields[i] == shorter[i];
    }
  }

  /** The record is of a removal in the tree. */
  ghost predicate TreeRecord(p: Policy, t: Option<Tree>, path: string, e: Entry) {
    && t.Some?
    && exists steps, kind :: Topmost(p, t.value, steps, kind) && e == Record(Rendered(path, steps), RuleFor(kind))
  }

  /** The record is of a removal in the message. */
  ghost predicate PartRecord(p: Policy, part: Part, path: string, e: Entry) {
    && part.Present?
    && (|| (part.message.headers.Some? && part.message.headers.value.HeaderDict? &&
            var fields := part.message.headers.value.fields;
            exists i :: 0 <= i < |fields| && p.forbiddenHeader(fields[i].key)
                        && e == Record(Child(path, "headers") + "." + fields[i].key, HeaderRule))
        || TreeRecord(p, part.message.query, Child(path, "query"), e)
        || TreeRecord(p, part.message.body, Child(path, "body"), e))
  }

  lemma OptionRecorded(p: Policy, t: Option<Tree>, path: string, e: Entry)
    ensures e in OptionRecords(p, t, path) <==> TreeRecord(p, t, path, e)
  {
    if t.Some? {
      RecordsExact(p, t.value, path, e);
    }
  }

  lemma PartRecorded(p: Policy, part: Part, path: string, e: Entry)
    ensures e in PartRecords(p, part, path) <==> PartRecord(p, part, path, e)
  {
    if part.Present? {
      var m := part.message;
      OptionRecorded(p, m.query, Child(path, "query"), e);
      OptionRecorded(p, m.body, Child(path, "body"), e);
      if m.headers.Some? && m.headers.value.HeaderDict? {
        HeadersRecorded(p, m.headers.value.fields, Child(path, "headers"), e);
      }
    }
  }

  /** The manifest of a redacted document holds exactly the earlier entries and the removals made in it. */
  lemma ManifestExact(p: Policy, d: Document, e: Entry)
    ensures RedactedDocument(p, d).Some? ==>
              (e in RedactedDocument(p, d).value.redactions.entries <==>
                || (d.redactions.Entries? && e in d.redactions.entries)
                || PartRecord(p, d.request, "$.request", e)
                || PartRecord(p, d.response, "$.response", e)
                || TreeRecord(p, d.sideEffects, "$.sideEffects", e))
    ensures RedactedDocument(p, d).Some? ==>
              var listed := multiset(RedactedDocument(p, d).value.redactions.entries)[e];
              if e in Existing(d.redactions) then listed == multiset(Existing(d.redactions))[e] else listed <= 1
  {
    AddedCount(Existing(d.redactions), DocumentRecords(p, d), e);
    PartRecorded(p, d.request, "$.request", e);
    PartRecorded(p, d.response, "$.response", e);
    OptionRecorded(p, d.sideEffects, "$.sideEffects", e);
    assert e in DocumentRecords(p, d) <==>
           || e in PartRecords(p, d.request, "$.request") || e in PartRecords(p, d.response, "$.response")
           || e in OptionRecords(p, d.sideEffects, "$.sideEffects");
    if RedactedDocument(p, d).Some? {
      ManifestComplete(p, d);
    }
  }
}
