/** The difference between two asset version snapshots, and what it determines. */
module SnapshotDiff {
  import opened Wrappers
  import opened Text
  import opened References

  type Snapshot = map<string, Json>

  datatype Change = Change(before: Json, after: Json)

  datatype Diff = Diff(added: Snapshot, removed: Snapshot, changed: map<string, Change>)

  /** A version without a snapshot counts as an empty one. */
  function Contents(s: Option<Snapshot>): Snapshot {
    if s.Some? then s.value else map[]
  }

  function DiffOf(a: Snapshot, b: Snapshot): Diff {
    Diff(map k | k in b && k !in a :: b[k],
         map k | k in a && k !in b :: a[k],
         map k | k in a && k in b && a[k] != b[k] :: Change(a[k], b[k]))
  }

  /** The diff restricted to some keys. */
  function DiffOn(a: Snapshot, b: Snapshot, keys: set<string>): Diff {
    Diff(map k | k in keys && k in b && k !in a :: b[k],
         map k | k in keys && k in a && k !in b :: a[k],
         map k | k in keys && k in a && k in b && a[k] != b[k] :: Change(a[k], b[k]))
  }

  function Noted(d: Diff, a: Snapshot, b: Snapshot, k: string): Diff {
    if k in b && k !in a then d.(added := d.added[k := b[k]])
    else if k in a && k !in b then d.(removed := d.removed[k := a[k]])
    else if k in a && k in b && a[k] != b[k] then d.(changed := d.changed[k := Change(a[k], b[k])])
    else d
  }

  lemma DiffOnStep(a: Snapshot, b: Snapshot, keys: set<string>, k: string)
    ensures DiffOn(a, b, keys + {k}) == Noted(DiffOn(a, b, keys), a, b, k)
  {
    var d, e := DiffOn(a, b, keys + {k}), Noted(DiffOn(a, b, keys), a, b, k);
    assert d.added == e.added;
    assert d.removed == e.removed;
    assert d.changed == e.changed;
  }

  lemma DiffOnAll(a: Snapshot, b: Snapshot, keys: set<string>)
    requires a.Keys <= keys && b.Keys <= keys
    ensures DiffOn(a, b, keys) == DiffOf(a, b)
  {
    var d, e := DiffOn(a, b, keys), DiffOf(a, b);
    assert d.added == e.added;
    assert d.removed == e.removed;
    assert d.changed == e.changed;
  }

  /** The three maps as the handler fills them, one key at a time. */
  method AssetVersionDiff(from: Option<Snapshot>, to: Option<Snapshot>) returns (d: Diff)
    ensures d == DiffOf(Contents(from), Contents(to))
    ensures Contents(from) == (if from.Some? then from.value else map[])
    ensures Contents(to) == (if to.Some? then to.value else map[])
  {
    var a, b := Contents(from), Contents(to);
    var keys := SortedListing(a.Keys + b.Keys);
    ghost var done: set<string> := {};
    d := Diff(map[], map[], map[]);
    for i := 0 to |keys|
      invariant d == DiffOn(a, b, done)
      invariant forall j :: 0 <= j < i ==> keys[j] in done
    {
      var key := keys[i];
      assert key in a.Keys + b.Keys;
      DiffOnStep(a, b, done, key);
      if key !in a {
        d := d.(added := d.added[key := b[key]]);
      } else if key !in b {
        d := d.(removed := d.removed[key := a[key]]);
      } else if a[key] != b[key] {
        d := d.(changed := d.changed[key := Change(a[key], b[key])]);
      }
      done := done + {key};
    }
    assert forall k :: k in a.Keys + b.Keys ==> k in keys;
    DiffOnAll(a, b, done);
  }

  // -------------------------------------------------------------- patching

  function Afters(changed: map<string, Change>): Snapshot {
    map k | k in changed :: changed[k].after
  }

  function Patch(a: Snapshot, d: Diff): Snapshot {
    (a - d.removed.Keys) + d.added + Afters(d.changed)
  }

  function Reverse(d: Diff): Diff {
    Diff(d.removed, d.added, map k | k in d.changed :: Change(d.changed[k].after, d.changed[k].before))
  }

  /** `d` speaks truly about `a`: it adds what is absent, removes and changes what is there, and changes something. */
  predicate Fits(d: Diff, a: Snapshot) {
    && (forall k :: k in d.added ==> k !in a)
    && (forall k :: k in d.removed ==> k in a && a[k] == d.removed[k] && k !in d.changed)
    && (forall k :: k in d.changed ==>
          k in a && a[k] == d.changed[k].before && d.changed[k].after != d.changed[k].before)
  }

  lemma PatchAt(a: Snapshot, d: Diff, k: string)
    requires Fits(d, a)
    ensures k in Patch(a, d) <==> k in d.added || (k in a && k !in d.removed)
    ensures k in Patch(a, d) ==>
              Patch(a, d)[k] == if k in d.added then d.added[k] else if k in d.changed then d.changed[k].after else a[k]
  {}

  lemma DiffFits(a: Snapshot, b: Snapshot)
    ensures Fits(DiffOf(a, b), a) && Patch(a, DiffOf(a, b)) == b
  {
    var d, r := DiffOf(a, b), Patch(a, DiffOf(a, b));
    forall k ensures (k in r <==> k in b) && (k in b ==> r[k] == b[k]) {
      PatchAt(a, d, k);
    }
  }

  ghost predicate SameAt<V>(a: map<string, V>, b: map<string, V>, k: string) {
    (k in a <==> k in b) && (k in a ==> a[k] == b[k])
  }

  lemma SameMap<V>(a: map<string, V>, b: map<string, V>)
    requires forall k :: SameAt(a, b, k)
    ensures a == b
  {
    forall k ensures k in a <==> k in b {
      assert SameAt(a, b, k);
    }
    forall k | k in a ensures a[k] == b[k] {
      assert SameAt(a, b, k);
    }
  }

  lemma OnlyFit(a: Snapshot, d: Diff, k: string)
    requires Fits(d, a)
    ensures var e := DiffOf(a, Patch(a, d));
            SameAt(d.added, e.added, k) && SameAt(d.removed, e.removed, k) && SameAt(d.changed, e.changed, k)
  {
    PatchAt(a, d, k);
  }

  /** The diff is the one and only fitting patch from `a` to `b`. */
  lemma DiffUnique(a: Snapshot, b: Snapshot, d: Diff)
    ensures Fits(d, a) && Patch(a, d) == b <==> d == DiffOf(a, b)
  {
    DiffFits(a, b);
    if Fits(d, a) && Patch(a, d) == b {
      var e := DiffOf(a, b);
      forall k ensures SameAt(d.added, e.added, k) && SameAt(d.removed, e.removed, k)
        && SameAt(d.changed, e.changed, k) {
        OnlyFit(a, d, k);
      }
      SameMap(d.added, e.added);
      SameMap(d.removed, e.removed);
      SameMap(d.changed, e.changed);
    }
  }

  /** Forward and back again, mirrored, disjoint, and empty exactly on equal snapshots. */
  lemma DiffRoundTrip(a: Snapshot, b: Snapshot)
    ensures Patch(a, DiffOf(a, b)) == b
    ensures Patch(b, Reverse(DiffOf(a, b))) == a
    ensures DiffOf(b, a) == Reverse(DiffOf(a, b))
    ensures DiffOf(a, b).added.Keys !! DiffOf(a, b).removed.Keys !! DiffOf(a, b).changed.Keys
    ensures DiffOf(a, b) == Diff(map[], map[], map[]) <==> a == b
  {
    DiffUnique(a, b, DiffOf(a, b));
    DiffUnique(b, a, DiffOf(b, a));
    assert DiffOf(b, a).changed == Reverse(DiffOf(a, b)).changed;
    if DiffOf(a, b) == Diff(map[], map[], map[]) {
      assert Patch(a, Diff(map[], map[], map[])) == a;
    }
  }
}
