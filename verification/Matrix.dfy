/**
 Matrix expansion: the axes of a launch request become every combination of one
 value per non-empty axis.
 */
module Matrix {
  import opened Wrappers
  import opened Text

  /** A JSON value as `metadataScalar` sees it; numbers carry their rendering. */
  datatype Value = Str(text: string) | Number(text: string) | Flag(on: bool) | NotScalar

  type Combination = map<string, string>

  /** An axis of the request: its field name, its name in a combination. */
  datatype Axis = Axis(input: string, output: string)

  const AXES: seq<Axis> := [
    Axis("platforms", "platform"), Axis("browsers", "browser"),
    Axis("devices", "device"), Axis("environments", "environment")
  ]

  const MAX_VALUES: int := 16

  function Scalar(v: Value): Option<string> {
    match v
    case Str(text) => Some(text)
    case Number(text) => Some(text)
    case Flag(on) => Some(if on then "1" else "")
    case NotScalar => None
  }

  /** The text a value contributes, if it contributes one. */
  function Entry(v: Value): Option<string> {
    var scalar := Scalar(v);
    if scalar.None? || Trim(scalar.value) == "" then None else Some(Trim(scalar.value))
  }

  function Entries(values: seq<Value>): (r: seq<Option<string>>)
    ensures |r| == |values|
  {
    seq(|values|, i requires 0 <= i < |values| => Entry(values[i]))
  }

  // --------------------------------------------------------- de-duplication

  /** First occurrences, in order. */
  function Unique(entries: seq<Option<string>>): (r: seq<string>)
    ensures |r| <= |entries|
  {
    if entries == [] then []
    else
      var before, last := Unique(entries[..|entries| - 1]), entries[|entries| - 1];
      if last.Some? && last.value !in before then before + [last.value] else before
  }

  ghost predicate NoRepeats<T>(s: seq<T>) {
    forall i, j :: 0 <= i < j < |s| ==> s[i] != s[j]
  }

  /** Exactly the present entries, once each. */
  lemma {:induction false} UniqueMeans(entries: seq<Option<string>>)
    ensures NoRepeats(Unique(entries))
    ensures forall t :: t in Unique(entries) <==> Some(t) in entries
  {
    if entries != [] {
      var shorter, last := entries[..|entries| - 1], entries[|entries| - 1];
      UniqueMeans(shorter);
      assert entries == shorter + [last];
    }
  }

  // ------------------------------------------------------------- product

  /** An axis that has values. */
  datatype Column = Column(name: string, values: seq<string>)

  function Names(columns: seq<Column>): set<string> {
    set column | column in columns :: column.name
  }

  ghost predicate Proper(columns: seq<Column>) {
    && (forall i, j :: 0 <= i < j < |columns| ==> columns[i].name != columns[j].name)
    && (forall i :: 0 <= i < |columns| ==> columns[i].values != [] && NoRepeats(columns[i].values))
  }

  function Branch(c: Combination, name: string, values: seq<string>): (r: seq<Combination>)
    ensures |r| == |values|
    ensures forall j :: 0 <= j < |values| ==> r[j] == c[name := values[j]]
  {
    seq(|values|, j requires 0 <= j < |values| => c[name := values[j]])
  }

  /** Each combination extended by each value, combinations varying slowest. */
  function Extend(combinations: seq<Combination>, name: string, values: seq<string>): (r: seq<Combination>)
    ensures |r| == |combinations| * |values|
  {
    if combinations == [] then []
    else
      Extend(combinations[..|combinations| - 1], name, values) + Branch(combinations[|combinations| - 1], name, values)
  }

  function Cross(columns: seq<Column>): seq<Combination> {
    if columns == [] then [map[]]
    else
      var last := columns[|columns| - 1];
      Extend(Cross(columns[..|columns| - 1]), last.name, last.values)
  }

  // ----------------------------------------------------- what it contains

  /** `c` picks one value of each column, and nothing else. */
  ghost predicate Picks(c: Combination, columns: seq<Column>) {
    && c.Keys == Names(columns)
    && forall i :: 0 <= i < |columns| ==> columns[i].name in c && c[columns[i].name] in columns[i].values
  }

  ghost predicate Extends(c: Combination, combinations: seq<Combination>, name: string, values: seq<string>) {
    name in c && c[name] in values && (c - {name}) in combinations
  }

  lemma {:induction false} ExtendMembers(combinations: seq<Combination>, name: string, values: seq<string>,
                                         c: Combination)
    requires forall b :: b in combinations ==> name !in b
    ensures c in Extend(combinations, name, values) <==> Extends(c, combinations, name, values)
  {
    if combinations != [] {
      var rest, last := combinations[..|combinations| - 1], combinations[|combinations| - 1];
      assert combinations == rest + [last];
      ExtendMembers(rest, name, values, c);
      BranchMembers(last, name, values, c);
    }
  }

  lemma BranchMembers(b: Combination, name: string, values: seq<string>, c: Combination)
    requires name !in b
    ensures c in Branch(b, name, values) <==> name in c && c[name] in values && c - {name} == b
  {
    var r := Branch(b, name, values);
    if c in r {
      var j :| 0 <= j < |r| && r[j] == c;
      assert c == b[name := values[j]];
      assert c - {name} == b;
    }
    if name in c && c[name] in values && c - {name} == b {
      var j :| 0 <= j < |values| && values[j] == c[name];
      assert r[j] == b[name := c[name]] == c;
    }
  }

  /** A pick is a value of the last column added to a pick of the others. */
  lemma PickSplits(c: Combination, columns: seq<Column>)
    requires columns != [] && Proper(columns)
    ensures var rest, last := columns[..|columns| - 1], columns[|columns| - 1];
            Picks(c, columns) <==> last.name in c && c[last.name] in last.values && Picks(c - {last.name}, rest)
  {
    var rest, last := columns[..|columns| - 1], columns[|columns| - 1];
    assert columns == rest + [last];
    NamesSplit(columns);
  }

  lemma NamesSplit(columns: seq<Column>)
    requires columns != [] && Proper(columns)
    ensures var rest, last := columns[..|columns| - 1], columns[|columns| - 1];
            Names(columns) == Names(rest) + {last.name} && last.name !in Names(rest)
  {
    var rest, last := columns[..|columns| - 1], columns[|columns| - 1];
    assert columns == rest + [last];
    assert last in columns;
    forall x ensures x in Names(columns) <==> x in Names(rest) + {last.name} {
      if x in Names(rest) {
        var column :| column in rest && column.name == x;
        assert column in columns;
      }
    }
  }

  /** The product is exactly the picks, none of them twice. */
  lemma {:induction false} CrossExact(columns: seq<Column>)
    requires Proper(columns)
    ensures NoRepeats(Cross(columns))
    ensures forall c :: c in Cross(columns) <==> Picks(c, columns)
  {
    if columns != [] {
      var rest, last := columns[..|columns| - 1], columns[|columns| - 1];
      CrossExact(rest);
      NamesSplit(columns);
      assert forall b :: b in Cross(rest) ==> last.name !in b;
      ExtendDistinct(Cross(rest), last.name, last.values);
      forall c ensures c in Cross(columns) <==> Picks(c, columns) {
        ExtendMembers(Cross(rest), last.name, last.values, c);
        PickSplits(c, columns);
      }
    } else {
      forall c ensures c in Cross(columns) <==> Picks(c, columns) {
        assert Names(columns) == {};
      }
    }
  }

  lemma {:induction false} ExtendDistinct(combinations: seq<Combination>, name: string, values: seq<string>)
    requires NoRepeats(combinations) && NoRepeats(values)
    requires forall c :: c in combinations ==> name !in c
    ensures NoRepeats(Extend(combinations, name, values))
  {
    if combinations != [] {
      var rest, last := combinations[..|combinations| - 1], combinations[|combinations| - 1];
      ExtendDistinct(rest, name, values);
      var a, b := Extend(rest, name, values), Branch(last, name, values);
      assert last !in rest;
      forall i, j | 0 <= i < j < |a + b| ensures (a + b)[i] != (a + b)[j] {
        if i < |a| <= j {
          assert a[i] in a && b[j - |a|] in b;
          ExtendMembers(rest, name, values, a[i]);
          BranchMembers(last, name, values, b[j - |a|]);
        } else if |a| <= i {
          assert b[i - |a|][name] == values[i - |a|] && b[j - |a|][name] == values[j - |a|];
        }
      }
    }
  }

  /** The number of combinations is the product of the column sizes. */
  function Volume(columns: seq<Column>): nat {
    if columns == [] then 1 else Volume(columns[..|columns| - 1]) * |columns[|columns| - 1].values|
  }

  lemma {:induction false} CrossSize(columns: seq<Column>)
    ensures |Cross(columns)| == Volume(columns)
  {
    if columns != [] {
      CrossSize(columns[..|columns| - 1]);
    }
  }

  function Power16(n: nat): nat {
    if n == 0 then 1 else 16 * Power16(n - 1)
  }

  lemma {:induction false} VolumeBound(columns: seq<Column>)
    requires forall i :: 0 <= i < |columns| ==> 0 < |columns[i].values| <= MAX_VALUES
    ensures 0 < Volume(columns) <= Power16(|columns|)
  {
    if columns != [] {
      var rest, n := columns[..|columns| - 1], |columns[|columns| - 1].values|;
      VolumeBound(rest);
      Multiply(1, Volume(rest), n);
      Multiply(Volume(rest), Power16(|rest|), n);
      assert Power16(|rest|) * n <= 16 * Power16(|rest|);
    }
  }

  lemma Multiply(x: nat, y: nat, n: nat)
    requires x <= y
    ensures x * n <= y * n
  {}

  // ------------------------------------------------------- request to columns

  type Request = map<string, seq<Value>>

  function Values(matrix: Request, axis: Axis): seq<Value> {
    if axis.input in matrix then matrix[axis.input] else []
  }

  function AxisValues(matrix: Request, axis: Axis): seq<string> {
    Unique(Entries(Values(matrix, axis)))
  }

  /** The axes that have values, in their order. */
  function Columns(matrix: Request, axes: seq<Axis>): seq<Column> {
    if axes == [] then []
    else
      var before, last := Columns(matrix, axes[..|axes| - 1]), AxisColumn(matrix, axes[|axes| - 1]);
      if last.values == [] then before else before + [last]
  }

  function AxisColumn(matrix: Request, axis: Axis): Column {
    Column(axis.output, AxisValues(matrix, axis))
  }

  /** The columns are the non-empty axes with their distinct trimmed values. */
  lemma {:induction false} ColumnsMeans(matrix: Request, axes: seq<Axis>, column: Column)
    ensures column in Columns(matrix, axes) <==>
              column.values != [] && exists axis :: axis in axes && column == AxisColumn(matrix, axis)
  {
    if axes != [] {
      var shorter, last := axes[..|axes| - 1], axes[|axes| - 1];
      assert axes == shorter + [last];
      ColumnsMeans(matrix, shorter, column);
    }
  }

  lemma {:induction false} ColumnCount(matrix: Request, axes: seq<Axis>)
    ensures |Columns(matrix, axes)| <= |axes|
  {
    if axes != [] {
      ColumnCount(matrix, axes[..|axes| - 1]);
    }
  }

  ghost predicate DistinctOutputs(axes: seq<Axis>) {
    forall i, j :: 0 <= i < j < |axes| ==> axes[i].output != axes[j].output
  }

  lemma {:induction false} ColumnsProper(matrix: Request, axes: seq<Axis>)
    requires DistinctOutputs(axes)
    ensures Proper(Columns(matrix, axes))
  {
    if axes != [] {
      var shorter, last := axes[..|axes| - 1], axes[|axes| - 1];
      ColumnsProper(matrix, shorter);
      var before := Columns(matrix, shorter);
      UniqueMeans(Entries(Values(matrix, last)));
      forall j | 0 <= j < |before| ensures before[j].name != last.output {
        ColumnsMeans(matrix, shorter, before[j]);
        var axis :| axis in shorter && before[j] == AxisColumn(matrix, axis);
        var i :| 0 <= i < |shorter| && shorter[i] == axis;
        assert axes[i] == axis;
      }
    }
  }

  lemma AxisNamesDiffer()
    ensures DistinctOutputs(AXES)
  {
    assert AXES[0].output[0] == 'p' && AXES[1].output[0] == 'b' && AXES[2].output[0] == 'd' && AXES[3].output[0] == 'e';
  }

  predicate Oversized(matrix: Request, axes: seq<Axis>) {
    exists i :: 0 <= i < |axes| && |Values(matrix, axes[i])| > MAX_VALUES
  }

  /** `None` is the rejection of an axis with more than 16 values; no value at all gives no combination. */
  function Expansion(matrix: Request): Option<seq<Combination>> {
    var columns := Columns(matrix, AXES);
    if Oversized(matrix, AXES) then None else if columns == [] then Some([]) else Some(Cross(columns))
  }

  lemma ColumnSizes(matrix: Request, axes: seq<Axis>)
    requires !Oversized(matrix, axes)
    ensures forall j :: 0 <= j < |Columns(matrix, axes)| ==> 0 < |Columns(matrix, axes)[j].values| <= MAX_VALUES
  {
    var columns := Columns(matrix, axes);
    forall j | 0 <= j < |columns| ensures 0 < |columns[j].values| <= MAX_VALUES {
      ColumnsMeans(matrix, axes, columns[j]);
      var axis :| axis in axes && columns[j] == AxisColumn(matrix, axis);
      var i :| 0 <= i < |axes| && axes[i] == axis;
      assert |Values(matrix, axes[i])| <= MAX_VALUES;
    }
  }

  /** The expansion is exactly the cartesian product of the non-empty axes, without repetition. */
  lemma ExpansionExact(matrix: Request)
    ensures Expansion(matrix).None? <==> Oversized(matrix, AXES)
    ensures !Oversized(matrix, AXES) ==>
              var r, columns := Expansion(matrix).value, Columns(matrix, AXES);
              && Proper(columns)
              && NoRepeats(r)
              && (forall c :: c in r <==> columns != [] && Picks(c, columns))
              && (columns == [] <==> r == [])
              && (columns != [] ==> |r| == Volume(columns) <= 65536)
  {
    AxisNamesDiffer();
    if !Oversized(matrix, AXES) {
      CrossOfAxes(matrix, AXES);
      Powers(|Columns(matrix, AXES)|);
    }
  }

  lemma CrossOfAxes(matrix: Request, axes: seq<Axis>)
    requires DistinctOutputs(axes) && !Oversized(matrix, axes)
    ensures var columns := Columns(matrix, axes);
            && Proper(columns) && |columns| <= |axes|
            && NoRepeats(Cross(columns))
            && (forall c :: c in Cross(columns) <==> Picks(c, columns))
            && 0 < |Cross(columns)| == Volume(columns) <= Power16(|columns|)
  {
    var columns := Columns(matrix, axes);
    ColumnCount(matrix, axes);
    ColumnsProper(matrix, axes);
    CrossExact(columns);
    CrossSize(columns);
    ColumnSizes(matrix, axes);
    VolumeBound(columns);
  }

  lemma Powers(n: nat)
    requires n <= 4
    ensures Power16(n) <= 65536
  {
    assert Power16(1) == 16 && Power16(2) == 256 && Power16(3) == 4096 && Power16(4) == 65536;
  }

  /** One value of every non-empty axis under the axis name, and no other key. */
  ghost predicate OnePerAxis(c: Combination, matrix: Request, axes: seq<Axis>) {
    && c.Keys == (set axis | axis in axes && AxisValues(matrix, axis) != [] :: axis.output)
    && forall axis :: axis in axes && AxisValues(matrix, axis) != [] ==>
         axis.output in c && c[axis.output] in AxisValues(matrix, axis)
  }

  lemma NamesByAxis(matrix: Request, axes: seq<Axis>)
    ensures Names(Columns(matrix, axes)) == set axis | axis in axes && AxisValues(matrix, axis) != [] :: axis.output
  {
    var columns := Columns(matrix, axes);
    var outputs := set axis | axis in axes && AxisValues(matrix, axis) != [] :: axis.output;
    forall name | name in Names(columns) ensures name in outputs {
      var column :| column in columns && column.name == name;
      ColumnsMeans(matrix, axes, column);
    }
    forall name | name in outputs ensures name in Names(columns) {
      var axis :| axis in axes && AxisValues(matrix, axis) != [] && axis.output == name;
      ColumnsMeans(matrix, axes, AxisColumn(matrix, axis));
    }
  }

  lemma PicksByAxis(c: Combination, matrix: Request, axes: seq<Axis>)
    ensures Picks(c, Columns(matrix, axes)) <==> OnePerAxis(c, matrix, axes)
  {
    var columns := Columns(matrix, axes);
    NamesByAxis(matrix, axes);
    if Picks(c, columns) {
      forall axis | axis in axes && AxisValues(matrix, axis) != []
        ensures axis.output in c && c[axis.output] in AxisValues(matrix, axis)
      {
        ColumnsMeans(matrix, axes, AxisColumn(matrix, axis));
        var j :| 0 <= j < |columns| && columns[j] == AxisColumn(matrix, axis);
      }
    } else if OnePerAxis(c, matrix, axes) {
      forall j | 0 <= j < |columns| ensures columns[j].name in c && c[columns[j].name] in columns[j].values {
        ColumnsMeans(matrix, axes, columns[j]);
      }
    }
  }

  /** A combination is produced exactly when it picks one trimmed, non-empty scalar from every axis that has one. */
  lemma ExpansionByAxis(matrix: Request, c: Combination)
    requires !Oversized(matrix, AXES)
    ensures c in Expansion(matrix).value <==> c != map[] && OnePerAxis(c, matrix, AXES)
    ensures forall axis, t :: t in AxisValues(matrix, axis) <==> Some(t) in Entries(Values(matrix, axis))
  {
    var columns := Columns(matrix, AXES);
    ExpansionExact(matrix);
    PicksByAxis(c, matrix, AXES);
    if columns == [] {
      assert Names(columns) == {};
    } else {
      assert columns[0] in columns && columns[0].name in Names(columns);
    }
    forall axis ensures forall t :: t in AxisValues(matrix, axis) <==> Some(t) in Entries(Values(matrix, axis)) {
      UniqueMeans(Entries(Values(matrix, axis)));
    }
  }

  /**
   The limit counts values as sent: one value repeated more than 16 times is rejected, though it is one distinct
   value.
   */
  lemma LimitCountsRepeats(value: Value, n: nat)
    requires Entry(value).Some? && n > 0
    ensures var matrix := map["platforms" := seq(n, _ => value)];
            && AxisValues(matrix, AXES[0]) == [Entry(value).value]
            && (Expansion(matrix).None? <==> n > MAX_VALUES)
  {
    var values := seq(n, _ => value);
    var matrix := map["platforms" := values];
    assert Values(matrix, AXES[0]) == values;
    OneRepeated(Entries(values), Entry(value).value);
    AxisInputsDiffer();
    assert Oversized(matrix, AXES) <==> n > MAX_VALUES;
  }

  lemma AxisInputsDiffer()
    ensures forall i :: 0 < i < |AXES| ==> AXES[i].input != "platforms"
  {
    assert AXES[1].input[0] == 'b' && AXES[2].input[0] == 'd' && AXES[3].input[0] == 'e';
  }

  lemma {:induction false} OneRepeated(entries: seq<Option<string>>, text: string)
    requires entries != [] && forall i :: 0 <= i < |entries| ==> entries[i] == Some(text)
    ensures Unique(entries) == [text]
  {
    if |entries| > 1 {
      OneRepeated(entries[..|entries| - 1], text);
    }
  }

  // ----------------------------------------------------------- the loops

  method Deduplicate(values: seq<Value>) returns (unique: seq<string>)
    ensures unique == Unique(Entries(values))
  {
    unique := [];
    var seen: set<string> := {};
    for k := 0 to |values|
      invariant unique == Unique(Entries(values)[..k])
      invariant forall t :: t in seen <==> t in unique
    {
      var scalar := Scalar(values[k]);
      var text := if scalar.Some? then Trim(scalar.value) else "";
      assert Entries(values)[..k + 1][..k] == Entries(values)[..k];
      if scalar.Some? && text != "" && text !in seen {
        seen := seen + {text};
        unique := unique + [text];
      }
    }
    assert Entries(values)[..|values|] == Entries(values);
  }

  method Multiplied(combinations: seq<Combination>, name: string, values: seq<string>) returns (next: seq<Combination>)
    ensures next == Extend(combinations, name, values)
  {
    next := [];
    for i := 0 to |combinations|
      invariant next == Extend(combinations[..i], name, values)
    {
      ghost var base := next;
      for j := 0 to |values|
        invariant next == base + Branch(combinations[i], name, values)[..j]
      {
        next := next + [combinations[i][name := values[j]]];
      }
      assert combinations[..i + 1][..i] == combinations[..i];
      assert Branch(combinations[i], name, values)[..|values|] == Branch(combinations[i], name, values);
    }
    assert combinations[..|combinations|] == combinations;
  }

  method MatrixCombinations(matrix: Request) returns (combinations: seq<Combination>, invalid: bool)
    ensures invalid == Expansion(matrix).None?
    ensures combinations == if invalid then [] else Expansion(matrix).value
  {
    combinations, invalid := Combine(matrix, AXES);
  }

  lemma ColumnsStep(matrix: Request, axes: seq<Axis>, k: nat)
    requires k < |axes|
    ensures var before, after := Columns(matrix, axes[..k]), Columns(matrix, axes[..k + 1]);
            var column := AxisColumn(matrix, axes[k]);
            if column.values == [] then after == before
            else |after| == |before| + 1 && Cross(after) == Extend(Cross(before), column.name, column.values)
  {
    assert axes[..k + 1][..k] == axes[..k];
    var before, column := Columns(matrix, axes[..k]), AxisColumn(matrix, axes[k]);
    assert (before + [column])[..|before|] == before;
  }

  lemma OversizedStep(matrix: Request, axes: seq<Axis>, k: nat)
    requires k < |axes| && !Oversized(matrix, axes[..k])
    ensures Oversized(matrix, axes[..k + 1]) <==> |Values(matrix, axes[k])| > MAX_VALUES
    ensures |Values(matrix, axes[k])| > MAX_VALUES ==> Oversized(matrix, axes)
  {
    var shorter, longer := axes[..k], axes[..k + 1];
    assert forall i :: 0 <= i < k ==> shorter[i] == longer[i];
    if |Values(matrix, axes[k])| > MAX_VALUES {
      assert longer[k] == axes[k];
    }
  }

  /** The loop over the axes. */
  method Combine(matrix: Request, axes: seq<Axis>) returns (combinations: seq<Combination>, invalid: bool)
    ensures invalid == Oversized(matrix, axes)
    ensures combinations == if invalid || Columns(matrix, axes) == [] then [] else Cross(Columns(matrix, axes))
  {
    combinations := [map[]];
    var axisCount := 0;
    for k := 0 to |axes|
      invariant combinations == Cross(Columns(matrix, axes[..k]))
      invariant !Oversized(matrix, axes[..k])
      invariant axisCount == |Columns(matrix, axes[..k])|
    {
      var values := Values(matrix, axes[k]);
      OversizedStep(matrix, axes, k);
      if |values| > 16 {
        return [], true;
      }
      var unique := Deduplicate(values);
      ColumnsStep(matrix, axes, k);
      if unique != [] {
        axisCount := axisCount + 1;
        combinations := Multiplied(combinations, axes[k].output, unique);
      }
    }
    assert axes[..|axes|] == axes;
    if axisCount == 0 {
      return [], false;
    }
    return combinations, false;
  }

  // ---------------------------------------------------- values and their order

  /** A value counts with its trimmed text: text and numbers as they are, true as 1, false and anything else not. */
  lemma EntryExact(v: Value, text: string)
    ensures Entry(v) == Some(text) <==>
              && text != ""
              && (|| (v.Str? && text == Trim(v.text))
                  || (v.Number? && text == Trim(v.text))
                  || (v.Flag? && v.on && text == "1"))
  {
    assert TrimLeft("1") == "1" && TrimRight("1") == "1";
    assert Trim("") == "";
  }

  /** The first position of a text among the entries. */
  ghost predicate FirstAt(entries: seq<Option<string>>, text: string, k: nat) {
    k < |entries| && entries[k] == Some(text) && Some(text) !in entries[..k]
  }

  /** De-duplicated values come in the order of their first occurrence. */
  lemma {:induction false} UniqueInOrder(entries: seq<Option<string>>, i: nat, j: nat, a: nat, b: nat)
    requires i < j < |Unique(entries)|
    requires FirstAt(entries, Unique(entries)[i], a) && FirstAt(entries, Unique(entries)[j], b)
    ensures a < b
  {
    var n := |entries| - 1;
    var shorter, last, u := entries[..n], entries[n], Unique(entries);
    UniqueMeans(shorter);
    assert entries == shorter + [last];
    var before := Unique(shorter);
    assert u[i] in before;
    EarlierFirst(entries, u[i], a);
    if j < |before| {
      assert u[j] in before;
      EarlierFirst(entries, u[j], b);
      UniqueInOrder(shorter, i, j, a, b);
    } else if b < n {
      assert shorter[b] == Some(u[j]);
    }
  }

  lemma EarlierFirst(entries: seq<Option<string>>, text: string, k: nat)
    requires entries != [] && FirstAt(entries, text, k) && Some(text) in entries[..|entries| - 1]
    ensures FirstAt(entries[..|entries| - 1], text, k)
  {
    var shorter := entries[..|entries| - 1];
    if k < |shorter| {
      assert shorter[..k] == entries[..k];
    }
  }

  /** Combinations come in order, each with all values of the new axis before the next. */
  lemma {:induction false} ExtendInOrder(combinations: seq<Combination>, name: string, values: seq<string>, i: nat,
                                         j: nat)
    requires i < |combinations| && j < |values|
    ensures 0 <= i * |values| + j < |Extend(combinations, name, values)|
    ensures Extend(combinations, name, values)[i * |values| + j] == combinations[i][name := values[j]]
  {
    var rest, n := combinations[..|combinations| - 1], |values|;
    assert Extend(combinations, name, values) ==
           Extend(rest, name, values) + Branch(combinations[|rest|], name, values);
    if i < |rest| {
      ExtendInOrder(rest, name, values, i, j);
      assert rest[i] == combinations[i];
    }
  }

  /** Each axis is read from its field and shown under its singular. */
  lemma AxesArePlurals(i: nat)
    requires i < |AXES|
    ensures AXES[i].input == AXES[i].output + "s"
    ensures AXES[i].output == ["platform", "browser", "device", "environment"][i]
  {}
}
