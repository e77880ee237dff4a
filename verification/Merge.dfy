/** Merging two entries of one row (mergeValue, mergeUpdate, mergeEntriesForRow; changeset/concat.go). */
module Merge {
  import opened Values
  import opened Rows
  import opened Diff

  function MergeValue(one: Value, two: Value): Value {
    if !two.Undefined? then two else one
  }

  /** A missing list (nil) reads as undefined everywhere. */
  function At(vals: Row, i: nat): Value
    requires vals == [] || i < |vals|
  {
    if vals == [] then Undefined else vals[i]
  }

  ghost predicate ListFits(t: ChangesetTable, vals: Row) {
    vals == [] || |vals| == t.ColumnCount()
  }

  function OldAt(t: ChangesetTable, old1: Row, old2: Row, new1: Row, new2: Row, i: nat): Value
    requires i < t.ColumnCount() == |old1| == |new1| && ListFits(t, old2) && ListFits(t, new2)
  {
    var vOld, vNew := MergeValue(old1[i], At(old2, i)), MergeValue(new1[i], At(new2, i));
    if t.primaryKeys[i] || vOld != vNew then vOld else Undefined
  }

  function NewAt(t: ChangesetTable, old1: Row, old2: Row, new1: Row, new2: Row, i: nat): Value
    requires i < t.ColumnCount() == |old1| == |new1| && ListFits(t, old2) && ListFits(t, new2)
  {
    var vOld, vNew := MergeValue(old1[i], At(old2, i)), MergeValue(new1[i], At(new2, i));
    if t.primaryKeys[i] || vOld == vNew then Undefined else vNew
  }

  function UpdatedOld(t: ChangesetTable, old1: Row, old2: Row, new1: Row, new2: Row): (r: Row)
    requires t.ColumnCount() == |old1| == |new1| && ListFits(t, old2) && ListFits(t, new2)
    ensures |r| == t.ColumnCount()
  {
    seq(t.ColumnCount(), i requires 0 <= i < t.ColumnCount() => OldAt(t, old1, old2, new1, new2, i))
  }

  function UpdatedNew(t: ChangesetTable, old1: Row, old2: Row, new1: Row, new2: Row): (r: Row)
    requires t.ColumnCount() == |old1| == |new1| && ListFits(t, old2) && ListFits(t, new2)
    ensures |r| == t.ColumnCount()
  {
    seq(t.ColumnCount(), i requires 0 <= i < t.ColumnCount() => NewAt(t, old1, old2, new1, new2, i))
  }

  /** Some column off the key still differs after merging. */
  predicate Changes(t: ChangesetTable, old1: Row, old2: Row, new1: Row, new2: Row)
    requires t.ColumnCount() == |old1| == |new1| && ListFits(t, old2) && ListFits(t, new2)
  {
    exists i | 0 <= i < t.ColumnCount() ::
      !t.primaryKeys[i] && MergeValue(old1[i], At(old2, i)) != MergeValue(new1[i], At(new2, i))
  }

  /** The column loop of a merged update, and whether the update is still required. */
  method MergeUpdate(t: ChangesetTable, old1: Row, old2: Row, new1: Row, new2: Row)
    returns (required: bool, outputOld: Row, outputNew: Row)
    requires t.ColumnCount() == |old1| == |new1| && ListFits(t, old2) && ListFits(t, new2)
    ensures outputOld == UpdatedOld(t, old1, old2, new1, new2)
    ensures outputNew == UpdatedNew(t, old1, old2, new1, new2)
    ensures required <==> Changes(t, old1, old2, new1, new2)
  {
    required, outputOld, outputNew := false, [], [];
    for i := 0 to t.ColumnCount()
      invariant |outputOld| == |outputNew| == i
      invariant forall j | 0 <= j < i :: outputOld[j] == OldAt(t, old1, old2, new1, new2, j)
      invariant forall j | 0 <= j < i :: outputNew[j] == NewAt(t, old1, old2, new1, new2, j)
      invariant required <==> exists j | 0 <= j < i ::
                               !t.primaryKeys[j] && MergeValue(old1[j], At(old2, j)) != MergeValue(new1[j], At(new2, j))
    {
      var vOld, vNew := MergeValue(old1[i], At(old2, i)), MergeValue(new1[i], At(new2, i));
      if vOld != vNew && !t.primaryKeys[i] {
        required := true;
      }
      outputOld := outputOld + [if t.primaryKeys[i] || vOld != vNew then vOld else Undefined];
      outputNew := outputNew + [if t.primaryKeys[i] || vOld == vNew then Undefined else vNew];
    }
  }

  function Backfilled(old1: Row, old2: Row): (r: Row)
    requires |old1| == |old2|
    ensures |r| == |old1|
  {
    seq(|old1|, i requires 0 <= i < |old1| => if old1[i].Undefined? then old2[i] else old1[i])
  }

  datatype MergeResult = Modified(e: Entry) | Removed | Unsupported

  /** The newer entry `e2` merged into the older `e1`. A DELETE made from an UPDATE keeps its stale new values. */
  function MergeRows(e1: Entry, e2: Entry): (r: MergeResult)
    requires e1.WellShaped() && e2.WellShaped() && e1.table == e2.table
    ensures r.Modified? ==> r.e.WellShaped() && r.e.table == e1.table
  {
    match (e1.op, e2.op)
    case (Insert, Delete) => Removed
    case (Insert, Update) => Modified(e1.(newValues := Overlay(e1.newValues, e2.newValues)))
    case (Update, Update) =>
      if Changes(e1.table, e2.oldValues, e1.oldValues, e1.newValues, e2.newValues)
      then Modified(Entry(Update,
                          UpdatedOld(e1.table, e2.oldValues, e1.oldValues, e1.newValues, e2.newValues),
                          UpdatedNew(e1.table, e2.oldValues, e1.oldValues, e1.newValues, e2.newValues), e1.table))
      else Removed
    case (Update, Delete) => Modified(e1.(op := Delete, oldValues := Backfilled(e1.oldValues, e2.oldValues)))
    case (Delete, Insert) =>
      if Changes(e1.table, e1.oldValues, [], e2.newValues, [])
      then Modified(Entry(Update,
                          UpdatedOld(e1.table, e1.oldValues, [], e2.newValues, []),
                          UpdatedNew(e1.table, e1.oldValues, [], e2.newValues, []), e1.table))
      else Removed
    case _ => Unsupported
  }

  // ----- Merging composes the effects on the row -----

  /** Full-row INSERT and DELETE; UPDATE that names its key, never sets it, and has both values of a column or neither. */
  ghost predicate Mergeable(e: Entry) {
    && e.WellShaped()
    && KeyDefined(e.table.primaryKeys, e.KeyValues())
    && match e.op
       case Insert => AllDefined(e.newValues)
       case Delete => AllDefined(e.oldValues)
       case Update =>
         forall i | 0 <= i < |e.newValues| ::
           if e.table.primaryKeys[i] then e.newValues[i].Undefined?
           else e.oldValues[i].Undefined? == e.newValues[i].Undefined?
  }

  /** What merging must achieve: one entry for the two steps, or none when they cancel. */
  ghost predicate MergedFor(id: RowId, r: MergeResult, t: ChangesetTable, r0: Option<Row>, r2: Option<Row>) {
    match r
    case Modified(e) => Mergeable(e) && e.table == t && IdOf(e) == id && RowStep(e, r0) == Some(r2)
    case Removed => r0 == r2
    case Unsupported => false
  }

  /** Two steps on one row, one after the other. */
  ghost predicate Steps(id: RowId, e1: Entry, e2: Entry, r0: Option<Row>, r1: Option<Row>, r2: Option<Row>) {
    && Mergeable(e1) && Mergeable(e2) && e1.table == e2.table
    && IdOf(e1) == id == IdOf(e2)
    && OptionFits(id, e1.table, r0)
    && RowStep(e1, r0) == Some(r1) && RowStep(e2, r1) == Some(r2)
  }

  /** A stored row agrees with an entry's key values on the key. */
  lemma SameKeyColumns(id: RowId, t: ChangesetTable, vals: Row, row: Row)
    requires |vals| == t.ColumnCount() && id.key == KeyOf(t.primaryKeys, vals) && RowFits(id, t, row)
    ensures forall i | 0 <= i < |row| && t.primaryKeys[i] :: vals[i] == row[i]
  {
    forall i | 0 <= i < |row| && t.primaryKeys[i] ensures vals[i] == row[i] {
      assert KeyOf(t.primaryKeys, vals)[i] == KeyOf(t.primaryKeys, row)[i];
    }
  }

  lemma MergeInsertUpdate(id: RowId, e1: Entry, e2: Entry, r0: Option<Row>, r1: Option<Row>, r2: Option<Row>)
    requires Steps(id, e1, e2, r0, r1, r2) && e1.op == Insert && e2.op == Update
    ensures MergedFor(id, MergeRows(e1, e2), e1.table, r0, r2)
  {
    var e := MergeRows(e1, e2).e;
    assert e.newValues == r2.value;
    assert KeyOf(e.table.primaryKeys, e.newValues) == KeyOf(e.table.primaryKeys, e1.newValues);
  }

  lemma MergeUpdateUpdate(id: RowId, e1: Entry, e2: Entry, r0: Option<Row>, r1: Option<Row>, r2: Option<Row>)
    requires Steps(id, e1, e2, r0, r1, r2) && e1.op == Update && e2.op == Update
    ensures MergedFor(id, MergeRows(e1, e2), e1.table, r0, r2)
  {
    var t := e1.table;
    SameKeyColumns(id, t, e1.oldValues, r0.value);
    var o, n := UpdatedOld(t, e2.oldValues, e1.oldValues, e1.newValues, e2.newValues),
                UpdatedNew(t, e2.oldValues, e1.oldValues, e1.newValues, e2.newValues);
    forall i | 0 <= i < |n|
      ensures r2.value[i] == (if n[i].Undefined? then r0.value[i] else n[i])
      ensures t.primaryKeys[i] ==> o[i] == r0.value[i]
      ensures !t.primaryKeys[i] && !o[i].Undefined? ==> o[i] == r0.value[i]
    {
    }
    UpdateStep(id, t, o, n, r0.value, r2.value);
  }

  lemma MergeDeleteInsert(id: RowId, e1: Entry, e2: Entry, r0: Option<Row>, r1: Option<Row>, r2: Option<Row>)
    requires Steps(id, e1, e2, r0, r1, r2) && e1.op == Delete && e2.op == Insert
    ensures MergedFor(id, MergeRows(e1, e2), e1.table, r0, r2)
  {
    var t := e1.table;
    SameKeyColumns(id, t, e1.oldValues, r0.value);
    var o, n := UpdatedOld(t, e1.oldValues, [], e2.newValues, []), UpdatedNew(t, e1.oldValues, [], e2.newValues, []);
    forall i | 0 <= i < |n|
      ensures r2.value[i] == (if n[i].Undefined? then r0.value[i] else n[i])
      ensures t.primaryKeys[i] ==> o[i] == r0.value[i]
      ensures !t.primaryKeys[i] && !o[i].Undefined? ==> o[i] == r0.value[i]
    {
      assert t.primaryKeys[i] ==> KeyOf(t.primaryKeys, e1.oldValues)[i] == KeyOf(t.primaryKeys, e2.newValues)[i];
    }
    UpdateStep(id, t, o, n, r0.value, r2.value);
  }

  /** An UPDATE assembled from merged columns takes the row from x to y, or is not needed. */
  lemma UpdateStep(id: RowId, t: ChangesetTable, o: Row, n: Row, x: Row, y: Row)
    requires RowFits(id, t, x) && |o| == |n| == |x| == |y|
    requires forall i | 0 <= i < |n| :: y[i] == (if n[i].Undefined? then x[i] else n[i])
    requires forall i | 0 <= i < |n| && t.primaryKeys[i] :: o[i] == x[i] && n[i].Undefined?
    requires forall i | 0 <= i < |n| && !t.primaryKeys[i] :: (!o[i].Undefined? ==> o[i] == x[i]) && o[i].Undefined? == n[i].Undefined?
    ensures AnyDefined(n) ==>
              var e := Entry(Update, o, n, t);
              Mergeable(e) && IdOf(e) == id && RowStep(e, Some(x)) == Some(Some(y))
    ensures !AnyDefined(n) ==> x == y
  {
    assert KeyOf(t.primaryKeys, o) == KeyOf(t.primaryKeys, x);
    assert Overlay(x, n) == y;
  }

  lemma MergeUpdateDelete(id: RowId, e1: Entry, e2: Entry, r0: Option<Row>, r1: Option<Row>, r2: Option<Row>)
    requires Steps(id, e1, e2, r0, r1, r2) && e1.op == Update && e2.op == Delete
    ensures MergedFor(id, MergeRows(e1, e2), e1.table, r0, r2)
  {
    var e := MergeRows(e1, e2).e;
    SameKeyColumns(id, e1.table, e1.oldValues, r0.value);
    assert KeyOf(e.table.primaryKeys, e.oldValues) == KeyOf(e.table.primaryKeys, e1.oldValues);
  }

  /** Whatever two entries do to a row one after the other, their merge does at once; no pair is unsupported. */
  lemma MergeComposes(id: RowId, e1: Entry, e2: Entry, r0: Option<Row>, r1: Option<Row>, r2: Option<Row>)
    requires Steps(id, e1, e2, r0, r1, r2)
    ensures MergedFor(id, MergeRows(e1, e2), e1.table, r0, r2)
  {
    match (e1.op, e2.op)
    case (Insert, Update) => MergeInsertUpdate(id, e1, e2, r0, r1, r2);
    case (Update, Update) => MergeUpdateUpdate(id, e1, e2, r0, r1, r2);
    case (Update, Delete) => MergeUpdateDelete(id, e1, e2, r0, r1, r2);
    case (Delete, Insert) => MergeDeleteInsert(id, e1, e2, r0, r1, r2);
    case _ =>
  }

  // ----- Merging canonical entries gives the canonical entry -----

  lemma RowDiffMergeable(id: RowId, t: ChangesetTable, b: Option<Row>, m: Option<Row>)
    requires OptionFits(id, t, b) && OptionFits(id, t, m) && b != m
    ensures Mergeable(RowDiff(t, b, m).value)
  {
    RowDiffStep(id, t, b, m);
    if b.Some? && m.Some? {
      SameKeyColumns(id, t, b.value, m.value);
    }
  }

  /** The merge of r0 -> r1 and r1 -> r2 is, as written, the entry r0 -> r2; none when r0 = r2. */
  lemma MergeCanonical(id: RowId, t: ChangesetTable, e1: Entry, e2: Entry, r0: Option<Row>, r1: Option<Row>, r2: Option<Row>)
    requires OptionFits(id, t, r0) && OptionFits(id, t, r1) && OptionFits(id, t, r2)
    requires e1.WellShaped() && e2.WellShaped() && e1.table == e2.table == t
    requires RowDiff(t, r0, r1) == Some(e1.Written()) && RowDiff(t, r1, r2) == Some(e2)
    ensures match MergeRows(e1, e2)
            case Modified(e) => RowDiff(t, r0, r2) == Some(e.Written())
            case Removed => r0 == r2
            case Unsupported => false
  {
    RowDiffStep(id, t, r0, r1);
    RowDiffStep(id, t, r1, r2);
    match (e1.op, e2.op)
    case (Insert, Update) =>
      assert Overlay(e1.newValues, e2.newValues) == r2.value;
    case (Update, Update) =>
      SameKeyColumns(id, t, r0.value, r1.value);
      SameKeyColumns(id, t, r0.value, r2.value);
      CanonicalColumns(t, e2.oldValues, e1.oldValues, e1.newValues, e2.newValues, r0.value, r2.value);
    case (Update, Delete) =>
      assert Backfilled(e1.oldValues, e2.oldValues) == r0.value;
    case (Delete, Insert) =>
      SameKeyColumns(id, t, r0.value, r2.value);
      CanonicalColumns(t, e1.oldValues, [], e2.newValues, [], r0.value, r2.value);
    case _ =>
  }

  /** If merged columns differ exactly where the rows do, and then carry the rows' values, the result is canonical. */
  lemma CanonicalColumns(t: ChangesetTable, old1: Row, old2: Row, new1: Row, new2: Row, x: Row, y: Row)
    requires t.ColumnCount() == |old1| == |new1| == |x| == |y| && ListFits(t, old2) && ListFits(t, new2)
    requires forall i | 0 <= i < |x| && t.primaryKeys[i] :: x[i] == y[i] && MergeValue(old1[i], At(old2, i)) == x[i]
    requires forall i | 0 <= i < |x| && !t.primaryKeys[i] ::
               var vOld, vNew := MergeValue(old1[i], At(old2, i)), MergeValue(new1[i], At(new2, i));
               (vOld == vNew <==> x[i] == y[i]) && (x[i] != y[i] ==> vOld == x[i] && vNew == y[i])
    ensures UpdatedOld(t, old1, old2, new1, new2) == CanonicalOld(t.primaryKeys, x, y)
    ensures UpdatedNew(t, old1, old2, new1, new2) == CanonicalNew(x, y)
    ensures Changes(t, old1, old2, new1, new2) <==> x != y
  {
    if x != y {
      var i :| 0 <= i < |x| && x[i] != y[i];
      assert !t.primaryKeys[i];
    }
  }

  // ----- Which pairs are refused -----

  /** Some row state lets one entry apply and the other after it. */
  ghost predicate InTurn(e1: Entry, e2: Entry)
    requires e1.WellShaped() && e2.WellShaped()
  {
    exists r0 :: RowStep(e1, r0).Some? && RowStep(e2, RowStep(e1, r0).value).Some?
  }

  /** Some entries of the table with these operations apply in turn. */
  ghost predicate CanFollow(t: ChangesetTable, op1: Op, op2: Op) {
    exists f1: Entry, f2: Entry ::
      f1.WellShaped() && f2.WellShaped() && f1.table == t == f2.table && f1.op == op1 && f2.op == op2 && InTurn(f1, f2)
  }

  function Zeros(n: nat): (r: Row)
    ensures |r| == n
  {
    seq(n, i => Int(0))
  }

  function ZeroEntry(t: ChangesetTable, op: Op): (e: Entry)
    ensures e.WellShaped() && e.table == t && e.op == op
  {
    Entry(op, Zeros(t.ColumnCount()), Zeros(t.ColumnCount()), t)
  }

  lemma ZeroSteps(t: ChangesetTable)
    requires t.ColumnCount() > 0
    ensures var z := Some(Zeros(t.ColumnCount()));
            && RowStep(ZeroEntry(t, Insert), None) == Some(z)
            && RowStep(ZeroEntry(t, Update), z) == Some(z)
            && RowStep(ZeroEntry(t, Delete), z) == Some(None)
  {
    var z := Zeros(t.ColumnCount());
    assert !z[0].Undefined?;
    assert Overlay(z, z) == z && Stored(z) == z;
  }

  /** A pair is refused exactly when entries with its operations never apply one after the other, whatever the row and their values. */
  lemma UnsupportedIff(e1: Entry, e2: Entry)
    requires e1.WellShaped() && e2.WellShaped() && e1.table == e2.table && e1.table.ColumnCount() > 0
    ensures MergeRows(e1, e2).Unsupported? <==> !CanFollow(e1.table, e1.op, e2.op)
  {
    if !MergeRows(e1, e2).Unsupported? {
      var t := e1.table;
      var f1, f2 := ZeroEntry(t, e1.op), ZeroEntry(t, e2.op);
      var r0 := if e1.op == Insert then None else Some(Zeros(t.ColumnCount()));
      ZeroSteps(t);
      assert RowStep(f1, r0).Some? && RowStep(f2, RowStep(f1, r0).value).Some?;
      assert InTurn(f1, f2);
    }
  }
}
