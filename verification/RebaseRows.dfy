/** One row of the three-way merge, and what the rewritten entry does to it. */
module RebaseRows {
  import opened Values
  import opened Rows
  import opened Diff
  import opened KeyMapping
  import opened RebaseRules

  // ----- Integer keys -----

  ghost predicate OneKey(pks: seq<bool>) {
    true in pks && forall i | 0 <= i < |pks| && pks[i] :: i == KeyColumn(pks)
  }

  function KeyId(t: ChangesetTable, k: int): RowId {
    RowId(t.name, seq(t.ColumnCount(), i requires 0 <= i < t.ColumnCount() => if t.primaryKeys[i] then Int(k) else Undefined))
  }

  /** Row y is row x with key n. */
  ghost predicate WithKey(pks: seq<bool>, x: Row, n: int, y: Row) {
    |x| == |y| == |pks| && forall i | 0 <= i < |pks| :: y[i] == if pks[i] then Int(n) else x[i]
  }

  lemma WithKeyUnique(pks: seq<bool>, x: Row, n: int, y: Row, z: Row)
    requires WithKey(pks, x, n, y) && WithKey(pks, x, n, z)
    ensures y == z
  {
  }

  ghost predicate IntKeyed(t: ChangesetTable, row: Row)
    requires |row| == t.ColumnCount() && true in t.primaryKeys
  {
    row[KeyColumn(t.primaryKeys)].Int?
  }

  /** Every table has one key column and every key is an integer. */
  ghost predicate IntKeys(s: Schema, db: Db) {
    && (forall t | t in s :: OneKey(s[t].primaryKeys))
    && (forall id | id in db && id.table in s && |db[id]| == s[id.table].ColumnCount() :: IntKeyed(s[id.table], db[id]))
  }

  lemma KeyIdInjective(t: ChangesetTable, k: int, l: int)
    requires true in t.primaryKeys && KeyId(t, k) == KeyId(t, l)
    ensures k == l
  {
    assert KeyId(t, k).key[KeyColumn(t.primaryKeys)] == KeyId(t, l).key[KeyColumn(t.primaryKeys)];
  }

  lemma RowHasKeyId(id: RowId, t: ChangesetTable, row: Row)
    requires OneKey(t.primaryKeys) && RowFits(id, t, row) && IntKeyed(t, row)
    ensures id == KeyId(t, row[KeyColumn(t.primaryKeys)].n)
  {
    assert id.key == KeyId(t, row[KeyColumn(t.primaryKeys)].n).key;
  }

  /** The row of key k in table t: what an entry between two states of it is called. */
  lemma EntryKey(s: Schema, b: Db, m: Db, e: Entry)
    requires ValidSchema(s) && IntKeys(s, b) && IntKeys(s, m) && e.WellShaped() && IsRowDiff(s, b, m, IdOf(e), e)
    ensures EntryFits(s, e) && OneKey(e.table.primaryKeys) && IdOf(e) == KeyId(e.table, Pk(e))
    ensures e.KeyValues()[KeyColumn(e.table.primaryKeys)].Int?
  {
    var id := IdOf(e);
    IsRowDiffFacts(s, b, m, id, e);
    var r := if id in b then b[id] else m[id];
    RowHasKeyId(id, e.table, r);
    assert KeyOf(e.table.primaryKeys, e.KeyValues())[KeyColumn(e.table.primaryKeys)] == id.key[KeyColumn(e.table.primaryKeys)];
  }

  // ----- The merge of one row -----

  /** Cell by cell: theirs where theirs changed the base, ours elsewhere. */
  function MergeCells(b: Row, t: Row, o: Row): (r: Row)
    requires |b| == |t| == |o|
    ensures |r| == |b|
  {
    seq(|b|, i requires 0 <= i < |b| => if t[i] != b[i] then t[i] else o[i])
  }

  ghost predicate SameWidth(b: Option<Row>, t: Option<Row>, o: Option<Row>) {
    b.Some? && t.Some? && o.Some? ==> |b.value| == |t.value| == |o.value|
  }

  /** A base row: gone if either side deleted it, otherwise merged by cells. A row that was not in the base is theirs'. */
  function MergeRow(b: Option<Row>, t: Option<Row>, o: Option<Row>): Option<Row>
    requires SameWidth(b, t, o)
  {
    if b.None? then t
    else if t.None? || o.None? then None
    else Some(MergeCells(b.value, t.value, o.value))
  }

  /** What theirs recorded about the row, given its base and their state. */
  ghost predicate Knows(ti: TableInfo, k: int, b: Option<Row>, t: Option<Row>) {
    && (k in ti.inserted <==> b.None? && t.Some?)
    && (k in ti.deleted <==> b.Some? && t.None?)
    && (k in ti.updated <==> b.Some? && t.Some? && b != t)
    && (b.Some? && t.Some? && b != t ==> |b.value| == |t.value| && ti.updated[k] == CanonicalNew(b.value, t.value))
  }

  lemma PatchedIsTheirChange(tbl: ChangesetTable, ti: TableInfo, ids: map<int, int>, k: int, b: Row, t: Row)
    requires Knows(ti, k, Some(b), Some(t)) && k !in ids && |b| == |t| == tbl.ColumnCount()
    ensures Patched(ti, ids, k, tbl.ColumnCount()) == CanonicalNew(b, t)
  {
  }

  /** Our update of a row both sides kept. */
  lemma UpdateMergesRow(id: RowId, tbl: ChangesetTable, ids: map<int, int>, b: Row, t: Row, o: Row)
    requires true in tbl.primaryKeys && RowFits(id, tbl, b) && RowFits(id, tbl, t) && RowFits(id, tbl, o) && b != o
    requires var e := RowDiff(tbl, Some(b), Some(o)).value; e.WellShaped() && Pk(e) !in ids
    ensures var e := RowDiff(tbl, Some(b), Some(o)).value;
            var out := Entry(Update, UpdatedOld(e, CanonicalNew(b, t), ids), UpdatedNew(e, CanonicalNew(b, t)), tbl);
            if AnyDefined(out.newValues)
            then out.WellShaped() && KeepsKey(out) && IdOf(out) == id && RowStep(out, Some(t)) == Some(Some(MergeCells(b, t, o)))
            else MergeCells(b, t, o) == t
  {
    var pks := tbl.primaryKeys;
    var e := RowDiff(tbl, Some(b), Some(o)).value;
    var out := Entry(Update, UpdatedOld(e, CanonicalNew(b, t), ids), UpdatedNew(e, CanonicalNew(b, t)), tbl);
    forall i | 0 <= i < |pks| && pks[i] ensures b[i] == t[i] == o[i] {
      assert KeyOf(pks, b)[i] == KeyOf(pks, t)[i] == KeyOf(pks, o)[i];
    }
    assert KeyOf(pks, out.oldValues) == KeyOf(pks, b);
    if AnyDefined(out.newValues) {
      assert Overlay(t, out.newValues) == MergeCells(b, t, o);
    } else {
      forall i | 0 <= i < |b| ensures MergeCells(b, t, o)[i] == t[i] {
        assert out.newValues[i].Undefined?;
      }
    }
  }

  /** Our deletion of a row theirs kept. */
  lemma DeleteMergesRow(id: RowId, tbl: ChangesetTable, b: Row, t: Row, k: int)
    requires OneKey(tbl.primaryKeys) && RowFits(id, tbl, b) && RowFits(id, tbl, t) && id == KeyId(tbl, k)
    ensures var e := Entry(Delete, b, [], tbl);
            var out := Entry(Delete, DeletedOld(e, k, CanonicalNew(b, t)), [], tbl);
            out.WellShaped() && KeepsKey(out) && IdOf(out) == id && RowStep(out, Some(t)) == Some(None)
  {
    var e := Entry(Delete, b, [], tbl);
    var old_ := DeletedOld(e, k, CanonicalNew(b, t));
    assert KeyOf(tbl.primaryKeys, old_) == id.key;
    forall i | 0 <= i < |b| && !tbl.primaryKeys[i] ensures old_[i] == t[i] {
    }
  }

  /** Our insert under its new key. */
  lemma InsertMergesRow(tbl: ChangesetTable, o: Row, k: int)
    requires OneKey(tbl.primaryKeys) && |o| == tbl.ColumnCount() && AllDefined(o)
    ensures var out := Entry(Insert, [], Rekeyed(tbl.primaryKeys, o, k), tbl);
            && out.WellShaped() && KeepsKey(out) && IdOf(out) == KeyId(tbl, k)
            && AllDefined(out.newValues)
            && RowStep(out, None) == Some(Some(Rekeyed(tbl.primaryKeys, o, k)))
            && forall r: Row :: RowStep(out, Some(r)).None?
  {
    var out := Entry(Insert, [], Rekeyed(tbl.primaryKeys, o, k), tbl);
    assert KeyOf(tbl.primaryKeys, out.newValues) == KeyId(tbl, k).key;
  }

  // ----- Rewritten changes of one row -----

  /** An UPDATE or DELETE of ours: kept, it takes theirs' row to the merged row; dropped, theirs' row is the merged row. */
  ghost predicate RowMerged(id: RowId, tbl: ChangesetTable, op: Op, out: Option<Entry>, b: Option<Row>, t: Option<Row>, o: Option<Row>) {
    SameWidth(b, t, o) &&
    match out
    case None => MergeRow(b, t, o) == t
    case Some(x) =>
      && x.WellShaped() && KeepsKey(x) && x.op == op && x.table == tbl && IdOf(x) == id
      && t.Some? && RowStep(x, t) == Some(MergeRow(b, t, o))
  }

  lemma UntouchedMerged(id: RowId, tbl: ChangesetTable, e: Entry, b: Option<Row>, o: Option<Row>)
    requires OptionFits(id, tbl, b) && OptionFits(id, tbl, o) && RowDiff(tbl, b, o) == Some(e) && e.op != Insert
    ensures RowMerged(id, tbl, e.op, Some(e), b, b, o)
  {
    RowDiffStep(id, tbl, b, o);
    if o.Some? {
      assert MergeCells(b.value, b.value, o.value) == o.value;
    }
  }

  /** The mapping of a key of ours that is not an insert: invalid exactly when theirs deleted the row. */
  ghost predicate ChangeKeyOk(ti: TableInfo, ids: map<int, int>, k: int) {
    if k in ti.deleted then k in ids && ids[k] == INVALID_FID else k !in ids
  }

  lemma UpdateMerged(id: RowId, tbl: ChangesetTable, e: Entry, ti: TableInfo, ids: map<int, int>, b: Option<Row>, t: Option<Row>, o: Option<Row>)
    requires OptionFits(id, tbl, b) && OptionFits(id, tbl, t) && OptionFits(id, tbl, o)
    requires RowDiff(tbl, b, o) == Some(e) && e.op == Update && e.WellShaped() && OneKey(tbl.primaryKeys) && InfoFits(ti, tbl)
    requires Knows(ti, Pk(e), b, t) && ChangeKeyOk(ti, ids, Pk(e))
    ensures RowMerged(id, tbl, Update, RebasedUpdate(e, ids, ti).entry, b, t, o)
  {
    if t.Some? {
      PatchedIsTheirChange(tbl, ti, ids, Pk(e), b.value, t.value);
      UpdateMergesRow(id, tbl, ids, b.value, t.value, o.value);
    }
  }

  lemma DeleteMerged(id: RowId, tbl: ChangesetTable, e: Entry, ti: TableInfo, ids: map<int, int>, b: Option<Row>, t: Option<Row>, o: Option<Row>)
    requires OptionFits(id, tbl, b) && OptionFits(id, tbl, t) && OptionFits(id, tbl, o)
    requires RowDiff(tbl, b, o) == Some(e) && e.op == Delete && e.WellShaped() && OneKey(tbl.primaryKeys) && InfoFits(ti, tbl)
    requires id == KeyId(tbl, Pk(e))
    requires Knows(ti, Pk(e), b, t) && ChangeKeyOk(ti, ids, Pk(e))
    ensures RowMerged(id, tbl, Delete, RebasedDelete(e, ids, ti), b, t, o)
  {
    if t.Some? {
      PatchedIsTheirChange(tbl, ti, ids, Pk(e), b.value, t.value);
      DeleteMergesRow(id, tbl, b.value, t.value, Pk(e));
    }
  }

  /** An INSERT of ours always survives, as our row under its new key. */
  ghost predicate InsertMoved(newId: RowId, tbl: ChangesetTable, row: Row, k: int, out: Entry)
    requires |row| == tbl.ColumnCount()
  {
    && out.WellShaped() && KeepsKey(out) && out.op == Insert && out.table == tbl && IdOf(out) == newId
    && newId == KeyId(tbl, k)
    && RowStep(out, None) == Some(Some(Rekeyed(tbl.primaryKeys, row, k)))
    && forall r: Row :: RowStep(out, Some(r)).None?
  }

  /** Passed through unchanged, an insert goes under its own key. */
  lemma InsertKept(id: RowId, tbl: ChangesetTable, row: Row)
    requires OneKey(tbl.primaryKeys) && RowFits(id, tbl, row) && IntKeyed(tbl, row)
    ensures var k := row[KeyColumn(tbl.primaryKeys)].n;
            Rekeyed(tbl.primaryKeys, row, k) == row && InsertMoved(id, tbl, row, k, Entry(Insert, [], row, tbl))
  {
    var k := row[KeyColumn(tbl.primaryKeys)].n;
    assert Rekeyed(tbl.primaryKeys, row, k) == row;
    InsertMergesRow(tbl, row, k);
    RowHasKeyId(id, tbl, row);
  }
}
