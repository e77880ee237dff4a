/** The rebased changeset is canonical: it is the changeset from theirs to the merged database. */
module RebaseCanonical {
  import opened Values
  import opened Rows
  import opened Diff
  import opened KeyMapping
  import opened RebaseRules
  import opened RebaseRows
  import opened RebaseKeys
  import opened RebaseMerge

  // ----- One entry -----

  /** What a diff says between theirs' row and the merge of the three. */
  ghost function MergeDiff(tbl: ChangesetTable, b: Option<Row>, t: Option<Row>, o: Option<Row>): Option<Entry>
    requires b.Some? ==> |b.value| == tbl.ColumnCount()
    requires t.Some? ==> |t.value| == tbl.ColumnCount()
    requires o.Some? ==> |o.value| == tbl.ColumnCount()
  {
    RowDiff(tbl, t, MergeRow(b, t, o))
  }

  lemma UpdateIsCanonical(id: RowId, tbl: ChangesetTable, e: Entry, ti: TableInfo, ids: map<int, int>, b: Option<Row>, t: Option<Row>, o: Option<Row>)
    requires OptionFits(id, tbl, b) && OptionFits(id, tbl, t) && OptionFits(id, tbl, o)
    requires RowDiff(tbl, b, o) == Some(e) && e.op == Update && e.WellShaped() && OneKey(tbl.primaryKeys) && InfoFits(ti, tbl)
    requires Knows(ti, Pk(e), b, t) && ChangeKeyOk(ti, ids, Pk(e))
    ensures RebasedUpdate(e, ids, ti).entry == MergeDiff(tbl, b, t, o)
  {
    if t.Some? {
      PatchedIsTheirChange(tbl, ti, ids, Pk(e), b.value, t.value);
      UpdateMergesRow(id, tbl, ids, b.value, t.value, o.value);
      RowsOfUpdate(id, tbl, e, ids, b.value, t.value, o.value);
    }
  }

  lemma RowsOfUpdate(id: RowId, tbl: ChangesetTable, e: Entry, ids: map<int, int>, b: Row, t: Row, o: Row)
    requires true in tbl.primaryKeys && RowFits(id, tbl, b) && RowFits(id, tbl, t) && RowFits(id, tbl, o)
    requires RowDiff(tbl, Some(b), Some(o)) == Some(e) && e.op == Update && e.WellShaped() && Pk(e) !in ids
    ensures UpdatedOld(e, CanonicalNew(b, t), ids) == CanonicalOld(tbl.primaryKeys, t, MergeCells(b, t, o))
    ensures UpdatedNew(e, CanonicalNew(b, t)) == CanonicalNew(t, MergeCells(b, t, o))
    ensures AnyDefined(CanonicalNew(t, MergeCells(b, t, o))) <==> t != MergeCells(b, t, o)
  {
    var pks, m := tbl.primaryKeys, MergeCells(b, t, o);
    forall i | 0 <= i < |pks| && pks[i] ensures b[i] == t[i] {
      assert KeyOf(pks, b)[i] == KeyOf(pks, t)[i];
    }
    if t != m {
      var i :| 0 <= i < |t| && t[i] != m[i];
      assert !CanonicalNew(t, m)[i].Undefined?;
    }
  }

  lemma DeleteIsCanonical(id: RowId, tbl: ChangesetTable, e: Entry, ti: TableInfo, ids: map<int, int>, b: Option<Row>, t: Option<Row>, o: Option<Row>)
    requires OptionFits(id, tbl, b) && OptionFits(id, tbl, t) && OptionFits(id, tbl, o)
    requires RowDiff(tbl, b, o) == Some(e) && e.op == Delete && e.WellShaped() && OneKey(tbl.primaryKeys) && InfoFits(ti, tbl)
    requires id == KeyId(tbl, Pk(e))
    requires Knows(ti, Pk(e), b, t) && ChangeKeyOk(ti, ids, Pk(e))
    ensures RebasedDelete(e, ids, ti) == MergeDiff(tbl, b, t, o)
  {
    if t.Some? {
      PatchedIsTheirChange(tbl, ti, ids, Pk(e), b.value, t.value);
      OldOfDelete(id, tbl, e, Pk(e), b.value, t.value);
    }
  }

  lemma OldOfDelete(id: RowId, tbl: ChangesetTable, e: Entry, k: int, b: Row, t: Row)
    requires RowFits(id, tbl, b) && RowFits(id, tbl, t) && id == KeyId(tbl, k) && e == Entry(Delete, b, [], tbl)
    ensures DeletedOld(e, k, CanonicalNew(b, t)) == t
  {
    forall i | 0 <= i < |t| && tbl.primaryKeys[i] ensures t[i] == Int(k) {
      assert KeyOf(tbl.primaryKeys, t)[i] == id.key[i];
    }
  }

  /** Our i-th entry, an update or a deletion, becomes the entry a diff has between theirs' row and the merged row, or none if they are equal. */
  lemma ChangeIsCanonical(p: Plan, i: int)
    requires p.Valid() && Rewritable(p) && 0 <= i < |p.d.toOurs| && p.d.toOurs[i].op != Insert
    ensures var e := p.d.toOurs[i];
            e.WellShaped() && StatesFit(p.d, IdOf(e), e.table) &&
            Rewritten(p, i) == MergeDiff(e.table, Get(p.d.base, IdOf(e)), Get(p.d.theirs, IdOf(e)), Get(p.d.ours, IdOf(e)))
  {
    var e := p.d.toOurs[i];
    OurEntry(p, i);
    var id, tbl := IdOf(e), e.table;
    var b, t, o := Get(p.d.base, id), Get(p.d.theirs, id), Get(p.d.ours, id);
    if tbl.name !in p.Info() {
      UntouchedTable(p.d, id);
      UntouchedIsCanonical(id, tbl, e, b, o);
    } else {
      ChangeKey(p, i);
      var ti, ids := p.Info()[tbl.name], IdsOf(p.maps, tbl.name);
      if e.op == Update {
        UpdateIsCanonical(id, tbl, e, ti, ids, b, t, o);
      } else {
        DeleteIsCanonical(id, tbl, e, ti, ids, b, t, o);
      }
    }
  }

  ghost predicate StatesFit(d: Sides, id: RowId, tbl: ChangesetTable) {
    && OptionFits(id, tbl, Get(d.base, id))
    && OptionFits(id, tbl, Get(d.theirs, id))
    && OptionFits(id, tbl, Get(d.ours, id))
  }

  lemma UntouchedIsCanonical(id: RowId, tbl: ChangesetTable, e: Entry, b: Option<Row>, o: Option<Row>)
    requires OptionFits(id, tbl, b) && OptionFits(id, tbl, o) && RowDiff(tbl, b, o) == Some(e) && e.op != Insert
    ensures MergeDiff(tbl, b, b, o) == Some(e)
  {
    if o.Some? {
      assert MergeCells(b.value, b.value, o.value) == o.value;
    }
  }

  // ----- The whole changeset -----

  lemma InsertEntry(p: Plan, i: int)
    requires p.Valid() && Rewritable(p) && 0 <= i < |p.d.toOurs| && p.d.toOurs[i].op == Insert
    ensures var e := p.d.toOurs[i];
            e.WellShaped() && HasKey(e.table) &&
            Rewritten(p, i) == Some(Entry(Insert, [], Rekeyed(e.table.primaryKeys, e.newValues, NewNumber(p, i)), e.table))
  {
    OurEntry(p, i);
    InsertIsMoved(p, i);
    var e := p.d.toOurs[i];
    if e.table.name !in p.Info() {
      EntryKey(p.d.s, p.d.base, p.d.ours, e);
      InsertKept(IdOf(e), e.table, e.newValues);
    }
  }

  lemma OutputEntryIsDiff(p: Plan, out: seq<Entry>, src: seq<nat>, m: Db, j: int)
    requires p.Valid() && Rewritable(p) && KeysFree(p) && IsOutput(p, out, src) && Shaped(out)
    requires DbOver(p.d.s, m) && Pointwise(p.d.theirs, out, m) && 0 <= j < |out|
    ensures IsRowDiff(p.d.s, p.d.theirs, m, IdOf(out[j]), out[j]) && IdOf(out[j]) in Changed(p.d.theirs, m)
  {
    OutputEntry(p, out, src, j);
    if p.d.toOurs[src[j]].op == Insert {
      InsertIsDiff(p, out, src, m, j);
    } else {
      ChangeIsDiff(p, out, src, m, j);
    }
  }

  lemma InsertIsDiff(p: Plan, out: seq<Entry>, src: seq<nat>, m: Db, j: int)
    requires p.Valid() && Rewritable(p) && KeysFree(p) && IsOutput(p, out, src) && Shaped(out)
    requires DbOver(p.d.s, m) && Pointwise(p.d.theirs, out, m) && 0 <= j < |out| && p.d.toOurs[src[j]].op == Insert
    ensures IsRowDiff(p.d.s, p.d.theirs, m, IdOf(out[j]), out[j]) && IdOf(out[j]) in Changed(p.d.theirs, m)
  {
    var i := src[j];
    OutputEntry(p, out, src, j);
    InsertEntry(p, i);
    InsertLands(p, out, src, m, i);
    InsertGoesToFreeKey(p, i);
    AddedRow(p.d.s, p.d.theirs, m, out[j]);
  }

  lemma AddedRow(s: Schema, db: Db, m: Db, e: Entry)
    requires ValidSchema(s) && DbOver(s, m) && EntryFits(s, e) && e == Entry(Insert, [], e.newValues, e.table)
    requires IdOf(e) !in db && Get(m, IdOf(e)) == Some(e.newValues)
    ensures IsRowDiff(s, db, m, IdOf(e), e) && IdOf(e) in Changed(db, m)
  {
  }

  lemma ChangeIsDiff(p: Plan, out: seq<Entry>, src: seq<nat>, m: Db, j: int)
    requires p.Valid() && Rewritable(p) && IsOutput(p, out, src) && Shaped(out)
    requires DbOver(p.d.s, m) && Pointwise(p.d.theirs, out, m) && 0 <= j < |out| && p.d.toOurs[src[j]].op != Insert
    ensures IsRowDiff(p.d.s, p.d.theirs, m, IdOf(out[j]), out[j]) && IdOf(out[j]) in Changed(p.d.theirs, m)
  {
    var i := src[j];
    OutputEntry(p, out, src, j);
    ChangeIsCanonical(p, i);
    ChangeIsMerged(p, i);
  }

  /** With free keys the rebased changeset is the changeset from theirs to the database it leads to, entry for entry. */
  lemma OutputIsDiff(p: Plan, out: seq<Entry>, src: seq<nat>)
    requires p.Valid() && KeysFree(p) && Rewritable(p) && IsOutput(p, out, src)
    ensures Shaped(out) && ApplyAll(p.d.theirs, out).Some?
    ensures IsMerge(p.d, Moves(p), ApplyAll(p.d.theirs, out).value)
    ensures IsDiff(p.d.s, p.d.theirs, ApplyAll(p.d.theirs, out).value, out)
  {
    OutputMerges(p, out, src);
    var m := ApplyAll(p.d.theirs, out).value;
    ApplyAllIffPointwise(p.d.s, p.d.theirs, out, m);
    ApplyAllKeepsDb(p.d.s, p.d.theirs, out);
    forall j | 0 <= j < |out| ensures IdOf(out[j]) in Changed(p.d.theirs, m) && IsRowDiff(p.d.s, p.d.theirs, m, IdOf(out[j]), out[j]) {
      OutputEntryIsDiff(p, out, src, m, j);
    }
    forall id | id in Changed(p.d.theirs, m) ensures Touches(out, id) {
      assert Get(p.d.theirs, id) != Get(m, id);
    }
  }
}
