/** How often and in what order conflicts are reported: items by column, features by the entries of ours. */
module ConflictList {
  import opened Values
  import opened Rows
  import opened Diff
  import opened KeyMapping
  import opened RebaseRules
  import opened RebaseRows
  import opened RebaseKeys
  import opened RebaseMerge
  import opened RebaseConflicts

  // ----- Items -----

  ghost predicate ColumnsAscend(items: seq<ConflictItem>) {
    forall j, k | 0 <= j < k < |items| :: items[j].column < items[k].column
  }

  lemma {:induction false} ItemsAscend(e: Entry, patched: Row, deleted: bool, n: nat)
    requires e.op == Update && e.WellShaped() && n <= |patched| == e.table.ColumnCount()
    ensures ColumnsAscend(Items(e, patched, deleted, n))
    ensures forall j | 0 <= j < |Items(e, patched, deleted, n)| :: Items(e, patched, deleted, n)[j].column < n
    decreases n
  {
    if n > 0 {
      ItemsAscend(e, patched, deleted, n - 1);
    }
  }

  function ColumnsOf(items: seq<ConflictItem>): set<int> {
    set j | 0 <= j < |items| :: items[j].column
  }

  lemma {:induction false} AscendingColumns(items: seq<ConflictItem>)
    requires ColumnsAscend(items)
    ensures |ColumnsOf(items)| == |items|
    decreases |items|
  {
    if items != [] {
      var n := |items| - 1;
      AscendingColumns(items[..n]);
      assert ColumnsOf(items) == ColumnsOf(items[..n]) + {items[n].column};
    }
  }

  /** The columns of our update that should be reported. */
  ghost function OpposedColumns(tbl: ChangesetTable, b: Row, t: Option<Row>, o: Row): set<int>
    requires |b| == |o| == tbl.ColumnCount() && (t.Some? ==> |t.value| == tbl.ColumnCount())
  {
    set c | 0 <= c < tbl.ColumnCount() && b[c] != o[c] && FateOf(tbl.name, b, t, o, c) == ReportedAsConflict
  }

  /** The feature of one update: none if no column is opposed, otherwise one item per opposed column, in column order. */
  ghost predicate OneItemEach(conflict: Option<ConflictFeature>, columns: set<int>) {
    match conflict
    case None => columns == {}
    case Some(cf) => ColumnsAscend(cf.items) && ColumnsOf(cf.items) == columns && |cf.items| == |columns|
  }

  lemma ItemsInOrder(e: Entry, ids: map<int, int>, ti: TableInfo)
    requires e.op == Update && e.WellShaped() && HasKey(e.table) && InfoFits(ti, e.table)
    ensures RebasedUpdate(e, ids, ti).conflict.Some? ==> ColumnsAscend(RebasedUpdate(e, ids, ti).conflict.value.items)
  {
    var pk, n := Pk(e), e.table.ColumnCount();
    ItemsAscend(e, Blank(n), true, n);
    ItemsAscend(e, Patched(ti, ids, pk, n), false, n);
  }

  lemma UpdateItems(id: RowId, tbl: ChangesetTable, e: Entry, ti: TableInfo, ids: map<int, int>, b: Row, t: Option<Row>, o: Row)
    requires RowFits(id, tbl, b) && OptionFits(id, tbl, t) && RowFits(id, tbl, o)
    requires RowDiff(tbl, Some(b), Some(o)) == Some(e) && e.op == Update && e.WellShaped() && OneKey(tbl.primaryKeys) && InfoFits(ti, tbl)
    requires Knows(ti, Pk(e), Some(b), t) && ChangeKeyOk(ti, ids, Pk(e))
    ensures OneItemEach(RebasedUpdate(e, ids, ti).conflict, OpposedColumns(tbl, b, t, o))
  {
    var conflict, columns := RebasedUpdate(e, ids, ti).conflict, OpposedColumns(tbl, b, t, o);
    forall c | c in columns ensures HasItem(conflict, ConflictItem(c, b[c], TheirsAt(t, c), o[c])) {
      UpdateConflict(id, tbl, e, ti, ids, Some(b), t, Some(o), ConflictItem(c, b[c], TheirsAt(t, c), o[c]));
    }
    if conflict.Some? {
      ItemsInOrder(e, ids, ti);
      AscendingColumns(conflict.value.items);
      forall item | item in conflict.value.items ensures item.column in columns {
        UpdateConflict(id, tbl, e, ti, ids, Some(b), t, Some(o), item);
      }
      SameColumns(conflict.value.items, b, t, o, columns);
    }
  }

  lemma SameColumns(items: seq<ConflictItem>, b: Row, t: Option<Row>, o: Row, columns: set<int>)
    requires forall c | c in columns :: 0 <= c < |b| && c < |o| && (t.Some? ==> c < |t.value|)
    requires forall c | c in columns :: ConflictItem(c, b[c], TheirsAt(t, c), o[c]) in items
    requires forall item | item in items :: item.column in columns
    ensures ColumnsOf(items) == columns
  {
    forall c | c in columns ensures c in ColumnsOf(items) {
      assert ConflictItem(c, b[c], TheirsAt(t, c), o[c]) in items;
    }
  }

  /** Our i-th entry, an update, reports each opposed column once and in column order. */
  lemma EntryItems(p: Plan, i: int, b: Row, t: Option<Row>, o: Row)
    requires p.Valid() && Rewritable(p) && States(p, i, b, t, o)
    ensures OneItemEach(ConflictAt(p, i), OpposedColumns(p.d.toOurs[i].table, b, t, o))
  {
    if p.d.toOurs[i].table.name in p.Info() {
      TouchedItems(p, i, b, t, o);
    } else {
      OurEntry(p, i);
      UntouchedTable(p.d, IdOf(p.d.toOurs[i]));
      NothingOpposed(p.d.toOurs[i].table, b, o);
    }
  }

  lemma TouchedItems(p: Plan, i: int, b: Row, t: Option<Row>, o: Row)
    requires p.Valid() && Rewritable(p) && States(p, i, b, t, o) && p.d.toOurs[i].table.name in p.Info()
    ensures OneItemEach(ConflictAt(p, i), OpposedColumns(p.d.toOurs[i].table, b, t, o))
  {
    var e := p.d.toOurs[i];
    OurEntry(p, i);
    ChangeKey(p, i);
    UpdateItems(IdOf(e), e.table, e, p.Info()[e.table.name], IdsOf(p.maps, e.table.name), b, t, o);
  }

  lemma NothingOpposed(tbl: ChangesetTable, b: Row, o: Row)
    requires |b| == |o| == tbl.ColumnCount()
    ensures OpposedColumns(tbl, b, Some(b), o) == {}
  {
  }

  // ----- Features -----

  /** The j-th feature comes from entry at[j]; every entry that reports is there once, in the order of the entries. */
  ghost predicate ListsConflicts(es: seq<Entry>, info: Info, maps: KeyMaps, cfs: seq<ConflictFeature>, at: seq<nat>)
    requires Rebasable(es, info)
  {
    && |at| == |cfs|
    && (forall j | 0 <= j < |at| :: at[j] < |es| && RebaseOne(es[at[j]], info, maps).conflict == Some(cfs[j]))
    && (forall j, k | 0 <= j < k < |at| :: at[j] < at[k])
    && (forall i | 0 <= i < |es| && RebaseOne(es[i], info, maps).conflict.Some? :: i in at)
  }

  lemma {:induction false} ConflictsInOrder(es: seq<Entry>, info: Info, maps: KeyMaps) returns (at: seq<nat>)
    requires Rebasable(es, info)
    ensures ListsConflicts(es, info, maps, ConflictsOf(es, info, maps), at)
    decreases |es|
  {
    if es == [] {
      at := [];
    } else {
      var n := |es| - 1;
      at := ConflictsInOrder(es[..n], info, maps);
      if RebaseOne(es[n], info, maps).conflict.Some? {
        ListedConflict(es, info, maps, ConflictsOf(es[..n], info, maps), at);
        at := at + [n];
      } else {
        NothingListed(es, info, maps, ConflictsOf(es[..n], info, maps), at);
      }
    }
  }

  lemma ListedConflict(es: seq<Entry>, info: Info, maps: KeyMaps, cfs: seq<ConflictFeature>, at: seq<nat>)
    requires Rebasable(es, info) && es != [] && ListsConflicts(es[..|es| - 1], info, maps, cfs, at)
    requires RebaseOne(es[|es| - 1], info, maps).conflict.Some?
    ensures ListsConflicts(es, info, maps, cfs + [RebaseOne(es[|es| - 1], info, maps).conflict.value], at + [|es| - 1])
  {
    var n := |es| - 1;
    var cfs', at' := cfs + [RebaseOne(es[n], info, maps).conflict.value], at + [n];
    forall i | 0 <= i < |es| && RebaseOne(es[i], info, maps).conflict.Some? ensures i in at' {
      if i < n {
        assert es[..n][i] == es[i] && i in at;
      } else {
        assert at'[|at|] == i;
      }
    }
  }

  lemma NothingListed(es: seq<Entry>, info: Info, maps: KeyMaps, cfs: seq<ConflictFeature>, at: seq<nat>)
    requires Rebasable(es, info) && es != [] && ListsConflicts(es[..|es| - 1], info, maps, cfs, at)
    requires RebaseOne(es[|es| - 1], info, maps).conflict.None?
    ensures ListsConflicts(es, info, maps, cfs, at)
  {
    var n := |es| - 1;
    forall i | 0 <= i < |es| && RebaseOne(es[i], info, maps).conflict.Some? ensures i in at {
      assert es[..n][i] == es[i];
    }
  }

  /** No row is reported twice, and features come in the order of our entries. */
  lemma OneFeaturePerRow(p: Plan) returns (at: seq<nat>)
    requires p.Keyed() && Rewritable(p)
    ensures ListsConflicts(p.d.toOurs, p.Info(), p.maps, Conflicts(p), at)
    ensures forall j, k | 0 <= j < k < |Conflicts(p)| ::
              Conflicts(p)[j].table != Conflicts(p)[k].table || Conflicts(p)[j].pk != Conflicts(p)[k].pk
  {
    at := ConflictsInOrder(p.d.toOurs, p.Info(), p.maps);
    var cfs := Conflicts(p);
    forall j, k | 0 <= j < k < |cfs| ensures cfs[j].table != cfs[k].table || cfs[j].pk != cfs[k].pk {
      assert at[j] < at[k];
      ConflictShape(p, at[j]);
      ConflictShape(p, at[k]);
      if cfs[j].table == cfs[k].table && cfs[j].pk == cfs[k].pk {
        SameKeySameEntry(p, at[j], at[k]);
      }
    }
  }
}
