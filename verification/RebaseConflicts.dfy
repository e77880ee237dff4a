/** No edit of ours is lost silently: what becomes of every column one of our updates changed. */
module RebaseConflicts {
  import opened Values
  import opened Rows
  import opened Diff
  import opened KeyMapping
  import opened RebaseRules
  import opened RebaseRows
  import opened RebaseKeys
  import opened RebaseMerge

  // ----- Items of one entry -----

  lemma {:induction false} ItemsIff(e: Entry, patched: Row, deleted: bool, n: nat, item: ConflictItem)
    requires e.op == Update && e.WellShaped() && n <= |patched| == e.table.ColumnCount()
    ensures item in Items(e, patched, deleted, n) <==>
            && item.column < n
            && !e.newValues[item.column].Undefined? && !Exempt(e.table.name, item.column)
            && (deleted || (!patched[item.column].Undefined? && patched[item.column] != e.newValues[item.column]))
            && item == ConflictItem(item.column, e.oldValues[item.column],
                                    if deleted then Undefined else patched[item.column], e.newValues[item.column])
    decreases n
  {
    if n > 0 {
      ItemsIff(e, patched, deleted, n - 1, item);
    }
  }

  /** Theirs' value of a column, undefined when theirs deleted the row. */
  function TheirsAt(t: Option<Row>, c: nat): Value
    requires t.Some? ==> c < |t.value|
  {
    if t.None? then Undefined else t.value[c]
  }

  /** Theirs took the column elsewhere than we did. */
  predicate Opposed(b: Row, t: Option<Row>, o: Row, c: nat)
    requires c < |b| && c < |o| && (t.Some? ==> c < |t.value|)
  {
    b[c] != o[c] && (t.None? || (t.value[c] != b[c] && t.value[c] != o[c]))
  }

  ghost predicate HasItem(conflict: Option<ConflictFeature>, item: ConflictItem) {
    conflict.Some? && item in conflict.value.items
  }

  /** The conflict of one update: an item for each opposed column that is not exempt, with the three values, and no other. */
  lemma UpdateConflict(id: RowId, tbl: ChangesetTable, e: Entry, ti: TableInfo, ids: map<int, int>, b: Option<Row>, t: Option<Row>, o: Option<Row>, item: ConflictItem)
    requires OptionFits(id, tbl, b) && OptionFits(id, tbl, t) && OptionFits(id, tbl, o)
    requires RowDiff(tbl, b, o) == Some(e) && e.op == Update && e.WellShaped() && OneKey(tbl.primaryKeys) && InfoFits(ti, tbl)
    requires Knows(ti, Pk(e), b, t) && ChangeKeyOk(ti, ids, Pk(e))
    ensures HasItem(RebasedUpdate(e, ids, ti).conflict, item) <==>
            && item.column < tbl.ColumnCount()
            && Opposed(b.value, t, o.value, item.column) && !(tbl.name == Ascii("gpkg_contents") && item.column == 4)
            && item == ConflictItem(item.column, b.value[item.column], TheirsAt(t, item.column), o.value[item.column])
  {
    var n := tbl.ColumnCount();
    if t.None? {
      ItemsIff(e, Blank(n), true, n, item);
    } else {
      PatchedIsTheirChange(tbl, ti, ids, Pk(e), b.value, t.value);
      ItemsIff(e, CanonicalNew(b.value, t.value), false, n, item);
    }
  }

  /** A changed column is carried into the output exactly when theirs left it alone. */
  lemma UpdateCarries(id: RowId, tbl: ChangesetTable, e: Entry, ti: TableInfo, ids: map<int, int>, b: Option<Row>, t: Option<Row>, o: Option<Row>, c: nat)
    requires OptionFits(id, tbl, b) && OptionFits(id, tbl, t) && OptionFits(id, tbl, o)
    requires RowDiff(tbl, b, o) == Some(e) && e.op == Update && e.WellShaped() && OneKey(tbl.primaryKeys) && InfoFits(ti, tbl)
    requires Knows(ti, Pk(e), b, t) && ChangeKeyOk(ti, ids, Pk(e))
    requires c < tbl.ColumnCount() && b.value[c] != o.value[c]
    ensures Carried(RebasedUpdate(e, ids, ti).entry, c, o.value[c]) <==> t.Some? && t.value[c] == b.value[c]
  {
    if t.Some? {
      PatchedIsTheirChange(tbl, ti, ids, Pk(e), b.value, t.value);
      var n := UpdatedNew(e, CanonicalNew(b.value, t.value));
      if t.value[c] == b.value[c] {
        assert !n[c].Undefined?;
      }
    }
  }

  ghost predicate Carried(out: Option<Entry>, c: nat, v: Value) {
    out.Some? && c < |out.value.newValues| && out.value.newValues[c] == v && !v.Undefined?
  }

  // ----- The list of conflicts -----

  lemma {:induction false} ConflictListed(es: seq<Entry>, info: Info, maps: KeyMaps, i: int)
    requires Rebasable(es, info) && 0 <= i < |es| && RebaseOne(es[i], info, maps).conflict.Some?
    ensures RebaseOne(es[i], info, maps).conflict.value in ConflictsOf(es, info, maps)
    decreases |es|
  {
    var n := |es| - 1;
    if i < n {
      assert es[..n][i] == es[i];
      ConflictListed(es[..n], info, maps, i);
    }
  }

  lemma {:induction false} ConflictComesFrom(es: seq<Entry>, info: Info, maps: KeyMaps, cf: ConflictFeature) returns (i: int)
    requires Rebasable(es, info) && cf in ConflictsOf(es, info, maps)
    ensures 0 <= i < |es| && RebaseOne(es[i], info, maps).conflict == Some(cf)
    decreases |es|
  {
    var n := |es| - 1;
    if RebaseOne(es[n], info, maps).conflict == Some(cf) {
      i := n;
    } else {
      i := ConflictComesFrom(es[..n], info, maps, cf);
      assert es[..n][i] == es[i];
    }
  }

  ghost function Conflicts(p: Plan): seq<ConflictFeature>
    requires p.Keyed() && Rewritable(p)
  {
    ConflictsOf(p.d.toOurs, p.Info(), p.maps)
  }

  /** Some reported feature for row k of table t has the item. */
  ghost predicate Reported(p: Plan, t: Name, k: int, item: ConflictItem)
    requires p.Keyed() && Rewritable(p)
  {
    exists cf :: cf in Conflicts(p) && cf.table == t && cf.pk == k && item in cf.items
  }

  ghost function ConflictAt(p: Plan, i: int): Option<ConflictFeature>
    requires p.Keyed() && Rewritable(p) && 0 <= i < |p.d.toOurs|
  {
    RebaseOne(p.d.toOurs[i], p.Info(), p.maps).conflict
  }

  /** Only updates report, under their own table and key, and never without items. */
  lemma ConflictShape(p: Plan, i: int)
    requires p.Keyed() && Rewritable(p) && 0 <= i < |p.d.toOurs| && ConflictAt(p, i).Some?
    ensures var e := p.d.toOurs[i];
            && e.op == Update && e.WellShaped() && HasKey(e.table) && e.table.name in p.Info()
            && ConflictAt(p, i).value.table == e.table.name && ConflictAt(p, i).value.pk == Pk(e) && ConflictAt(p, i).value.IsValid()
  {
    EntryConflict(p.d.toOurs[i], p.Info(), p.maps);
  }

  lemma EntryConflict(e: Entry, info: Info, maps: KeyMaps)
    requires RebasableEntry(e, info) && RebaseOne(e, info, maps).conflict.Some?
    ensures e.op == Update && HasKey(e.table) && e.table.name in info
    ensures var cf := RebaseOne(e, info, maps).conflict.value; cf.table == e.table.name && cf.pk == Pk(e) && cf.IsValid()
  {
  }

  /** Each row has at most one feature: that of our entry for it. */
  lemma ReportedByEntry(p: Plan, i: int, item: ConflictItem)
    requires p.Valid() && Rewritable(p) && 0 <= i < |p.d.toOurs|
    ensures p.d.toOurs[i].WellShaped() && HasKey(p.d.toOurs[i].table)
    ensures Reported(p, p.d.toOurs[i].table.name, Pk(p.d.toOurs[i]), item) <==> HasItem(ConflictAt(p, i), item)
  {
    OurEntry(p, i);
    var e := p.d.toOurs[i];
    if HasItem(ConflictAt(p, i), item) {
      var cf := ConflictAt(p, i).value;
      ConflictListed(p.d.toOurs, p.Info(), p.maps, i);
      ConflictShape(p, i);
      assert cf in Conflicts(p) && cf.table == e.table.name && cf.pk == Pk(e) && item in cf.items;
    }
    if Reported(p, e.table.name, Pk(e), item) {
      var cf :| cf in Conflicts(p) && cf.table == e.table.name && cf.pk == Pk(e) && item in cf.items;
      var j := ConflictComesFrom(p.d.toOurs, p.Info(), p.maps, cf);
      ConflictShape(p, j);
      SameKeySameEntry(p, i, j);
    }
  }

  lemma SameKeySameEntry(p: Plan, i: int, j: int)
    requires p.Keyed() && 0 <= i < |p.d.toOurs| && 0 <= j < |p.d.toOurs|
    requires p.d.toOurs[i].WellShaped() && HasKey(p.d.toOurs[i].table) && p.d.toOurs[j].WellShaped() && HasKey(p.d.toOurs[j].table)
    requires p.d.toOurs[i].table.name == p.d.toOurs[j].table.name && Pk(p.d.toOurs[i]) == Pk(p.d.toOurs[j])
    ensures i == j
  {
    DiffKeysOnce(p.d.s, p.d.base, p.d.ours, p.d.toOurs, p.d.toOurs[i].table.name);
  }

  // ----- The theorem -----

  datatype Fate = CarriedOver | Agreed | ReportedAsConflict | Exempted

  /** What should become of a column our update changed. */
  function FateOf(tbl: Name, b: Row, t: Option<Row>, o: Row, c: nat): Fate
    requires c < |b| && c < |o| && (t.Some? ==> c < |t.value|)
  {
    if t.Some? && t.value[c] == b[c] then CarriedOver
    else if t.Some? && t.value[c] == o[c] then Agreed
    else if tbl == Ascii("gpkg_contents") && c == 4 then Exempted
    else ReportedAsConflict
  }

  /** The three states of the row of our i-th entry, an update. */
  ghost predicate States(p: Plan, i: int, b: Row, t: Option<Row>, o: Row)
    requires p.Keyed()
  {
    && 0 <= i < |p.d.toOurs|
    && var e := p.d.toOurs[i];
    && e.op == Update && e.WellShaped() && HasKey(e.table)
    && Get(p.d.base, IdOf(e)) == Some(b) && Get(p.d.ours, IdOf(e)) == Some(o) && Get(p.d.theirs, IdOf(e)) == t
    && |b| == |o| == e.table.ColumnCount() && (t.Some? ==> |t.value| == |b|)
  }

  lemma UpdateStates(p: Plan, i: int) returns (b: Row, t: Option<Row>, o: Row)
    requires p.Keyed() && 0 <= i < |p.d.toOurs| && p.d.toOurs[i].op == Update
    ensures States(p, i, b, t, o)
    ensures forall c | 0 <= c < |b| ::
              (!p.d.toOurs[i].newValues[c].Undefined? <==> b[c] != o[c]) && (b[c] != o[c] ==> p.d.toOurs[i].newValues[c] == o[c])
  {
    var e := p.d.toOurs[i];
    OurEntry(p, i);
    b, t, o := Get(p.d.base, IdOf(e)).value, Get(p.d.theirs, IdOf(e)), Get(p.d.ours, IdOf(e)).value;
  }

  /**
   Every column one of our updates changed has exactly one fate, and the output
   and the conflicts show it: it is carried with our value exactly when theirs
   left it alone, and it is reported, with base, theirs and ours, exactly when
   theirs changed it to something else (or deleted the row) and it is not
   exempt.
   */
  lemma NoSilentLoss(p: Plan, i: int, b: Row, t: Option<Row>, o: Row, c: nat)
    requires p.Valid() && Rewritable(p) && States(p, i, b, t, o)
    requires c < |b| && b[c] != o[c]
    ensures var e := p.d.toOurs[i];
            var fate := FateOf(e.table.name, b, t, o, c);
            && (Carried(Rewritten(p, i), c, o[c]) <==> fate == CarriedOver)
            && (Reported(p, e.table.name, Pk(e), ConflictItem(c, b[c], TheirsAt(t, c), o[c])) <==> fate == ReportedAsConflict)
            && (forall item: ConflictItem :: item.column == c && Reported(p, e.table.name, Pk(e), item) ==>
                                 item == ConflictItem(c, b[c], TheirsAt(t, c), o[c]))
  {
    var e := p.d.toOurs[i];
    var item := ConflictItem(c, b[c], TheirsAt(t, c), o[c]);
    if e.table.name in p.Info() {
      TouchedCarried(p, i, b, t, o, c);
      TouchedReported(p, i, b, t, o, item);
    } else {
      UntouchedFate(p, i, b, t, o, c);
      ReportedByEntry(p, i, item);
    }
    forall other: ConflictItem | other.column == c && Reported(p, e.table.name, Pk(e), other) ensures other == item {
      ReportedByEntry(p, i, other);
      if e.table.name in p.Info() {
        TouchedReported(p, i, b, t, o, other);
      } else {
        UntouchedFate(p, i, b, t, o, c);
      }
    }
  }

  lemma TouchedCarried(p: Plan, i: int, b: Row, t: Option<Row>, o: Row, c: nat)
    requires p.Valid() && Rewritable(p) && States(p, i, b, t, o) && p.d.toOurs[i].table.name in p.Info()
    requires c < |b| && b[c] != o[c]
    ensures Carried(Rewritten(p, i), c, o[c]) <==> t.Some? && t.value[c] == b[c]
  {
    var e := p.d.toOurs[i];
    OurEntry(p, i);
    ChangeKey(p, i);
    UpdateCarries(IdOf(e), e.table, e, p.Info()[e.table.name], IdsOf(p.maps, e.table.name), Some(b), t, Some(o), c);
  }

  lemma TouchedReported(p: Plan, i: int, b: Row, t: Option<Row>, o: Row, item: ConflictItem)
    requires p.Valid() && Rewritable(p) && States(p, i, b, t, o) && p.d.toOurs[i].table.name in p.Info()
    ensures var e := p.d.toOurs[i];
            Reported(p, e.table.name, Pk(e), item) <==>
            && item.column < |b|
            && Opposed(b, t, o, item.column) && !Exempt(e.table.name, item.column)
            && item == ConflictItem(item.column, b[item.column], TheirsAt(t, item.column), o[item.column])
  {
    var e := p.d.toOurs[i];
    ReportedByEntry(p, i, item);
    OurEntry(p, i);
    ChangeKey(p, i);
    UpdateConflict(IdOf(e), e.table, e, p.Info()[e.table.name], IdsOf(p.maps, e.table.name), Some(b), t, Some(o), item);
  }

  lemma UntouchedFate(p: Plan, i: int, b: Row, t: Option<Row>, o: Row, c: nat)
    requires p.Valid() && Rewritable(p) && States(p, i, b, t, o) && p.d.toOurs[i].table.name !in p.Info()
    requires c < |b| && b[c] != o[c]
    ensures t == Some(b) && Carried(Rewritten(p, i), c, o[c]) && ConflictAt(p, i).None?
  {
    OurEntry(p, i);
    UntouchedTable(p.d, IdOf(p.d.toOurs[i]));
  }

  /** There are no other conflict items: each is an opposed, non-exempt column of one of our updates. */
  lemma NoOtherConflicts(p: Plan, cf: ConflictFeature, item: ConflictItem) returns (i: int, b: Row, t: Option<Row>, o: Row)
    requires p.Valid() && Rewritable(p) && cf in Conflicts(p) && item in cf.items
    ensures States(p, i, b, t, o) && cf.table == p.d.toOurs[i].table.name && cf.pk == Pk(p.d.toOurs[i])
    ensures item.column < |b|
    ensures b[item.column] != o[item.column] && FateOf(cf.table, b, t, o, item.column) == ReportedAsConflict
    ensures item == ConflictItem(item.column, b[item.column], TheirsAt(t, item.column), o[item.column])
  {
    i := ConflictComesFrom(p.d.toOurs, p.Info(), p.maps, cf);
    ConflictShape(p, i);
    b, t, o := UpdateStates(p, i);
    assert Reported(p, cf.table, cf.pk, item);
    TouchedReported(p, i, b, t, o, item);
  }
}
