/** Creating a changeset from two databases (CreateChangeset, driver/sqlite.go). */
module Diff {
  import opened Values
  import opened Rows
  import opened TableSchemas

  // ----- What a changeset between two databases is -----

  function CanonicalOld(pks: seq<bool>, b: Row, m: Row): (r: Row)
    requires |pks| == |b| == |m|
    ensures |r| == |b|
  {
    seq(|b|, i requires 0 <= i < |b| => if pks[i] || b[i] != m[i] then b[i] else Undefined)
  }

  function CanonicalNew(b: Row, m: Row): (r: Row)
    requires |b| == |m|
    ensures |r| == |b|
  {
    seq(|b|, i requires 0 <= i < |b| => if b[i] != m[i] then m[i] else Undefined)
  }

  ghost predicate OptionFits(id: RowId, t: ChangesetTable, r: Option<Row>) {
    r.Some? ==> RowFits(id, t, r.value)
  }

  /** The canonical entry between two states of one row. */
  function RowDiff(t: ChangesetTable, b: Option<Row>, m: Option<Row>): Option<Entry>
    requires b.Some? ==> |b.value| == t.ColumnCount()
    requires m.Some? ==> |m.value| == t.ColumnCount()
  {
    match (b, m)
    case (None, None) => None
    case (None, Some(y)) => Some(Entry(Insert, [], y, t))
    case (Some(x), None) => Some(Entry(Delete, x, [], t))
    case (Some(x), Some(y)) =>
      if x == y then None
      else Some(Entry(Update, CanonicalOld(t.primaryKeys, x, y), CanonicalNew(x, y), t))
  }

  /** Row `id` differs between the two databases and `e` is the canonical entry that says how. */
  ghost predicate IsRowDiff(s: Schema, b: Db, m: Db, id: RowId, e: Entry) {
    && id.table in s
    && OptionFits(id, s[id.table], Get(b, id))
    && OptionFits(id, s[id.table], Get(m, id))
    && RowDiff(s[id.table], Get(b, id), Get(m, id)) == Some(e)
  }

  /** `es` has exactly one entry for each row of `ids`, the canonical one. */
  ghost predicate DiffOver(s: Schema, b: Db, m: Db, es: seq<Entry>, ids: set<RowId>) {
    && Shaped(es)
    && DistinctIds(es)
    && (forall i | 0 <= i < |es| :: IdOf(es[i]) in ids && IsRowDiff(s, b, m, IdOf(es[i]), es[i]))
    && (forall id | id in ids :: Touches(es, id))
  }

  ghost function Changed(b: Db, m: Db): set<RowId> {
    set id | id in b.Keys + m.Keys && Get(b, id) != Get(m, id)
  }

  /** `es` is the changeset from `b` to `m`, its entries in some order. */
  ghost predicate IsDiff(s: Schema, b: Db, m: Db, es: seq<Entry>) {
    DiffOver(s, b, m, es, Changed(b, m))
  }

  /** Within a table, INSERT entries come before all others. */
  ghost predicate InsertsFirst(es: seq<Entry>) {
    forall i, j | 0 <= i < j < |es| && es[i].table.name == es[j].table.name ::
      es[j].op == Insert ==> es[i].op == Insert
  }

  /** INSERT, DELETE, UPDATE: the order of the three queries. */
  function Rank(op: Op): nat {
    match op
    case Insert => 0
    case Delete => 1
    case Update => 2
  }

  ghost predicate Listed(tables: seq<Name>, t: Name, u: Name) {
    exists a, b :: 0 <= a < b < |tables| && tables[a] == t && tables[b] == u
  }

  /** Table by table in listing order, and within a table in the order of the queries. */
  ghost predicate QueryOrder(tables: seq<Name>, es: seq<Entry>) {
    forall i, j | 0 <= i < j < |es| ::
      if es[i].table.name == es[j].table.name then Rank(es[i].op) <= Rank(es[j].op)
      else Listed(tables, es[i].table.name, es[j].table.name)
  }

  // ----- Rows -----

  lemma RowDiffStep(id: RowId, t: ChangesetTable, b: Option<Row>, m: Option<Row>)
    requires OptionFits(id, t, b) && OptionFits(id, t, m)
    ensures RowDiff(t, b, m).None? <==> b == m
    ensures RowDiff(t, b, m).Some? ==>
              var e := RowDiff(t, b, m).value;
              e.WellShaped() && e.table == t && KeepsKey(e) && IdOf(e) == id && RowStep(e, b) == Some(m)
  {
    var pks := t.primaryKeys;
    if b.Some? && m.Some? && b != m {
      var x, y := b.value, m.value;
      var e := RowDiff(t, b, m).value;
      assert KeyOf(pks, e.oldValues) == KeyOf(pks, x);
      forall i | 0 <= i < |pks| && pks[i] ensures x[i] == y[i] {
        assert KeyOf(pks, x)[i] == KeyOf(pks, y)[i];
      }
      assert AnyDefined(e.newValues) by {
        var i :| 0 <= i < |x| && x[i] != y[i];
        assert !e.newValues[i].Undefined?;
      }
      assert Overlay(x, e.newValues) == y;
    }
  }

  lemma IsRowDiffFacts(s: Schema, b: Db, m: Db, id: RowId, e: Entry)
    requires ValidSchema(s) && IsRowDiff(s, b, m, id, e)
    ensures EntryFits(s, e) && IdOf(e) == id && RowStep(e, Get(b, id)) == Some(Get(m, id)) && Get(b, id) != Get(m, id)
  {
    RowDiffStep(id, s[id.table], Get(b, id), Get(m, id));
  }

  lemma DiffFits(s: Schema, b: Db, m: Db, es: seq<Entry>, ids: set<RowId>)
    requires ValidSchema(s) && DiffOver(s, b, m, es, ids)
    ensures Fits(s, es)
  {
    forall i | 0 <= i < |es| ensures EntryFits(s, es[i]) {
      IsRowDiffFacts(s, b, m, IdOf(es[i]), es[i]);
    }
  }

  // ----- Diff and apply are inverse to each other -----

  /** Applying the changeset from `b` to `m`, its entries in any order, turns `b` into `m`. */
  lemma DiffApplies(s: Schema, b: Db, m: Db, es: seq<Entry>)
    requires ValidSchema(s) && DbOver(s, b) && DbOver(s, m) && IsDiff(s, b, m, es)
    ensures Fits(s, es) && ApplyAll(b, es) == Some(m)
    ensures forall fs | Permutation(es, fs) :: Shaped(fs) && ApplyAll(b, fs) == Some(m)
  {
    DiffFits(s, b, m, es, Changed(b, m));
    DiffIsPointwise(s, b, m, es);
    ApplyAllIffPointwise(s, b, es, m);
    forall fs | Permutation(es, fs) ensures Shaped(fs) && ApplyAll(b, fs) == Some(m) {
      OrderIrrelevant(s, b, es, fs);
    }
  }

  lemma DiffIsPointwise(s: Schema, b: Db, m: Db, es: seq<Entry>)
    requires ValidSchema(s) && IsDiff(s, b, m, es)
    ensures Pointwise(b, es, m)
  {
    forall i | 0 <= i < |es|
      ensures RowStep(es[i], Get(b, IdOf(es[i]))) == Some(Get(m, IdOf(es[i])))
    {
      IsRowDiffFacts(s, b, m, IdOf(es[i]), es[i]);
    }
    forall id: RowId | !Touches(es, id) ensures Get(b, id) == Get(m, id) {
      assert id !in Changed(b, m);
    }
  }

  /** The changeset is empty exactly when the databases are equal. */
  lemma DiffEmptyIff(s: Schema, b: Db, m: Db, es: seq<Entry>)
    requires ValidSchema(s) && DbOver(s, b) && DbOver(s, m) && IsDiff(s, b, m, es)
    ensures es == [] <==> b == m
  {
    if es == [] {
      DiffApplies(s, b, m, es);
    }
    if es != [] {
      IsRowDiffFacts(s, b, m, IdOf(es[0]), es[0]);
    }
  }

  lemma RowDiffNotTwice(id: RowId, t: ChangesetTable, b: Option<Row>, m: Option<Row>)
    requires OptionFits(id, t, b) && OptionFits(id, t, m) && b != m
    ensures var e := RowDiff(t, b, m).value; e.WellShaped() && RowStep(e, m) == None
  {
    if b.Some? && m.Some? {
      var x, y := b.value, m.value;
      forall j | 0 <= j < |x| && t.primaryKeys[j] ensures x[j] == y[j] {
        assert KeyOf(t.primaryKeys, x)[j] == KeyOf(t.primaryKeys, y)[j];
      }
      assert (forall i | 0 <= i < |x| :: x[i] == y[i]) ==> x == y;
      var i :| 0 <= i < |x| && x[i] != y[i];
      assert RowDiff(t, b, m).value.oldValues[i] == x[i];
    }
  }

  lemma {:induction false} FirstFails(db: Db, es: seq<Entry>)
    requires Shaped(es) && es != [] && Strict(db, es[0]) == None
    ensures ApplyAll(db, es) == None
    decreases |es|
  {
    if |es| == 1 {
      assert es[..0] == [];
    } else {
      FirstFails(db, es[..|es| - 1]);
    }
  }

  /** A changeset applies strictly to the database it leads to only if it changes nothing. */
  lemma DiffAppliesOnce(s: Schema, b: Db, m: Db, es: seq<Entry>)
    requires ValidSchema(s) && DbOver(s, b) && DbOver(s, m) && IsDiff(s, b, m, es)
    ensures ApplyAll(m, es).Some? <==> b == m
  {
    DiffEmptyIff(s, b, m, es);
    if es != [] {
      var id := IdOf(es[0]);
      RowDiffNotTwice(id, s[id.table], Get(b, id), Get(m, id));
      IsRowDiffFacts(s, b, m, id, es[0]);
      StrictIsRowStep(s, m, es[0]);
      FirstFails(m, es);
    }
  }

  /** Two changesets between the same databases have the same entries. */
  lemma DiffUnique(s: Schema, b: Db, m: Db, es: seq<Entry>, fs: seq<Entry>)
    requires IsDiff(s, b, m, es) && IsDiff(s, b, m, fs)
    ensures forall e :: e in es <==> e in fs
  {
    forall e | e in es ensures e in fs {
      DiffEntryShared(s, b, m, es, fs, e);
    }
    forall e | e in fs ensures e in es {
      DiffEntryShared(s, b, m, fs, es, e);
    }
  }

  lemma DiffEntryShared(s: Schema, b: Db, m: Db, es: seq<Entry>, fs: seq<Entry>, e: Entry)
    requires IsDiff(s, b, m, es) && IsDiff(s, b, m, fs) && e in es
    ensures e in fs
  {
    var i :| 0 <= i < |es| && es[i] == e;
    assert Touches(fs, IdOf(e));
    var j :| 0 <= j < |fs| && IdOf(fs[j]) == IdOf(e);
    assert IsRowDiff(s, b, m, IdOf(fs[j]), fs[j]);
  }

  // ----- The diffing loops -----

  /** Two changesets over disjoint rows, one after the other. */
  lemma DiffOverConcat(s: Schema, b: Db, m: Db, es: seq<Entry>, ids: set<RowId>, fs: seq<Entry>, jds: set<RowId>)
    requires DiffOver(s, b, m, es, ids) && DiffOver(s, b, m, fs, jds) && ids !! jds
    ensures DiffOver(s, b, m, es + fs, ids + jds)
  {
    DistinctConcat(es, fs);
    forall id | id in ids + jds ensures Touches(es + fs, id) {
      TouchesConcat(es, fs, id);
    }
    forall i | 0 <= i < |es + fs|
      ensures IdOf((es + fs)[i]) in ids + jds && IsRowDiff(s, b, m, IdOf((es + fs)[i]), (es + fs)[i])
    {
      assert (es + fs)[i] == if i < |es| then es[i] else fs[i - |es|];
    }
  }

  lemma DiffOverSnoc(s: Schema, b: Db, m: Db, es: seq<Entry>, ids: set<RowId>, e: Entry, id: RowId)
    requires ValidSchema(s) && DiffOver(s, b, m, es, ids) && IsRowDiff(s, b, m, id, e) && id !in ids
    ensures DiffOver(s, b, m, es + [e], ids + {id})
  {
    DiffOverOne(s, b, m, e, id);
    DiffOverConcat(s, b, m, es, ids, [e], {id});
  }

  lemma DiffOverOne(s: Schema, b: Db, m: Db, e: Entry, id: RowId)
    requires ValidSchema(s) && IsRowDiff(s, b, m, id, e)
    ensures DiffOver(s, b, m, [e], {id})
  {
    IsRowDiffFacts(s, b, m, id, e);
    assert [e][0] == e;
  }

  /** The rows sqlFindInserted selects: rows of one side whose key the other side lacks. */
  function FoundInserted(t: Name, from: Db, other: Db): set<RowId> {
    set id | id in from && id.table == t && id !in other
  }

  /** The pairs sqlFindModified selects: equal keys, some column off the key different. */
  function FoundModified(t: ChangesetTable, main: Db, aux: Db): set<RowId> {
    set id | id in main && id.table == t.name && id in aux && main[id] != aux[id]
  }

  /** The rows of one table fit its columns. */
  ghost predicate TableFits(t: ChangesetTable, db: Db) {
    forall id | id in db && id.table == t.name :: RowFits(id, t, db[id])
  }

  lemma OneLess(found: set<RowId>, todo: set<RowId>, id: RowId)
    requires id in todo && todo <= found
    ensures (found - todo) + {id} == found - (todo - {id})
  {
  }

  /** Rows come in an arbitrary order. With `reverse` the rows of `aux` missing from `main` are deletions. */
  method HandleInserted(s: Schema, t: Name, main: Db, aux: Db, reverse: bool) returns (es: seq<Entry>)
    requires ValidSchema(s) && t in s && TableFits(s[t], main) && TableFits(s[t], aux)
    ensures DiffOver(s, aux, main, es, if reverse then FoundInserted(t, aux, main) else FoundInserted(t, main, aux))
    ensures forall i | 0 <= i < |es| :: es[i].op == (if reverse then Delete else Insert) && es[i].table == s[t]
  {
    var from := if reverse then aux else main;
    var found := if reverse then FoundInserted(t, aux, main) else FoundInserted(t, main, aux);
    var todo := found;
    es := [];
    while todo != {}
      invariant todo <= found
      invariant DiffOver(s, aux, main, es, found - todo)
      invariant forall i | 0 <= i < |es| :: es[i].op == (if reverse then Delete else Insert) && es[i].table == s[t]
      decreases todo
    {
      var id :| id in todo;
      var vals := from[id];
      var e := if reverse then Entry(Delete, vals, [], s[t]) else Entry(Insert, [], vals, s[t]);
      DiffOverSnoc(s, aux, main, es, found - todo, e, id);
      OneLess(found, todo, id);
      es := es + [e];
      todo := todo - {id};
    }
    assert found - todo == found;
  }

  /** The column loop: values of the base row (`vOld`) and of the modified row (`vNew`) into one UPDATE. */
  method CompareRows(t: ChangesetTable, vOld: Row, vNew: Row) returns (e: Entry, hasUpdates: bool)
    requires |vOld| == |vNew| == t.ColumnCount()
    ensures hasUpdates <==> vOld != vNew
    ensures e == Entry(Update, CanonicalOld(t.primaryKeys, vOld, vNew), CanonicalNew(vOld, vNew), t)
  {
    var oldValues, newValues := [], [];
    hasUpdates := false;
    for i := 0 to |vOld|
      invariant |oldValues| == |newValues| == i
      invariant forall j | 0 <= j < i :: oldValues[j] == CanonicalOld(t.primaryKeys, vOld, vNew)[j]
      invariant forall j | 0 <= j < i :: newValues[j] == CanonicalNew(vOld, vNew)[j]
      invariant hasUpdates <==> exists j :: 0 <= j < i && vOld[j] != vNew[j]
    {
      var updated := vOld[i] != vNew[i];
      if updated {
        hasUpdates := true;
      }
      oldValues := oldValues + [if t.primaryKeys[i] || updated then vOld[i] else Undefined];
      newValues := newValues + [if updated then vNew[i] else Undefined];
    }
    assert oldValues == CanonicalOld(t.primaryKeys, vOld, vNew) && newValues == CanonicalNew(vOld, vNew);
    e := Entry(Update, oldValues, newValues, t);
  }

  lemma ModifiedIsRowDiff(s: Schema, t: Name, main: Db, aux: Db, id: RowId)
    requires ValidSchema(s) && t in s && TableFits(s[t], main) && TableFits(s[t], aux)
    requires id in FoundModified(s[t], main, aux)
    ensures |aux[id]| == |main[id]| == s[t].ColumnCount()
    ensures IsRowDiff(s, aux, main, id,
                      Entry(Update, CanonicalOld(s[t].primaryKeys, aux[id], main[id]), CanonicalNew(aux[id], main[id]), s[t]))
  {
  }

  method HandleUpdated(s: Schema, t: Name, main: Db, aux: Db) returns (es: seq<Entry>)
    requires ValidSchema(s) && t in s && TableFits(s[t], main) && TableFits(s[t], aux)
    ensures DiffOver(s, aux, main, es, FoundModified(s[t], main, aux))
    ensures forall i | 0 <= i < |es| :: es[i].op == Update && es[i].table == s[t]
  {
    var found := FoundModified(s[t], main, aux);
    var todo := found;
    es := [];
    while todo != {}
      invariant todo <= found
      invariant DiffOver(s, aux, main, es, found - todo)
      invariant forall i | 0 <= i < |es| :: es[i].op == Update && es[i].table == s[t]
      decreases todo
    {
      var id :| id in todo;
      ModifiedIsRowDiff(s, t, main, aux, id);
      var e, hasUpdates := CompareRows(s[t], aux[id], main[id]);
      if hasUpdates {
        DiffOverSnoc(s, aux, main, es, found - todo, e, id);
        es := es + [e];
      }
      OneLess(found, todo, id);
      todo := todo - {id};
    }
    assert found - todo == found;
  }

  /** One side of the attached pair: its tables in listing order, their columns, its rows. */
  datatype Side = Side(tables: seq<Name>, schema: map<Name, TableSchema>, rows: Db)

  datatype DiffError = TablesDiffer | SchemasDiffer(table: Name)

  datatype DiffResult = Diffed(entries: seq<Entry>) | DiffFailed(error: DiffError)

  /** The listing names each table once and describes it; rows belong to tables with a primary key. */
  ghost predicate ValidSide(d: Side) {
    && (forall i, j | 0 <= i < j < |d.tables| :: d.tables[i] != d.tables[j])
    && (forall t | t in d.tables :: t in d.schema && d.schema[t].name == t)
    && DbOver(Tracked(d), d.rows)
  }

  /** The tables the changeset covers: listed ones with a primary key. */
  function Tracked(d: Side): Schema {
    map t | t in d.tables && t in d.schema && d.schema[t].HasPrimaryKey() :: d.schema[t].Table()
  }

  ghost function ChangedIn(b: Db, m: Db, ts: seq<Name>): set<RowId> {
    set id | id in Changed(b, m) && id.table in ts
  }

  lemma QueriesCoverTable(t: ChangesetTable, main: Db, aux: Db)
    ensures FoundInserted(t.name, main, aux) + FoundInserted(t.name, aux, main) + FoundModified(t, main, aux)
            == ChangedIn(aux, main, [t.name])
    ensures FoundInserted(t.name, main, aux) !! FoundInserted(t.name, aux, main) !! FoundModified(t, main, aux)
  {
  }

  lemma InsertsThenOthers(es: seq<Entry>, fs: seq<Entry>)
    requires InsertsFirst(es) && forall i | 0 <= i < |fs| :: fs[i].op != Insert
    ensures InsertsFirst(es + fs)
  {
  }

  /** The three queries of one table, written behind one another. */
  method DiffTable(s: Schema, t: Name, main: Db, aux: Db) returns (es: seq<Entry>)
    requires ValidSchema(s) && t in s && TableFits(s[t], main) && TableFits(s[t], aux)
    ensures DiffOver(s, aux, main, es, ChangedIn(aux, main, [t]))
    ensures InsertsFirst(es) && forall i, j | 0 <= i < j < |es| :: Rank(es[i].op) <= Rank(es[j].op)
    ensures forall i | 0 <= i < |es| :: es[i].table == s[t]
  {
    var inserted := HandleInserted(s, t, main, aux, false);
    var deleted := HandleInserted(s, t, main, aux, true);
    var updated := HandleUpdated(s, t, main, aux);
    ghost var ins, del, upd := FoundInserted(t, main, aux), FoundInserted(t, aux, main), FoundModified(s[t], main, aux);
    QueriesCoverTable(s[t], main, aux);
    DiffOverConcat(s, aux, main, inserted, ins, deleted, del);
    DiffOverConcat(s, aux, main, inserted + deleted, ins + del, updated, upd);
    InsertsThenOthers(inserted, deleted);
    InsertsThenOthers(inserted + deleted, updated);
    es := inserted + deleted + updated;
  }

  lemma ChangedInSnoc(b: Db, m: Db, ts: seq<Name>, t: Name)
    ensures ChangedIn(b, m, ts + [t]) == ChangedIn(b, m, ts) + ChangedIn(b, m, [t])
    ensures t !in ts ==> ChangedIn(b, m, ts) !! ChangedIn(b, m, [t])
  {
  }

  lemma InsertsFirstConcat(es: seq<Entry>, fs: seq<Entry>, ts: seq<Name>, t: Name)
    requires InsertsFirst(es) && InsertsFirst(fs) && t !in ts
    requires forall i | 0 <= i < |es| :: es[i].table.name in ts
    requires forall i | 0 <= i < |fs| :: fs[i].table.name == t
    ensures InsertsFirst(es + fs)
  {
  }

  /** Rows of untracked tables are not part of a side. */
  lemma UntrackedUnchanged(base: Side, modified: Side, t: Name)
    requires ValidSide(base) && ValidSide(modified)
    requires t in base.tables && t in modified.tables && base.schema[t].Comparable(modified.schema[t])
    ensures base.schema[t].HasPrimaryKey() ==> TableFits(base.schema[t].Table(), base.rows) && TableFits(base.schema[t].Table(), modified.rows)
    ensures !base.schema[t].HasPrimaryKey() ==> ChangedIn(base.rows, modified.rows, [t]) == {}
  {
    ComparableTables(base.schema[t], modified.schema[t]);
  }

  /** The changeset of the first k tables. */
  ghost predicate DiffedUpTo(base: Side, modified: Side, k: nat, es: seq<Entry>)
    requires ValidSide(base) && k <= |base.tables|
  {
    && DiffOver(Tracked(base), base.rows, modified.rows, es, ChangedIn(base.rows, modified.rows, base.tables[..k]))
    && InBlocks(es, base.tables[..k])
    && InsertsFirst(es) && QueryOrder(base.tables, es)
  }

  lemma NextInOrder(tables: seq<Name>, k: nat, es: seq<Entry>, added: seq<Entry>)
    requires k < |tables| && QueryOrder(tables, es) && forall i | 0 <= i < |es| :: es[i].table.name in tables[..k]
    requires forall i | 0 <= i < |added| :: added[i].table.name == tables[k]
    requires forall i, j | 0 <= i < j < |added| :: Rank(added[i].op) <= Rank(added[j].op)
    requires forall i, j | 0 <= i < j < |tables| :: tables[i] != tables[j]
    ensures QueryOrder(tables, es + added)
  {
    var all := es + added;
    forall i, j | 0 <= i < j < |all|
      ensures if all[i].table.name == all[j].table.name then Rank(all[i].op) <= Rank(all[j].op)
              else Listed(tables, all[i].table.name, all[j].table.name)
    {
      if i < |es| <= j {
        var a :| 0 <= a < k && tables[a] == es[i].table.name;
        assert tables[a] != tables[k];
      }
    }
  }

  /** One more table. */
  lemma NextTable(base: Side, modified: Side, k: nat, es: seq<Entry>, added: seq<Entry>)
    requires ValidSide(base) && k < |base.tables| && DiffedUpTo(base, modified, k, es)
    requires DiffOver(Tracked(base), base.rows, modified.rows, added, ChangedIn(base.rows, modified.rows, [base.tables[k]]))
    requires InsertsFirst(added) && forall i | 0 <= i < |added| :: added[i].table.name == base.tables[k]
    requires forall i, j | 0 <= i < j < |added| :: Rank(added[i].op) <= Rank(added[j].op)
    ensures DiffedUpTo(base, modified, k + 1, es + added)
  {
    var t := base.tables[k];
    ChangedInSnoc(base.rows, modified.rows, base.tables[..k], t);
    assert base.tables[..k + 1] == base.tables[..k] + [t];
    DiffOverConcat(Tracked(base), base.rows, modified.rows, es, ChangedIn(base.rows, modified.rows, base.tables[..k]),
                   added, ChangedIn(base.rows, modified.rows, [t]));
    InsertsFirstConcat(es, added, base.tables[..k], t);
    AddBlock(es, added, base.tables[..k], t);
    NextInOrder(base.tables, k, es, added);
  }

  lemma AllTables(base: Side, modified: Side, es: seq<Entry>)
    requires ValidSide(base) && ValidSide(modified) && base.tables == modified.tables
    requires DiffedUpTo(base, modified, |base.tables|, es)
    ensures IsDiff(Tracked(base), base.rows, modified.rows, es) && InsertsFirst(es) && TableByTable(es) && QueryOrder(base.tables, es)
  {
    assert base.tables[..|base.tables|] == base.tables;
    assert ChangedIn(base.rows, modified.rows, base.tables) == Changed(base.rows, modified.rows);
  }

  /** A table without primary key has no part in the changeset. */
  method DiffOne(base: Side, modified: Side, t: Name) returns (es: seq<Entry>)
    requires ValidSide(base) && ValidSide(modified) && t in base.tables && t in modified.tables
    requires base.schema[t].Comparable(modified.schema[t])
    ensures DiffOver(Tracked(base), base.rows, modified.rows, es, ChangedIn(base.rows, modified.rows, [t]))
    ensures InsertsFirst(es) && forall i, j | 0 <= i < j < |es| :: Rank(es[i].op) <= Rank(es[j].op)
    ensures forall i | 0 <= i < |es| :: es[i].table.name == t
  {
    UntrackedUnchanged(base, modified, t);
    es := [];
    if base.schema[t].HasPrimaryKey() {
      es := DiffTable(Tracked(base), t, modified.rows, base.rows);
    }
  }

  /** Succeeds exactly when both sides list the same tables, comparable in pairs, and is then a diff. */
  method CreateChangeset(base: Side, modified: Side) returns (r: DiffResult)
    requires ValidSide(base) && ValidSide(modified)
    ensures r.Diffed? <==>
              base.tables == modified.tables && forall t | t in base.tables :: base.schema[t].CompareWithBaseTypes(modified.schema[t])
    ensures r.Diffed? ==> IsDiff(Tracked(base), base.rows, modified.rows, r.entries) && InsertsFirst(r.entries) && TableByTable(r.entries)
    ensures r.Diffed? ==> QueryOrder(base.tables, r.entries)
    ensures r.DiffFailed? && r.error.SchemasDiffer? ==>
              r.error.table in base.tables && r.error.table in modified.tables &&
              !base.schema[r.error.table].CompareWithBaseTypes(modified.schema[r.error.table])
  {
    if base.tables != modified.tables {
      return DiffFailed(TablesDiffer);
    }
    var es := [];
    for k := 0 to |base.tables|
      invariant forall i | 0 <= i < k :: base.schema[base.tables[i]].CompareWithBaseTypes(modified.schema[base.tables[i]])
      invariant DiffedUpTo(base, modified, k, es)
    {
      var t := base.tables[k];
      ComparableTables(base.schema[t], modified.schema[t]);
      if !base.schema[t].Equal(modified.schema[t]) && !base.schema[t].CompareWithBaseTypes(modified.schema[t]) {
        return DiffFailed(SchemasDiffer(t));
      }
      var added := DiffOne(base, modified, t);
      NextTable(base, modified, k, es, added);
      es := es + added;
    }
    AllTables(base, modified, es);
    r := Diffed(es);
  }
}
