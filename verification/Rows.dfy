/**
 Databases as maps from row identities to rows, and what the statements of
 applyInsert, applyUpdate and applyDelete (driver/sqlite.go) do to them.
 */
module Rows {
  import opened Values

  /** A row identity: its table and its key, a row that is undefined off the key columns. */
  datatype RowId = RowId(table: Name, key: Row)

  type Db = map<RowId, Row>

  function KeyOf(pks: seq<bool>, vals: Row): (key: Row)
    requires |pks| == |vals|
    ensures |key| == |vals|
  {
    seq(|pks|, i requires 0 <= i < |pks| => if pks[i] then vals[i] else Undefined)
  }

  /** SQL `=` never holds of NULL, and an undefined value is bound as NULL. */
  predicate KeyDefined(pks: seq<bool>, vals: Row)
    requires |pks| == |vals|
  {
    forall i | 0 <= i < |pks| && pks[i] :: !vals[i].Undefined? && !vals[i].Null?
  }

  function IdOf(e: Entry): RowId
    requires e.WellShaped()
  {
    RowId(e.table.name, KeyOf(e.table.primaryKeys, e.KeyValues()))
  }

  /** Undefined values are bound as NULL. */
  function Stored(vals: Row): (row: Row)
    ensures |row| == |vals|
    ensures AllDefined(vals) ==> row == vals
  {
    seq(|vals|, i requires 0 <= i < |vals| => if vals[i].Undefined? then Null else vals[i])
  }

  function Overlay(row: Row, new_: Row): (r: Row)
    requires |row| == |new_|
    ensures |r| == |row|
  {
    seq(|row|, i requires 0 <= i < |row| => if new_[i].Undefined? then row[i] else new_[i])
  }

  /** The WHERE clause off the key: every defined old value is the stored one. */
  predicate Matches(pks: seq<bool>, old_: Row, row: Row)
    requires |pks| == |old_|
  {
    && |row| == |old_|
    && forall i | 0 <= i < |pks| :: pks[i] || old_[i].Undefined? || old_[i] == row[i]
  }

  predicate AnyDefined(vals: Row) {
    exists i | 0 <= i < |vals| :: !vals[i].Undefined?
  }

  datatype Outcome = Applied(db: Db) | ConstraintConflict | NoChange

  /** One statement against the database, the primary key being its only constraint. */
  function Statement(db: Db, e: Entry): Outcome
    requires e.WellShaped()
  {
    var pks := e.table.primaryKeys;
    var id := IdOf(e);
    match e.op
    case Insert =>
      if !KeyDefined(pks, e.newValues) || id in db then ConstraintConflict
      else Applied(db[id := Stored(e.newValues)])
    case Update =>
      if !AnyDefined(e.newValues) then NoChange
      else if !KeyDefined(pks, e.oldValues) || id !in db || !Matches(pks, e.oldValues, db[id]) then NoChange
      else
        var row := Overlay(db[id], e.newValues);
        var newId := RowId(e.table.name, KeyOf(pks, row));
        if !KeyDefined(pks, row) || (newId != id && newId in db) then ConstraintConflict
        else Applied((db - {id})[newId := row])
    case Delete =>
      if !KeyDefined(pks, e.oldValues) || id !in db || !Matches(pks, e.oldValues, db[id]) then NoChange
      else Applied(db - {id})
  }

  /** An entry is applied strictly when its statement changes exactly the row it names. */
  function Strict(db: Db, e: Entry): Option<Db>
    requires e.WellShaped()
  {
    match Statement(db, e)
    case Applied(d) => Some(d)
    case _ => None
  }

  ghost predicate Shaped(es: seq<Entry>) {
    forall i | 0 <= i < |es| :: es[i].WellShaped()
  }

  /** Strict application of a whole changeset, in order. */
  ghost function ApplyAll(db: Db, es: seq<Entry>): Option<Db>
    requires Shaped(es)
  {
    if es == [] then Some(db)
    else
      match ApplyAll(db, es[..|es| - 1])
      case None => None
      case Some(d) => Strict(d, es[|es| - 1])
  }

  lemma {:induction false} ApplyAllConcat(db: Db, a: seq<Entry>, b: seq<Entry>)
    requires Shaped(a) && Shaped(b)
    ensures Shaped(a + b)
    ensures ApplyAll(db, a + b) ==
            (match ApplyAll(db, a) case None => None case Some(d) => ApplyAll(d, b))
    decreases |b|
  {
    if b == [] {
      assert a + b == a;
    } else {
      var b' := b[..|b| - 1];
      ApplyAllConcat(db, a, b');
      assert (a + b)[..|a + b| - 1] == a + b';
    }
  }

  lemma ApplyTwo(db: Db, e0: Entry, e1: Entry)
    requires e0.WellShaped() && e1.WellShaped()
    ensures ApplyAll(db, [e0, e1]) == (match Strict(db, e0) case None => None case Some(d) => Strict(d, e1))
  {
    assert [e0, e1][..1] == [e0] && [e0][..0] == [];
    assert ApplyAll(db, [e0][..0]) == Some(db);
    assert ApplyAll(db, [e0]) == Strict(db, e0);
  }

  // ----- Row by row -----

  /** No UPDATE sets a key column. */
  predicate KeepsKey(e: Entry)
    requires e.WellShaped()
  {
    e.op == Update ==> forall i | 0 <= i < |e.newValues| && e.table.primaryKeys[i] :: e.newValues[i].Undefined?
  }

  function Get(db: Db, id: RowId): Option<Row> {
    if id in db then Some(db[id]) else None
  }

  function Put(db: Db, id: RowId, r: Option<Row>): Db {
    match r
    case None => db - {id}
    case Some(row) => db[id := row]
  }

  /** What an entry does to the one row it names; None when it does not apply strictly. */
  function RowStep(e: Entry, r: Option<Row>): Option<Option<Row>>
    requires e.WellShaped()
  {
    var pks := e.table.primaryKeys;
    match e.op
    case Insert =>
      if r.None? && KeyDefined(pks, e.newValues) then Some(Some(Stored(e.newValues))) else None
    case Update =>
      if r.Some? && AnyDefined(e.newValues) && KeyDefined(pks, e.oldValues) && Matches(pks, e.oldValues, r.value)
      then Some(Some(Overlay(r.value, e.newValues))) else None
    case Delete =>
      if r.Some? && KeyDefined(pks, e.oldValues) && Matches(pks, e.oldValues, r.value) then Some(None) else None
  }

  /** Every stored row sits under its own key, is fully defined and has a proper key. */
  predicate RowFits(id: RowId, t: ChangesetTable, row: Row) {
    && id.table == t.name
    && |row| == t.ColumnCount()
    && AllDefined(row)
    && KeyDefined(t.primaryKeys, row)
    && id.key == KeyOf(t.primaryKeys, row)
  }

  type Schema = map<Name, ChangesetTable>

  /** Tables are filed under their names and have a primary key. */
  ghost predicate ValidSchema(s: Schema) {
    forall t | t in s :: s[t].name == t && true in s[t].primaryKeys
  }

  ghost predicate DbOver(s: Schema, db: Db) {
    forall id | id in db :: id.table in s && RowFits(id, s[id.table], db[id])
  }

  /** Headers of one table name agree, and entries have as many values as columns. */
  ghost predicate EntryOver(s: Schema, e: Entry) {
    e.WellShaped() && e.table.name in s && e.table == s[e.table.name]
  }

  ghost predicate OverSchema(s: Schema, es: seq<Entry>) {
    forall i | 0 <= i < |es| :: EntryOver(s, es[i])
  }

  /** An entry over schema `s` that does not move its row to another key. */
  ghost predicate EntryFits(s: Schema, e: Entry) {
    EntryOver(s, e) && KeepsKey(e)
  }

  ghost predicate Fits(s: Schema, es: seq<Entry>) {
    forall i | 0 <= i < |es| :: EntryFits(s, es[i])
  }

  /** A strict statement of a key-keeping entry changes its own row only, by RowStep. */
  lemma StrictIsRowStep(s: Schema, db: Db, e: Entry)
    requires DbOver(s, db) && EntryFits(s, e)
    ensures var r := RowStep(e, Get(db, IdOf(e)));
            Strict(db, e) == if r.None? then None else Some(Put(db, IdOf(e), r.value))
    ensures Strict(db, e).Some? ==> DbOver(s, Strict(db, e).value)
  {
    var id, pks := IdOf(e), e.table.primaryKeys;
    match e.op
    case Insert =>
      if KeyDefined(pks, e.newValues) {
        assert KeyOf(pks, Stored(e.newValues)) == id.key;
      }
    case Update =>
      if id in db && KeyDefined(pks, e.oldValues) && Matches(pks, e.oldValues, db[id]) {
        var row := Overlay(db[id], e.newValues);
        assert KeyOf(pks, row) == KeyOf(pks, db[id]) == id.key;
        forall i | 0 <= i < |pks| && pks[i] ensures row[i] == db[id][i] {
        }
        assert (db - {id})[id := row] == db[id := row];
      }
    case Delete =>
  }

  lemma {:induction false} ApplyAllKeepsDb(s: Schema, db: Db, es: seq<Entry>)
    requires DbOver(s, db) && Fits(s, es)
    ensures ApplyAll(db, es).Some? ==> DbOver(s, ApplyAll(db, es).value)
  {
    if es != [] {
      var init, e := es[..|es| - 1], es[|es| - 1];
      ApplyAllKeepsDb(s, db, init);
      if ApplyAll(db, init).Some? {
        StrictIsRowStep(s, ApplyAll(db, init).value, e);
      }
    }
  }

  // ----- Changesets that name each row once -----

  ghost predicate DistinctIds(es: seq<Entry>)
    requires Shaped(es)
  {
    forall i, j | 0 <= i < j < |es| :: IdOf(es[i]) != IdOf(es[j])
  }

  ghost predicate Touches(es: seq<Entry>, id: RowId)
    requires Shaped(es)
  {
    exists i :: 0 <= i < |es| && IdOf(es[i]) == id
  }

  /** Each entry takes its row of `db` to its row of `db'`; rows no entry names are equal. */
  ghost predicate Pointwise(db: Db, es: seq<Entry>, db': Db)
    requires Shaped(es)
  {
    && (forall i | 0 <= i < |es| :: RowStep(es[i], Get(db, IdOf(es[i]))) == Some(Get(db', IdOf(es[i]))))
    && (forall id: RowId :: !Touches(es, id) ==> Get(db, id) == Get(db', id))
  }

  lemma GetDeterminesDb(a: Db, b: Db)
    requires forall id: RowId :: Get(a, id) == Get(b, id)
    ensures a == b
  {
    forall id: RowId ensures id in a <==> id in b {
      assert Get(a, id) == Get(b, id);
    }
    forall id | id in a ensures a[id] == b[id] {
      assert Get(a, id) == Get(b, id);
    }
  }

  lemma TouchesSnoc(init: seq<Entry>, e: Entry, id: RowId)
    requires Shaped(init + [e])
    ensures Shaped(init) && e.WellShaped()
    ensures Touches(init + [e], id) <==> Touches(init, id) || IdOf(e) == id
  {
    var es := init + [e];
    assert forall i | 0 <= i < |init| :: init[i] == es[i];
    assert es[|init|] == e;
    if Touches(init, id) {
      var i :| 0 <= i < |init| && IdOf(init[i]) == id;
      assert IdOf(es[i]) == id;
    }
    if Touches(es, id) {
      var i :| 0 <= i < |es| && IdOf(es[i]) == id;
      assert i < |init| ==> IdOf(init[i]) == id;
    }
  }

  lemma TouchesConcat(es: seq<Entry>, fs: seq<Entry>, id: RowId)
    requires Shaped(es) && Shaped(fs)
    ensures Shaped(es + fs)
    ensures Touches(es + fs, id) <==> Touches(es, id) || Touches(fs, id)
  {
    var all := es + fs;
    assert forall i | 0 <= i < |all| :: all[i] == if i < |es| then es[i] else fs[i - |es|];
    if Touches(es, id) {
      var i :| 0 <= i < |es| && IdOf(es[i]) == id;
      assert IdOf(all[i]) == id;
    }
    if Touches(fs, id) {
      var i :| 0 <= i < |fs| && IdOf(fs[i]) == id;
      assert IdOf(all[|es| + i]) == id;
    }
  }

  lemma DistinctConcat(es: seq<Entry>, fs: seq<Entry>)
    requires Shaped(es) && Shaped(fs) && DistinctIds(es) && DistinctIds(fs)
    requires forall i, j | 0 <= i < |es| && 0 <= j < |fs| :: IdOf(es[i]) != IdOf(fs[j])
    ensures Shaped(es + fs) && DistinctIds(es + fs)
  {
    var all := es + fs;
    assert forall i | 0 <= i < |all| :: all[i] == if i < |es| then es[i] else fs[i - |es|];
  }

  lemma DistinctSnoc(init: seq<Entry>, e: Entry)
    requires Shaped(init + [e])
    ensures Shaped(init) && e.WellShaped()
    ensures DistinctIds(init + [e]) <==> DistinctIds(init) && !Touches(init, IdOf(e))
  {
    var es := init + [e];
    assert forall i | 0 <= i < |init| :: init[i] == es[i];
    assert es[|init|] == e;
    if DistinctIds(es) {
      forall i | 0 <= i < |init| ensures IdOf(init[i]) != IdOf(e) {
        assert IdOf(es[i]) != IdOf(es[|init|]);
      }
    }
  }

  lemma PutBack(db: Db, id: RowId, r: Option<Row>)
    ensures Put(Put(db, id, r), id, Get(db, id)) == db
    ensures Get(Put(db, id, r), id) == r
  {
    GetDeterminesDb(Put(Put(db, id, r), id, Get(db, id)), db);
  }

  lemma {:induction false} AppliedIsPointwise(s: Schema, db: Db, es: seq<Entry>, db': Db)
    requires DbOver(s, db) && Fits(s, es) && DistinctIds(es)
    requires ApplyAll(db, es) == Some(db')
    ensures Pointwise(db, es, db')
  {
    if es != [] {
      var init, e := es[..|es| - 1], es[|es| - 1];
      assert es == init + [e];
      DistinctSnoc(init, e);
      var d1 := ApplyAll(db, init).value;
      AppliedIsPointwise(s, db, init, d1);
      ApplyAllKeepsDb(s, db, init);
      StrictIsRowStep(s, d1, e);
      PointwiseSnoc(db, init, e, d1, db');
    }
  }

  lemma {:induction false} PointwiseIsApplied(s: Schema, db: Db, es: seq<Entry>, db': Db)
    requires DbOver(s, db) && Fits(s, es) && DistinctIds(es)
    requires Pointwise(db, es, db')
    ensures ApplyAll(db, es) == Some(db')
  {
    if es == [] {
      GetDeterminesDb(db, db');
    } else {
      var init, e := es[..|es| - 1], es[|es| - 1];
      assert es == init + [e];
      DistinctSnoc(init, e);
      var d1 := Put(db', IdOf(e), Get(db, IdOf(e)));
      PointwiseInit(db, init, e, db');
      PointwiseIsApplied(s, db, init, d1);
      ApplyAllKeepsDb(s, db, init);
      StrictIsRowStep(s, d1, e);
      PutBack(db', IdOf(e), Get(db, IdOf(e)));
    }
  }

  /**
   The central fact about changesets that name each row once: applying them
   strictly, in order, reaches db' exactly when each entry on its own takes its
   row there.  The right side does not mention an order.
   */
  lemma ApplyAllIffPointwise(s: Schema, db: Db, es: seq<Entry>, db': Db)
    requires DbOver(s, db) && Fits(s, es) && DistinctIds(es)
    ensures ApplyAll(db, es) == Some(db') <==> Pointwise(db, es, db')
  {
    if ApplyAll(db, es) == Some(db') {
      AppliedIsPointwise(s, db, es, db');
    }
    if Pointwise(db, es, db') {
      PointwiseIsApplied(s, db, es, db');
    }
  }

  lemma PointwiseSnoc(db: Db, init: seq<Entry>, e: Entry, d1: Db, db': Db)
    requires Shaped(init + [e]) && DistinctIds(init + [e])
    requires Shaped(init) && Pointwise(db, init, d1)
    requires e.WellShaped()
    requires RowStep(e, Get(d1, IdOf(e))).Some?
    requires db' == Put(d1, IdOf(e), RowStep(e, Get(d1, IdOf(e))).value)
    ensures Pointwise(db, init + [e], db')
  {
    var es := init + [e];
    DistinctSnoc(init, e);
    assert Get(db, IdOf(e)) == Get(d1, IdOf(e));
    forall i | 0 <= i < |es|
      ensures RowStep(es[i], Get(db, IdOf(es[i]))) == Some(Get(db', IdOf(es[i])))
    {
      if i < |init| {
        assert es[i] == init[i];
        assert RowStep(init[i], Get(db, IdOf(init[i]))) == Some(Get(d1, IdOf(init[i])));
        assert IdOf(es[i]) != IdOf(es[|init|]);
      }
    }
    forall x: RowId | !Touches(es, x) ensures Get(db, x) == Get(db', x) {
      TouchesSnoc(init, e, x);
    }
  }

  lemma PointwiseInit(db: Db, init: seq<Entry>, e: Entry, db': Db)
    requires Shaped(init + [e]) && DistinctIds(init + [e]) && Pointwise(db, init + [e], db')
    requires Shaped(init) && e.WellShaped()
    ensures Pointwise(db, init, Put(db', IdOf(e), Get(db, IdOf(e))))
    ensures RowStep(e, Get(db, IdOf(e))) == Some(Get(db', IdOf(e)))
  {
    var es := init + [e];
    var d1 := Put(db', IdOf(e), Get(db, IdOf(e)));
    DistinctSnoc(init, e);
    assert es[|init|] == e;
    forall i | 0 <= i < |init|
      ensures RowStep(init[i], Get(db, IdOf(init[i]))) == Some(Get(d1, IdOf(init[i])))
    {
      assert es[i] == init[i];
      assert IdOf(es[i]) != IdOf(es[|init|]);
      assert RowStep(es[i], Get(db, IdOf(es[i]))) == Some(Get(db', IdOf(es[i])));
    }
    forall x: RowId | !Touches(init, x) ensures Get(db, x) == Get(d1, x) {
      TouchesSnoc(init, e, x);
    }
  }

  /** Entries that name each row once and each apply to their row apply together. */
  lemma {:induction false} StepsApply(s: Schema, db: Db, es: seq<Entry>)
    requires DbOver(s, db) && Fits(s, es) && DistinctIds(es)
    requires forall i | 0 <= i < |es| :: RowStep(es[i], Get(db, IdOf(es[i]))).Some?
    ensures ApplyAll(db, es).Some?
    decreases |es|
  {
    if es != [] {
      var init, e := es[..|es| - 1], es[|es| - 1];
      assert es == init + [e];
      DistinctSnoc(init, e);
      StepsApply(s, db, init);
      var d := ApplyAll(db, init).value;
      AppliedIsPointwise(s, db, init, d);
      ApplyAllKeepsDb(s, db, init);
      StrictIsRowStep(s, d, e);
    }
  }

  // ----- Order does not matter -----

  ghost predicate Permutation(es: seq<Entry>, fs: seq<Entry>) {
    multiset(es) == multiset(fs)
  }

  lemma PermutationElements(es: seq<Entry>, fs: seq<Entry>)
    requires Permutation(es, fs)
    ensures |es| == |fs|
    ensures forall e :: e in es <==> e in fs
  {
    assert |multiset(es)| == |multiset(fs)|;
    forall e ensures e in es <==> e in fs {
      assert e in multiset(es) <==> e in multiset(fs);
    }
  }

  function Without(es: seq<Entry>, k: nat): seq<Entry>
    requires k < |es|
  {
    es[..k] + es[k + 1..]
  }

  lemma WithoutFacts(es: seq<Entry>, k: nat)
    requires k < |es| && Shaped(es) && DistinctIds(es)
    ensures multiset(es) == multiset(Without(es, k)) + multiset{es[k]}
    ensures Shaped(Without(es, k)) && DistinctIds(Without(es, k))
    ensures forall e | e in Without(es, k) :: e.WellShaped() && IdOf(e) != IdOf(es[k])
  {
    var rest := Without(es, k);
    assert es == es[..k] + [es[k]] + es[k + 1..];
    assert forall i | 0 <= i < |rest| :: rest[i] == es[if i < k then i else i + 1];
  }

  /** Take the last entry of `fs` out of both. */
  lemma PermutationWithout(es: seq<Entry>, fs: seq<Entry>) returns (k: nat)
    requires Permutation(es, fs) && fs != []
    ensures k < |es| && es[k] == fs[|fs| - 1]
    ensures Permutation(Without(es, k), fs[..|fs| - 1])
  {
    var init, e := fs[..|fs| - 1], fs[|fs| - 1];
    assert fs == init + [e];
    assert e in multiset(es);
    k :| 0 <= k < |es| && es[k] == e;
    assert es == es[..k] + [e] + es[k + 1..];
    assert multiset(Without(es, k)) == multiset(es) - multiset{e} == multiset(fs) - multiset{e} == multiset(init);
  }

  lemma {:induction false} PermutationDistinct(es: seq<Entry>, fs: seq<Entry>)
    requires Permutation(es, fs) && Shaped(es) && DistinctIds(es)
    ensures Shaped(fs) && DistinctIds(fs)
    decreases |fs|
  {
    if fs != [] {
      var init, e := fs[..|fs| - 1], fs[|fs| - 1];
      assert fs == init + [e];
      var k := PermutationWithout(es, fs);
      WithoutFacts(es, k);
      PermutationDistinct(Without(es, k), init);
      PermutationElements(Without(es, k), init);
      forall i | 0 <= i < |init| ensures IdOf(init[i]) != IdOf(e) {
        assert init[i] in Without(es, k);
      }
      DistinctSnoc(init, e);
    }
  }

  lemma PermutationPointwise(db: Db, es: seq<Entry>, fs: seq<Entry>, db': Db)
    requires Permutation(es, fs) && Shaped(es) && Shaped(fs) && Pointwise(db, es, db')
    ensures Pointwise(db, fs, db')
  {
    PermutationElements(es, fs);
    forall i | 0 <= i < |fs|
      ensures RowStep(fs[i], Get(db, IdOf(fs[i]))) == Some(Get(db', IdOf(fs[i])))
    {
      assert fs[i] in es;
      var j :| 0 <= j < |es| && es[j] == fs[i];
    }
    forall x: RowId | !Touches(fs, x) ensures Get(db, x) == Get(db', x) {
      forall i | 0 <= i < |es| ensures IdOf(es[i]) != x {
        assert es[i] in fs;
        var j :| 0 <= j < |fs| && fs[j] == es[i];
      }
    }
  }

  /** A changeset that names each row once has the same effect in every order. */
  lemma OrderIrrelevant(s: Schema, db: Db, es: seq<Entry>, fs: seq<Entry>)
    requires DbOver(s, db) && Fits(s, es) && DistinctIds(es) && Permutation(es, fs)
    ensures Fits(s, fs) && DistinctIds(fs)
    ensures ApplyAll(db, es) == ApplyAll(db, fs)
  {
    PermutationElements(es, fs);
    PermutationDistinct(es, fs);
    forall i | 0 <= i < |fs| ensures EntryFits(s, fs[i]) {
      assert fs[i] in es;
    }
    if ApplyAll(db, es).Some? {
      var d := ApplyAll(db, es).value;
      ApplyAllIffPointwise(s, db, es, d);
      PermutationPointwise(db, es, fs, d);
      ApplyAllIffPointwise(s, db, fs, d);
    }
    if ApplyAll(db, fs).Some? {
      var d := ApplyAll(db, fs).value;
      ApplyAllIffPointwise(s, db, fs, d);
      PermutationPointwise(db, fs, es, d);
      ApplyAllIffPointwise(s, db, es, d);
    }
  }
}
