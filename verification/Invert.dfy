/** Inverting a changeset (InvertChangeset, changeset/utils.go). */
module Invert {
  import opened Values
  import opened Rows
  import opened Diff

  /** Old values of an inverted UPDATE: the new ones, but a key column left undefined keeps its old value. */
  function InverseOld(e: Entry): (r: Row)
    requires e.WellShaped() && e.op == Update
    ensures |r| == e.table.ColumnCount()
  {
    seq(|e.oldValues|, i requires 0 <= i < |e.oldValues| =>
      if e.table.primaryKeys[i] && e.newValues[i].Undefined? then e.oldValues[i] else e.newValues[i])
  }

  function InverseNew(e: Entry): (r: Row)
    requires e.WellShaped() && e.op == Update
    ensures |r| == e.table.ColumnCount()
  {
    seq(|e.oldValues|, i requires 0 <= i < |e.oldValues| =>
      if e.table.primaryKeys[i] && e.newValues[i].Undefined? then Undefined else e.oldValues[i])
  }

  /** INSERT and DELETE change places; UPDATE swaps its values. */
  function Inverse(e: Entry): (r: Entry)
    requires e.WellShaped()
    ensures r.WellShaped() && r.table == e.table
  {
    match e.op
    case Insert => Entry(Delete, e.newValues, [], e.table)
    case Delete => Entry(Insert, [], e.oldValues, e.table)
    case Update => Entry(Update, InverseOld(e), InverseNew(e), e.table)
  }

  function InverseAll(es: seq<Entry>): (r: seq<Entry>)
    requires Shaped(es)
    ensures |r| == |es| && Shaped(r)
    ensures forall i | 0 <= i < |es| :: r[i] == Inverse(es[i])
  {
    seq(|es|, i requires 0 <= i < |es| => Inverse(es[i]))
  }

  /** One entry, the key columns repaired in place after the swap. */
  method InvertEntry(e: Entry) returns (r: Entry)
    requires e.WellShaped()
    ensures r == Inverse(e)
  {
    match e.op {
      case Insert => r := Entry(Delete, e.newValues, [], e.table);
      case Delete => r := Entry(Insert, [], e.oldValues, e.table);
      case Update =>
        var oldValues, newValues := e.newValues, e.oldValues;
        for i := 0 to |e.table.primaryKeys|
          invariant |oldValues| == |newValues| == e.table.ColumnCount()
          invariant forall j | 0 <= j < i :: oldValues[j] == InverseOld(e)[j] && newValues[j] == InverseNew(e)[j]
          invariant forall j | i <= j < |oldValues| :: oldValues[j] == e.newValues[j] && newValues[j] == e.oldValues[j]
        {
          if e.table.primaryKeys[i] && oldValues[i].Undefined? {
            oldValues := oldValues[i := newValues[i]];
            newValues := newValues[i := Undefined];
          }
        }
        assert oldValues == InverseOld(e) && newValues == InverseNew(e);
        r := Entry(Update, oldValues, newValues, e.table);
    }
  }

  // ----- An invertible changeset is undone -----

  /** What an entry must say so that its effect can be read backwards. */
  ghost predicate Invertible(e: Entry)
    requires e.WellShaped()
  {
    match e.op
    case Insert => true
    case Delete => AllDefined(e.oldValues)
    case Update =>
      forall i | 0 <= i < |e.oldValues| ::
        if e.table.primaryKeys[i] then !e.oldValues[i].Undefined? && e.newValues[i].Undefined?
        else e.oldValues[i].Undefined? ==> e.newValues[i].Undefined?
  }

  ghost predicate AllInvertible(es: seq<Entry>)
    requires Shaped(es)
  {
    forall i | 0 <= i < |es| :: Invertible(es[i])
  }

  lemma InverseIdentity(e: Entry)
    requires e.WellShaped() && Invertible(e)
    ensures IdOf(Inverse(e)) == IdOf(e) && KeepsKey(Inverse(e))
  {
    if e.op == Update {
      assert KeyOf(e.table.primaryKeys, InverseOld(e)) == KeyOf(e.table.primaryKeys, e.oldValues);
    }
  }

  lemma InverseUndoesRow(e: Entry, b: Option<Row>, m: Option<Row>)
    requires e.WellShaped() && KeepsKey(e) && Invertible(e)
    requires OptionFits(IdOf(e), e.table, b)
    requires RowStep(e, b) == Some(m)
    ensures RowStep(Inverse(e), m) == Some(b)
  {
    var pks := e.table.primaryKeys;
    match e.op
    case Insert =>
      assert Matches(pks, e.newValues, Stored(e.newValues));
    case Delete =>
      forall i | 0 <= i < |pks| ensures e.oldValues[i] == b.value[i] {
        assert pks[i] ==> KeyOf(pks, b.value)[i] == IdOf(e).key[i];
      }
      assert Stored(e.oldValues) == b.value;
    case Update =>
      var i :| 0 <= i < |e.newValues| && !e.newValues[i].Undefined?;
      assert !InverseNew(e)[i].Undefined?;
      assert Overlay(m.value, InverseNew(e)) == b.value;
  }

  /** A changeset of invertible entries that name each row once is undone by its inverse. */
  lemma InvertUndoes(s: Schema, b: Db, m: Db, es: seq<Entry>)
    requires DbOver(s, b) && Fits(s, es) && DistinctIds(es) && AllInvertible(es)
    requires ApplyAll(b, es) == Some(m)
    ensures ApplyAll(m, InverseAll(es)) == Some(b)
  {
    var inv := InverseAll(es);
    forall i | 0 <= i < |es|
      ensures EntryFits(s, inv[i]) && IdOf(inv[i]) == IdOf(es[i])
    {
      InverseIdentity(es[i]);
    }
    assert DistinctIds(inv) by {
      forall i, j | 0 <= i < j < |inv| ensures IdOf(inv[i]) != IdOf(inv[j]) {
        assert IdOf(es[i]) != IdOf(es[j]);
      }
    }
    ApplyAllKeepsDb(s, b, es);
    ApplyAllIffPointwise(s, b, es, m);
    InversePointwise(s, b, m, es);
    ApplyAllIffPointwise(s, m, inv, b);
  }

  lemma InversePointwise(s: Schema, b: Db, m: Db, es: seq<Entry>)
    requires DbOver(s, b) && Fits(s, es) && AllInvertible(es) && Pointwise(b, es, m)
    ensures Pointwise(m, InverseAll(es), b)
  {
    var inv := InverseAll(es);
    forall i | 0 <= i < |inv|
      ensures RowStep(inv[i], Get(m, IdOf(inv[i]))) == Some(Get(b, IdOf(inv[i])))
    {
      InverseIdentity(es[i]);
      InverseUndoesRow(es[i], Get(b, IdOf(es[i])), Get(m, IdOf(es[i])));
    }
    forall id: RowId | !Touches(inv, id) ensures Get(m, id) == Get(b, id) {
      forall i | 0 <= i < |es| ensures IdOf(es[i]) != id {
        InverseIdentity(es[i]);
        assert IdOf(inv[i]) != id;
      }
    }
  }

  // ----- The inverse of a diff is the reverse diff -----

  lemma InverseRowDiff(id: RowId, t: ChangesetTable, b: Option<Row>, m: Option<Row>)
    requires OptionFits(id, t, b) && OptionFits(id, t, m) && b != m
    ensures var e := RowDiff(t, b, m).value;
            e.WellShaped() && Invertible(e) && RowDiff(t, m, b) == Some(Inverse(e))
  {
    if b.Some? && m.Some? {
      var x, y := b.value, m.value;
      var e := RowDiff(t, b, m).value;
      forall i | 0 <= i < |x| && t.primaryKeys[i] ensures x[i] == y[i] {
        assert KeyOf(t.primaryKeys, x)[i] == KeyOf(t.primaryKeys, y)[i];
      }
      assert InverseOld(e) == CanonicalOld(t.primaryKeys, y, x);
      assert InverseNew(e) == CanonicalNew(y, x);
    }
  }

  lemma InvertDiff(s: Schema, b: Db, m: Db, es: seq<Entry>)
    requires ValidSchema(s) && IsDiff(s, b, m, es)
    ensures AllInvertible(es) && IsDiff(s, m, b, InverseAll(es))
  {
    var inv := InverseAll(es);
    forall i | 0 <= i < |es|
      ensures Invertible(es[i]) && IdOf(inv[i]) == IdOf(es[i]) && IsRowDiff(s, m, b, IdOf(inv[i]), inv[i])
    {
      var id := IdOf(es[i]);
      IsRowDiffFacts(s, b, m, id, es[i]);
      InverseRowDiff(id, s[id.table], Get(b, id), Get(m, id));
      InverseIdentity(es[i]);
    }
    assert Changed(m, b) == Changed(b, m);
    forall id | id in Changed(m, b) ensures Touches(inv, id) {
      assert Touches(es, id);
      var i :| 0 <= i < |es| && IdOf(es[i]) == id;
      assert IdOf(inv[i]) == id;
    }
    assert DistinctIds(inv) by {
      forall i, j | 0 <= i < j < |inv| ensures IdOf(inv[i]) != IdOf(inv[j]) {
        assert IdOf(es[i]) != IdOf(es[j]);
      }
    }
  }

  // ----- Inverting twice -----

  /** No key column of an UPDATE carries its value only on the new side. */
  ghost predicate KeyInOld(e: Entry)
    requires e.WellShaped()
  {
    e.op == Update ==>
      forall i | 0 <= i < |e.oldValues| && e.table.primaryKeys[i] && e.oldValues[i].Undefined? :: e.newValues[i].Undefined?
  }

  /** Inverting twice gives the entry back, as written, exactly when its key is on the old side. */
  lemma InverseTwice(e: Entry)
    requires e.WellShaped()
    ensures Inverse(Inverse(e)) == e.Written() <==> KeyInOld(e)
  {
    if e.op == Update {
      var f := Inverse(Inverse(e));
      if KeyInOld(e) {
        assert f.oldValues == e.oldValues && f.newValues == e.newValues;
      } else {
        var i :| 0 <= i < |e.oldValues| && e.table.primaryKeys[i] && e.oldValues[i].Undefined? && !e.newValues[i].Undefined?;
        assert f.oldValues[i] == e.newValues[i];
      }
    }
  }

  /**
   Entries keep their order, so a changeset that names a row twice need not be
   undone: the inverse of INSERT then UPDATE tries the DELETE first.
   */
  lemma InvertNeedsDistinctRows()
    ensures exists es: seq<Entry>, m: Db ::
              Shaped(es) && AllInvertible(es) && ApplyAll(map[], es) == Some(m) && ApplyAll(m, InverseAll(es)).None?
  {
    var t := ChangesetTable(Ascii("t"), [true, false]);
    var e0 := Entry(Insert, [], [Int(1), Int(5)], t);
    var e1 := Entry(Update, [Int(1), Int(5)], [Undefined, Int(6)], t);
    var es := [e0, e1];
    var id := IdOf(e0);
    assert id.key == [Int(1), Undefined] && IdOf(e1) == id;
    var d1: Db := map[id := [Int(1), Int(5)]];
    var m: Db := map[id := [Int(1), Int(6)]];
    assert Stored(e0.newValues) == [Int(1), Int(5)];
    assert Strict(map[], e0) == Some(d1);
    assert !e1.newValues[1].Undefined?;
    assert Overlay(d1[id], e1.newValues) == [Int(1), Int(6)];
    assert KeyOf(t.primaryKeys, [Int(1), Int(6)]) == id.key;
    assert IdOf(e1) == id && Matches(t.primaryKeys, e1.oldValues, d1[id]) && AnyDefined(e1.newValues);
    assert (d1 - {id})[id := [Int(1), Int(6)]] == m;
    assert Strict(d1, e1) == Some(m);
    ApplyTwo(map[], e0, e1);
    var inv := InverseAll(es);
    assert inv == [Inverse(e0), Inverse(e1)];
    assert IdOf(inv[0]) == id && inv[0].oldValues[1] != m[id][1];
    assert !Matches(t.primaryKeys, inv[0].oldValues, m[id]);
    assert Strict(m, inv[0]).None?;
    ApplyTwo(m, inv[0], inv[1]);
  }
}
