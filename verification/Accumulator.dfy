/** The accumulate and write loops of ConcatChangesets (changeset/concat.go) over entries updated in place. */
module Accumulator {
  import opened Values
  import opened Rows
  import opened PkKey
  import opened Merge
  import opened Concat

  datatype MergeKind = IsModified | IsRemoved | IsUnsupported

  /** The owned copy of a row's entry that later entries are merged into. */
  class Cell {
    var op: Op
    var oldValues: Row
    var newValues: Row
    const table: ChangesetTable

    constructor (e: Entry)
      ensures Contents() == e
    {
      op, oldValues, newValues, table := e.op, e.oldValues, e.newValues, e.table;
    }

    function Contents(): Entry
      reads this
    {
      Entry(op, oldValues, newValues, table)
    }

    /** mergeEntriesForRow with this entry as the older one. */
    method MergeWith(e2: Entry) returns (kind: MergeKind)
      requires Contents().WellShaped() && e2.WellShaped() && table == e2.table
      modifies this
      ensures kind == (match MergeRows(old(Contents()), e2)
                       case Modified(_) => IsModified case Removed => IsRemoved case Unsupported => IsUnsupported)
      ensures Contents() == (match MergeRows(old(Contents()), e2)
                             case Modified(x) => x case _ => old(Contents()))
    {
      match (op, e2.op) {
        case (Insert, Delete) => kind := IsRemoved;
        case (Insert, Update) =>
          ghost var before := newValues;
          for i := 0 to table.ColumnCount()
            invariant op == Insert && oldValues == old(oldValues)
            invariant |newValues| == |before| == table.ColumnCount()
            invariant forall j | 0 <= j < i :: newValues[j] == Overlay(before, e2.newValues)[j]
            invariant forall j | i <= j < |newValues| :: newValues[j] == before[j]
          {
            if !e2.newValues[i].Undefined? {
              newValues := newValues[i := e2.newValues[i]];
            }
          }
          assert newValues == Overlay(before, e2.newValues);
          kind := IsModified;
        case (Update, Update) =>
          var required, o, n := MergeUpdate(table, e2.oldValues, oldValues, newValues, e2.newValues);
          if !required {
            return IsRemoved;
          }
          oldValues, newValues := o, n;
          kind := IsModified;
        case (Update, Delete) =>
          op := Delete;
          ghost var before := oldValues;
          for i := 0 to table.ColumnCount()
            invariant op == Delete && newValues == old(newValues)
            invariant |oldValues| == |before| == table.ColumnCount()
            invariant forall j | 0 <= j < i :: oldValues[j] == Backfilled(before, e2.oldValues)[j]
            invariant forall j | i <= j < |oldValues| :: oldValues[j] == before[j]
          {
            if oldValues[i].Undefined? {
              oldValues := oldValues[i := e2.oldValues[i]];
            }
          }
          assert oldValues == Backfilled(before, e2.oldValues);
          kind := IsModified;
        case (Delete, Insert) =>
          var required, o, n := MergeUpdate(table, oldValues, [], e2.newValues, []);
          if !required {
            return IsRemoved;
          }
          op, oldValues, newValues := Update, o, n;
          kind := IsModified;
        case _ => kind := IsUnsupported;
      }
    }
  }

  /** All tables of the result: row keys to owned cells, no cell under two keys. */
  class Accumulator {
    const fmt: FloatFormat
    var cells: map<RowKey, Cell>

    constructor (fmt: FloatFormat)
      ensures this.fmt == fmt && cells == map[]
    {
      this.fmt := fmt;
      cells := map[];
    }

    ghost predicate Valid()
      reads this
    {
      forall k, l | k in cells && l in cells && k != l :: cells[k] != cells[l]
    }

    function Rows(): Merged
      reads this, cells.Values
    {
      map k | k in cells :: cells[k].Contents()
    }

    method Add(e: Entry)
      requires Valid() && e.WellShaped()
      requires KeyIn(e, fmt) in Rows() ==> Rows()[KeyIn(e, fmt)].WellShaped() && Rows()[KeyIn(e, fmt)].table == e.table
      modifies this`cells, cells.Values
      ensures Valid() && fresh(cells.Values - old(cells.Values))
      ensures Rows() == Accumulate(old(Rows()), e, fmt)
    {
      var key := BuildKey(e, fmt);
      var k := RowKey(e.table.name, key);
      ghost var before := Rows();
      if k !in cells {
        var cell := new Cell(e);
        cells := cells[k := cell];
        assert Rows() == before[k := e];
      } else {
        MergeInto(k, e);
      }
    }

    method MergeInto(k: RowKey, e: Entry)
      requires Valid() && k in cells && e.WellShaped() && Rows()[k].WellShaped() && Rows()[k].table == e.table
      modifies this`cells, cells.Values
      ensures Valid() && cells.Values <= old(cells.Values)
      ensures Rows() == match MergeRows(old(Rows())[k], e)
                        case Modified(x) => old(Rows())[k := x]
                        case _ => old(Rows()) - {k}
    {
      var cell := cells[k];
      ghost var before := Rows();
      assert before[k] == cell.Contents();
      var kind := cell.MergeWith(e);
      match kind {
        case IsModified =>
          assert Rows() == before[k := cell.Contents()];
        case _ =>
          cells := cells - {k};
          assert Rows() == before - {k};
      }
    }
  }

  /** Inputs are what a reader yields from each file; the output is written in an arbitrary order. */
  method ConcatChangesets(ghost s: Schema, inputs: seq<seq<Entry>>, fmt: FloatFormat)
    returns (out: seq<Entry>)
    requires OverSchema(s, Flatten(inputs))
    ensures exists keys :: Lists(AccumulateAll(s, Flatten(inputs), fmt), keys, out)
  {
    var acc := new Accumulator(fmt);
    assert acc.Rows() == map[];
    for n := 0 to |inputs|
      invariant acc.Valid() && acc.fmt == fmt && fresh(acc) && fresh(acc.cells.Values)
      invariant OverSchema(s, Flatten(inputs[..n]))
      invariant acc.Rows() == AccumulateAll(s, Flatten(inputs[..n]), fmt)
    {
      FlattenPrefix(s, inputs, n);
      AddInput(s, acc, Flatten(inputs[..n]), inputs[n]);
      assert inputs[..n + 1][..n] == inputs[..n];
    }
    assert inputs[..|inputs|] == inputs;
    out := WriteAll(acc.Rows());
  }

  /** One input file, entry by entry. */
  method AddInput(ghost s: Schema, acc: Accumulator, ghost done: seq<Entry>, input: seq<Entry>)
    requires acc.Valid() && OverSchema(s, done + input) && OverSchema(s, done)
    requires acc.Rows() == AccumulateAll(s, done, acc.fmt)
    modifies acc`cells, acc.cells.Values
    ensures acc.Valid() && fresh(acc.cells.Values - old(acc.cells.Values))
    ensures acc.Rows() == AccumulateAll(s, done + input, acc.fmt)
  {
    NoneAndAll(done, input);
    for i := 0 to |input|
      invariant acc.Valid() && fresh(acc.cells.Values - old(acc.cells.Values))
      invariant OverSchema(s, done + input[..i])
      invariant acc.Rows() == AccumulateAll(s, done + input[..i], acc.fmt)
    {
      AddPrefix(s, done, input, i, acc.fmt);
      acc.Add(input[i]);
    }
  }

  lemma NoneAndAll(done: seq<Entry>, input: seq<Entry>)
    ensures done + input[..0] == done && done + input[..|input|] == done + input
  {
    assert input[..|input|] == input;
  }

  /** The entries of the first files are entries of all files. */
  lemma {:induction false} FlattenPrefix(s: Schema, inputs: seq<seq<Entry>>, n: nat)
    requires n < |inputs| && OverSchema(s, Flatten(inputs))
    ensures Flatten(inputs[..n + 1]) == Flatten(inputs[..n]) + inputs[n]
    ensures OverSchema(s, Flatten(inputs[..n + 1])) && OverSchema(s, Flatten(inputs[..n]))
    decreases |inputs|
  {
    assert inputs[..n + 1][..n] == inputs[..n];
    var m := |inputs| - 1;
    OverSchemaPrefix(s, Flatten(inputs[..m]), inputs[m]);
    if n < m {
      FlattenPrefix(s, inputs[..m], n);
      assert inputs[..m][..n + 1] == inputs[..n + 1] && inputs[..m][..n] == inputs[..n];
    } else {
      assert inputs[..n + 1] == inputs;
    }
  }

  lemma OverSchemaPrefix(s: Schema, a: seq<Entry>, b: seq<Entry>)
    requires OverSchema(s, a + b)
    ensures OverSchema(s, a)
  {
    forall i | 0 <= i < |a| ensures EntryOver(s, a[i]) {
      assert (a + b)[i] == a[i];
    }
  }

  lemma AddPrefix(s: Schema, done: seq<Entry>, input: seq<Entry>, i: nat, fmt: FloatFormat)
    requires OverSchema(s, done + input) && i < |input|
    ensures OverSchema(s, done + input[..i]) && OverSchema(s, done + input[..i + 1]) && EntryOver(s, input[i])
    ensures var m := AccumulateAll(s, done + input[..i], fmt);
            var k := KeyIn(input[i], fmt);
            && (k in m ==> m[k].WellShaped() && m[k].table == input[i].table)
            && AccumulateAll(s, done + input[..i + 1], fmt) == Accumulate(m, input[i], fmt)
  {
    CutAt(done, input, i);
    CutAt(done, input, i + 1);
    OverSchemaPrefix(s, done + input[..i], input[i..]);
    OverSchemaPrefix(s, done + input[..i + 1], input[i + 1..]);
    OneMore(done, input, i);
  }

  lemma CutAt(done: seq<Entry>, input: seq<Entry>, i: nat)
    requires i <= |input|
    ensures done + input == done + input[..i] + input[i..]
  {
  }

  lemma OneMore(done: seq<Entry>, input: seq<Entry>, i: nat)
    requires i < |input|
    ensures var es := done + input[..i + 1];
            es != [] && es[..|es| - 1] == done + input[..i] && es[|es| - 1] == input[i]
  {
  }

  method WriteAll(m: Merged) returns (out: seq<Entry>)
    ensures exists keys :: Lists(m, keys, out)
  {
    ghost var keys: seq<RowKey> := [];
    out := [];
    var todo := m.Keys;
    while todo != {}
      invariant todo <= m.Keys && |keys| == |out|
      invariant forall i, j | 0 <= i < j < |keys| :: keys[i] != keys[j]
      invariant forall i | 0 <= i < |keys| :: keys[i] in m.Keys - todo && out[i] == m[keys[i]].Written()
      invariant forall k | k in m.Keys - todo :: k in keys
      decreases todo
    {
      var k :| k in todo;
      out, keys := out + [m[k].Written()], keys + [k];
      todo := todo - {k};
    }
    assert Lists(m, keys, out);
  }
}
