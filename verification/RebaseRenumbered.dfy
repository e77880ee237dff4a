/**
 What becomes of entries of ours on a row we renumbered, also when ours names
 the row more than once: they follow it to its new key.
 */
module RebaseRenumbered {
  import opened Values
  import opened Rows
  import opened KeyMapping
  import opened RebaseRules
  import opened RebaseRows
  import opened RebaseKeys

  /** Key k of the table gets another valid key. */
  ghost predicate Renumbered(ids: map<int, int>, k: int) {
    k in ids && ids[k] != INVALID_FID && ids[k] != k
  }

  /** Entry x is entry e with key n, and otherwise as it was. */
  ghost predicate Follows(e: Entry, n: int, x: Entry) {
    && e.WellShaped() && x.WellShaped() && x.op == e.op && x.table == e.table
    && match e.op
       case Insert => WithKey(e.table.primaryKeys, e.newValues, n, x.newValues)
       case Delete => WithKey(e.table.primaryKeys, e.oldValues, n, x.oldValues)
       case Update => WithKey(e.table.primaryKeys, e.oldValues, n, x.oldValues) && x.newValues == e.newValues
  }

  lemma {:induction false} NoItems(e: Entry, n: nat)
    requires e.op == Update && e.WellShaped() && n <= e.table.ColumnCount()
    ensures Items(e, Blank(e.table.ColumnCount()), false, n) == []
    decreases n
  {
    if n > 0 {
      NoItems(e, n - 1);
    }
  }

  /** An entry on a renumbered row is rewritten to the row's new key, without a conflict; an update must change something. */
  lemma EntryFollows(e: Entry, info: Info, maps: KeyMaps)
    requires RebasableEntry(e, info) && e.table.name in info && Renumbered(IdsOf(maps, e.table.name), Pk(e))
    requires e.op == Update ==> AnyDefined(e.newValues)
    ensures RebaseOne(e, info, maps).conflict.None? && RebaseOne(e, info, maps).entry.Some?
    ensures Follows(e, IdsOf(maps, e.table.name)[Pk(e)], RebaseOne(e, info, maps).entry.value)
  {
    if e.op == Update {
      NoItems(e, e.table.ColumnCount());
      var x := UpdatedNew(e, Blank(e.table.ColumnCount()));
      assert x == e.newValues;
    }
  }

  // ----- Runs of entries on one row -----

  /** What entries on one row make of it, one after the other; None when one does not apply. */
  ghost function RunOn(es: seq<Entry>, r: Option<Row>): Option<Option<Row>>
    requires Shaped(es)
  {
    if es == [] then Some(r)
    else
      match RunOn(es[..|es| - 1], r)
      case None => None
      case Some(s) => RowStep(es[|es| - 1], s)
  }

  /** Entries of one table that all name row k and leave its key alone. */
  ghost predicate OnRow(es: seq<Entry>, t: ChangesetTable, k: int) {
    forall i | 0 <= i < |es| :: OnKey(es[i], t, k)
  }

  ghost predicate OnKey(e: Entry, t: ChangesetTable, k: int) {
    && e.WellShaped() && e.table == t && KeepsKey(e)
    && forall i | 0 <= i < t.ColumnCount() && t.primaryKeys[i] :: e.KeyValues()[i] == Int(k)
  }

  lemma OnKeyHasPk(e: Entry, t: ChangesetTable, k: int)
    requires OnKey(e, t, k) && HasKey(t)
    ensures Pk(e) == k
  {
  }

  /** The same state of the row under key n. */
  ghost predicate SameButKey(t: ChangesetTable, r: Option<Row>, n: int, s: Option<Row>) {
    (r.None? <==> s.None?) && (r.Some? ==> WithKey(t.primaryKeys, r.value, n, s.value))
  }

  lemma StepFollows(t: ChangesetTable, k: int, e: Entry, n: int, x: Entry, r: Option<Row>, s: Option<Row>)
    requires OnKey(e, t, k) && Follows(e, n, x) && SameButKey(t, r, n, s)
    ensures RowStep(e, r).Some? ==> RowStep(x, s).Some? && SameButKey(t, RowStep(e, r).value, n, RowStep(x, s).value)
  {
    if RowStep(e, r).Some? {
      match e.op
      case Insert =>
      case Delete =>
      case Update =>
        assert Overlay(r.value, e.newValues) == RowStep(e, r).value.value;
        assert Overlay(s.value, x.newValues) == RowStep(x, s).value.value;
    }
  }

  /** The rewritten entries of a run, in its order. */
  ghost predicate Rewrites(es: seq<Entry>, info: Info, maps: KeyMaps, xs: seq<Entry>)
    requires Rebasable(es, info)
  {
    |xs| == |es| && forall i | 0 <= i < |es| :: RebaseOne(es[i], info, maps) == Rebased(Some(xs[i]), None)
  }

  /**
   Ours inserts row k, then goes on changing it, deleting it, inserting it
   again; if the row is renumbered to n, the rewritten entries all survive,
   report nothing, name row n, and make of it there what ours made of row k.
   */
  lemma {:induction false} RunFollows(es: seq<Entry>, t: ChangesetTable, k: int, info: Info, maps: KeyMaps) returns (xs: seq<Entry>)
    requires HasKey(t) && OnRow(es, t, k) && Rebasable(es, info) && t.name in info && Renumbered(IdsOf(maps, t.name), k)
    requires RunOn(es, None).Some?
    ensures Rewrites(es, info, maps, xs) && OnRow(xs, t, IdsOf(maps, t.name)[k])
    ensures RunOn(xs, None).Some?
    ensures SameButKey(t, RunOn(es, None).value, IdsOf(maps, t.name)[k], RunOn(xs, None).value)
    decreases |es|
  {
    if es == [] {
      xs := [];
    } else {
      var init := RunFollows(es[..|es| - 1], t, k, info, maps);
      assert Shaped(es) && Shaped(init);
      var x := LastFollows(es, t, k, info, maps, RunOn(es[..|es| - 1], None).value, RunOn(init, None).value);
      xs := init + [x];
      OneMore(init, x);
      RewritesSnoc(es, info, maps, init, x);
      OnRowSnoc(init, t, IdsOf(maps, t.name)[k], x);
    }
  }

  lemma RewritesSnoc(es: seq<Entry>, info: Info, maps: KeyMaps, init: seq<Entry>, x: Entry)
    requires Rebasable(es, info) && es != [] && Rewrites(es[..|es| - 1], info, maps, init)
    requires RebaseOne(es[|es| - 1], info, maps) == Rebased(Some(x), None)
    ensures Rewrites(es, info, maps, init + [x])
  {
    var xs := init + [x];
    forall i | 0 <= i < |es| ensures RebaseOne(es[i], info, maps) == Rebased(Some(xs[i]), None) {
      if i < |es| - 1 {
        assert es[i] == es[..|es| - 1][i];
      }
    }
  }

  lemma OnRowSnoc(init: seq<Entry>, t: ChangesetTable, k: int, x: Entry)
    requires OnRow(init, t, k) && OnKey(x, t, k)
    ensures OnRow(init + [x], t, k)
  {
  }

  lemma OneMore(init: seq<Entry>, x: Entry)
    requires Shaped(init) && x.WellShaped() && RunOn(init, None).Some?
    ensures Shaped(init + [x]) && RunOn(init + [x], None) == RowStep(x, RunOn(init, None).value)
  {
    assert (init + [x])[..|init|] == init;
  }

  lemma LastFollows(es: seq<Entry>, t: ChangesetTable, k: int, info: Info, maps: KeyMaps, r: Option<Row>, s: Option<Row>) returns (x: Entry)
    requires es != [] && HasKey(t) && OnRow(es, t, k) && Rebasable(es, info) && t.name in info && Renumbered(IdsOf(maps, t.name), k)
    requires RowStep(es[|es| - 1], r).Some? && SameButKey(t, r, IdsOf(maps, t.name)[k], s)
    ensures RebaseOne(es[|es| - 1], info, maps) == Rebased(Some(x), None) && OnKey(x, t, IdsOf(maps, t.name)[k])
    ensures RowStep(x, s).Some? && SameButKey(t, RowStep(es[|es| - 1], r).value, IdsOf(maps, t.name)[k], RowStep(x, s).value)
  {
    var e, n := es[|es| - 1], IdsOf(maps, t.name)[k];
    assert OnKey(e, t, k);
    OnKeyHasPk(e, t, k);
    EntryFollows(e, info, maps);
    x := RebaseOne(e, info, maps).entry.value;
    FollowsOnKey(e, t, k, n, x);
    StepFollows(t, k, e, n, x, r, s);
  }

  lemma FollowsOnKey(e: Entry, t: ChangesetTable, k: int, n: int, x: Entry)
    requires OnKey(e, t, k) && Follows(e, n, x)
    ensures OnKey(x, t, n)
  {
  }

  // ----- Which rows are renumbered -----

  /** Once mapped, an inserted key of theirs that they did not delete keeps a number of the block, whatever else ours does to the row. */
  lemma {:induction false} MappedStays(t: Name, ti: TableInfo, es: seq<Entry>, k: int)
    requires Shaped(es) && KeyedIn(es, t) && k in ti.inserted && k !in ti.deleted
    ensures var m := MappingOf(t, ti, es);
            && m.free >= Start(ti) && k !in m.unmapped
            && (k in m.ids ==> m.ids[k] >= Start(ti))
            && (HasEntry(es, t, Insert, k) ==> k in m.ids)
    decreases |es|
  {
    if es != [] {
      MappedStays(t, ti, es[..|es| - 1], k);
      HasEntrySnoc(es, t, Insert, k);
    }
  }

  lemma {:induction false} VisitKeeps(m: Mapping, order: seq<int>, k: int)
    requires k in m.ids && k !in order
    ensures k in VisitAll(m, order).ids && VisitAll(m, order).ids[k] == m.ids[k]
    decreases |order|
  {
    if order != [] {
      VisitKeeps(m, order[..|order| - 1], k);
    }
  }

  /** An insert of ours under a number theirs inserted is renumbered, for any visiting order and also when ours names the row again. */
  lemma TakenIsRenumbered(t: Name, ti: TableInfo, es: seq<Entry>, orders: Orders, k: int)
    requires Shaped(es) && KeyedIn(es, t) && k in ti.inserted && k !in ti.deleted && HasEntry(es, t, Insert, k)
    requires Enumerates(orders(t), MappingOf(t, ti, es).unmapped)
    ensures Renumbered(CascadeOf(t, ti, es, orders).ids, k)
  {
    MappedStays(t, ti, es, k);
    VisitKeeps(MappingOf(t, ti, es), orders(t), k);
  }
}
