/** Exactly when the rebased changeset applies strictly to theirs. */
module RebaseApplies {
  import opened Values
  import opened Rows
  import opened Diff
  import opened KeyMapping
  import opened RebaseRules
  import opened RebaseRows
  import opened RebaseKeys
  import opened RebaseMerge

  // ----- Inserts that come first need room -----

  /** As long as only INSERT entries name a table, its rows stay and theirs join them. */
  lemma {:induction false} RowsStay(s: Schema, db: Db, es: seq<Entry>, id: RowId)
    requires DbOver(s, db) && Fits(s, es) && ApplyAll(db, es).Some?
    requires forall i | 0 <= i < |es| && es[i].table.name == id.table :: es[i].op == Insert
    ensures id in db || Touches(es, id) ==> id in ApplyAll(db, es).value
    decreases |es|
  {
    if es != [] {
      var init, e := es[..|es| - 1], es[|es| - 1];
      assert es == init + [e];
      TouchesSnoc(init, e, id);
      RowsStay(s, db, init, id);
      ApplyAllKeepsDb(s, db, init);
      StrictIsRowStep(s, ApplyAll(db, init).value, e);
    }
  }

  ghost predicate InsertsHaveRoom(db: Db, es: seq<Entry>)
    requires Shaped(es)
  {
    && (forall j | 0 <= j < |es| && es[j].op == Insert :: IdOf(es[j]) !in db)
    && (forall i, j | 0 <= i < j < |es| && es[i].op == Insert && es[j].op == Insert :: IdOf(es[i]) != IdOf(es[j]))
  }

  /** An INSERT that applied last: its row was neither in the database nor inserted before. */
  lemma LastInsertHadRoom(s: Schema, db: Db, init: seq<Entry>, e: Entry)
    requires DbOver(s, db) && Fits(s, init) && EntryFits(s, e) && e.op == Insert
    requires ApplyAll(db, init).Some? && Strict(ApplyAll(db, init).value, e).Some?
    requires forall i | 0 <= i < |init| && init[i].table.name == e.table.name :: init[i].op == Insert
    ensures IdOf(e) !in db && !Touches(init, IdOf(e))
  {
    RowsStay(s, db, init, IdOf(e));
    ApplyAllKeepsDb(s, db, init);
    StrictIsRowStep(s, ApplyAll(db, init).value, e);
  }

  lemma {:induction false} AppliedInsertsHadRoom(s: Schema, db: Db, es: seq<Entry>)
    requires DbOver(s, db) && Fits(s, es) && InsertsFirst(es) && ApplyAll(db, es).Some?
    ensures InsertsHaveRoom(db, es)
    decreases |es|
  {
    if es != [] {
      var init, e := es[..|es| - 1], es[|es| - 1];
      assert es == init + [e];
      assert InsertsFirst(init);
      AppliedInsertsHadRoom(s, db, init);
      if e.op == Insert {
        forall i | 0 <= i < |init| && init[i].table.name == e.table.name ensures init[i].op == Insert {
          assert es[i] == init[i];
        }
        LastInsertHadRoom(s, db, init, e);
      }
      RoomSnoc(db, init, e);
    }
  }

  lemma RoomSnoc(db: Db, init: seq<Entry>, e: Entry)
    requires Shaped(init + [e]) && Shaped(init) && InsertsHaveRoom(db, init) && e.WellShaped()
    requires e.op == Insert ==> IdOf(e) !in db && !Touches(init, IdOf(e))
    ensures InsertsHaveRoom(db, init + [e])
  {
    assert forall i | 0 <= i < |init| :: (init + [e])[i] == init[i];
  }

  /** Entries of one table keep their order, so inserts still come first. */
  lemma OutputInsertsFirst(p: Plan, out: seq<Entry>, src: seq<nat>)
    requires p.Valid() && Rewritable(p) && IsOutput(p, out, src) && InsertsFirst(p.d.toOurs)
    ensures InsertsFirst(out)
  {
    forall j, k | 0 <= j < k < |out| && out[j].table.name == out[k].table.name && out[k].op == Insert
      ensures out[j].op == Insert
    {
      OutputEntry(p, out, src, j);
      OutputEntry(p, out, src, k);
      assert src[j] < src[k];
    }
  }

  // ----- Free keys are necessary -----

  /** Where a surviving insert of ours sits in the output. */
  lemma InsertInOutput(p: Plan, out: seq<Entry>, src: seq<nat>, i: int) returns (j: int)
    requires p.Valid() && Rewritable(p) && IsOutput(p, out, src) && 0 <= i < |p.d.toOurs| && p.d.toOurs[i].op == Insert
    ensures 0 <= j < |out| && src[j] == i && out[j].op == Insert && out[j].WellShaped()
    ensures p.d.toOurs[i].WellShaped() && HasKey(p.d.toOurs[i].table)
    ensures IdOf(out[j]) == KeyId(p.d.toOurs[i].table, NewNumber(p, i))
  {
    InsertIsMoved(p, i);
    SurvivorListed(p, out, src, i);
    j :| 0 <= j < |out| && src[j] == i && out[j] == Rewritten(p, i).value;
  }

  /** Our insert of key k in table t. */
  lemma InsertWithKey(p: Plan, t: Name, k: int) returns (i: int)
    requires p.Keyed() && t in p.Info() && t in p.d.s && k in InsKeys(t, p.d.toOurs)
    ensures 0 <= i < |p.d.toOurs| && p.d.toOurs[i].WellShaped() && HasKey(p.d.toOurs[i].table)
    ensures p.d.toOurs[i].op == Insert && p.d.toOurs[i].table == p.d.s[t] && Pk(p.d.toOurs[i]) == k
  {
    i := InsKeyAt(t, p.d.toOurs, k);
    OurEntry(p, i);
  }

  lemma AppliedKeysDistinct(p: Plan, out: seq<Entry>, src: seq<nat>, t: Name)
    requires p.Valid() && Rewritable(p) && IsOutput(p, out, src) && Shaped(out) && InsertsHaveRoom(p.d.theirs, out)
    requires t in p.Info() && t in p.d.s
    ensures InjectiveOn(p.Cascade(t).ids, InsKeys(t, p.d.toOurs))
  {
    var ids, keys := p.Cascade(t).ids, InsKeys(t, p.d.toOurs);
    forall k, l | k in keys && l in keys && k != l ensures NewKey(ids, k) != NewKey(ids, l) {
      AppliedPairDistinct(p, out, src, t, k, l);
    }
  }

  lemma AppliedPairDistinct(p: Plan, out: seq<Entry>, src: seq<nat>, t: Name, k: int, l: int)
    requires p.Valid() && Rewritable(p) && IsOutput(p, out, src) && Shaped(out) && InsertsHaveRoom(p.d.theirs, out)
    requires t in p.Info() && t in p.d.s && k in InsKeys(t, p.d.toOurs) && l in InsKeys(t, p.d.toOurs) && k != l
    ensures NewKey(p.Cascade(t).ids, k) != NewKey(p.Cascade(t).ids, l)
  {
    var a := InsertLandsAt(p, out, src, t, k);
    var b := InsertLandsAt(p, out, src, t, l);
    assert Pk(p.d.toOurs[src[a]]) != Pk(p.d.toOurs[src[b]]);
    assert a != b;
    RoomApart(p.d.theirs, out, a, b);
  }

  lemma RoomApart(db: Db, out: seq<Entry>, a: int, b: int)
    requires Shaped(out) && InsertsHaveRoom(db, out) && 0 <= a < |out| && 0 <= b < |out| && a != b
    requires out[a].op == Insert && out[b].op == Insert
    ensures IdOf(out[a]) != IdOf(out[b])
  {
    if a < b {
      assert IdOf(out[a]) != IdOf(out[b]);
    }
  }

  /** The output entry of our insert of key k. */
  lemma InsertLandsAt(p: Plan, out: seq<Entry>, src: seq<nat>, t: Name, k: int) returns (j: int)
    requires p.Valid() && Rewritable(p) && IsOutput(p, out, src) && Shaped(out)
    requires t in p.Info() && t in p.d.s && k in InsKeys(t, p.d.toOurs)
    ensures 0 <= j < |out| && out[j].op == Insert && IdOf(out[j]) == KeyId(p.d.s[t], NewKey(p.Cascade(t).ids, k))
    ensures var e := p.d.toOurs[src[j]]; e.WellShaped() && HasKey(e.table) && Pk(e) == k
  {
    var i := InsertWithKey(p, t, k);
    j := InsertInOutput(p, out, src, i);
  }

  lemma AppliedBlockFree(p: Plan, out: seq<Entry>, src: seq<nat>, t: Name, v: int)
    requires p.Valid() && Rewritable(p) && IsOutput(p, out, src) && Shaped(out) && InsertsHaveRoom(p.d.theirs, out)
    requires t in p.Info() && t in p.d.s && Start(InfoOf(t, p.d.toTheirs)) <= v < p.Cascade(t).free
    ensures KeyId(p.d.s[t], v) !in p.d.theirs
  {
    var ti, c := InfoOf(t, p.d.toTheirs), p.Cascade(t);
    TableKeys(p.d, t, p.orders);
    RenumberedIsOurs(p.d, t, p.orders, v);
    var k :| k in InsKeys(t, p.d.toOurs) && k in c.ids && c.ids[k] == v;
    var j := InsertLandsAt(p, out, src, t, k);
  }

  /** Every number handed out went to one of our inserts. */
  lemma RenumberedIsOurs(d: Sides, t: Name, orders: Orders, v: int)
    requires d.Valid() && t in d.s && KeyedIn(d.toTheirs, t) && KeyedIn(d.toOurs, t)
    requires Enumerates(orders(t), MappingOf(t, InfoOf(t, d.toTheirs), d.toOurs).unmapped)
    requires Start(InfoOf(t, d.toTheirs)) <= v < CascadeOf(t, InfoOf(t, d.toTheirs), d.toOurs, orders).free
    ensures var c := CascadeOf(t, InfoOf(t, d.toTheirs), d.toOurs, orders);
            exists k :: k in InsKeys(t, d.toOurs) && k in c.ids && c.ids[k] == v
  {
    var ti, m := InfoOf(t, d.toTheirs), MappingOf(t, InfoOf(t, d.toTheirs), d.toOurs);
    DiffKeysOnce(d.s, d.base, d.ours, d.toOurs, t);
    FirstPassKeepsInv(t, ti, d.toOurs);
    HandedOut(ti, InsKeys(t, d.toOurs), OtherKeys(t, d.toOurs), m, orders(t), v);
  }

  lemma HandedOut(ti: TableInfo, ins: set<int>, others: set<int>, m: Mapping, order: seq<int>, v: int)
    requires MapInv(ti, ins, others, m) && Enumerates(order, m.unmapped) && Start(ti) <= v < VisitAll(m, order).free
    ensures var c := VisitAll(m, order); exists k :: k in ins && k in c.ids && c.ids[k] == v
  {
    CascadeKeepsInv(ti, ins, others, m, order);
    assert HasValue(VisitAll(m, order).ids, v);
  }

  /**
   For any visiting order the rebased changeset applies strictly to theirs
   exactly when the renumbered keys are distinct from the kept ones and theirs
   has no row in the block of numbers handed out.
   */
  lemma RebaseAppliesIff(p: Plan, out: seq<Entry>, src: seq<nat>)
    requires p.Valid() && Rewritable(p) && IsOutput(p, out, src) && InsertsFirst(p.d.toOurs)
    ensures Fits(p.d.s, out)
    ensures ApplyAll(p.d.theirs, out).Some? <==> KeysFree(p)
  {
    OutputFits(p, out, src);
    if KeysFree(p) {
      OutputMerges(p, out, src);
    }
    if ApplyAll(p.d.theirs, out).Some? {
      OutputInsertsFirst(p, out, src);
      AppliedInsertsHadRoom(p.d.s, p.d.theirs, out);
      forall t | t in p.Info() && t in p.d.s ensures InjectiveOn(p.Cascade(t).ids, InsKeys(t, p.d.toOurs)) {
        AppliedKeysDistinct(p, out, src, t);
      }
      forall t, k | t in p.Info() && t in p.d.s && Start(InfoOf(t, p.d.toTheirs)) <= k < p.Cascade(t).free
        ensures KeyId(p.d.s[t], k) !in p.d.theirs
      {
        AppliedBlockFree(p, out, src, t, k);
      }
    }
  }

  // ----- When keys are free -----

  /** No base key of a table exceeds the greatest key theirs inserted into it (or 0). */
  ghost predicate BaseKeysBounded(p: Plan)
    requires p.Keyed()
  {
    forall t, k | t in p.Info() && t in p.d.s && KeyId(p.d.s[t], k) in p.d.base :: k < Start(InfoOf(t, p.d.toTheirs))
  }

  /** Visiting in ascending order, with base keys bounded, all new keys are free. */
  lemma AscendingKeysFree(p: Plan)
    requires p.Valid() && BaseKeysBounded(p) && forall t | t in p.Info() :: Ascending(p.orders(t))
    ensures KeysFree(p)
  {
    forall t | t in p.Info() && t in p.d.s
      ensures InjectiveOn(p.Cascade(t).ids, InsKeys(t, p.d.toOurs))
    {
      TableKeys(p.d, t, p.orders);
      AscendingIsInjective(InfoOf(t, p.d.toTheirs), InsKeys(t, p.d.toOurs), OtherKeys(t, p.d.toOurs),
                           MappingOf(t, InfoOf(t, p.d.toTheirs), p.d.toOurs), p.orders(t));
    }
    forall t, k | t in p.Info() && t in p.d.s && Start(InfoOf(t, p.d.toTheirs)) <= k < p.Cascade(t).free
      ensures KeyId(p.d.s[t], k) !in p.d.theirs
    {
      InfoKnows(p.d, t, k);
      assert KeyId(p.d.s[t], k) !in p.d.base;
      assert k !in InfoOf(t, p.d.toTheirs).inserted;
    }
  }

  /** A row of ours changes its key only if theirs has its number or it lies in the block handed out. */
  lemma MovedOnlyIfTaken(p: Plan, id: RowId)
    requires p.Valid() && id in Moves(p) && Moves(p)[id] != id
    ensures id.table in p.Info() && id.table in p.d.s
    ensures exists k :: id == KeyId(p.d.s[id.table], k) &&
                        (id in p.d.theirs || Start(InfoOf(id.table, p.d.toTheirs)) <= k < p.Cascade(id.table).free)
  {
    var i := InsertOf(p, id);
    var e := p.d.toOurs[i];
    OurEntry(p, i);
    NewIdIsNewNumber(p, i);
    InsertKey(p, i);
    InfoKnows(p.d, id.table, Pk(e));
    assert id == KeyId(p.d.s[id.table], Pk(e));
  }
}
