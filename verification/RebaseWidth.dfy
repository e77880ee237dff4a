/** Rebased entries can be written: their values stay within the format's 64 bits. */
module RebaseWidth {
  import opened Values
  import opened Rows
  import opened Diff
  import opened KeyMapping
  import opened RebaseRules
  import opened RebaseKeys
  import opened Wire

  // ----- New keys -----

  /** Renumbering n inserts above theirs stays within 64 bits. */
  ghost predicate LeavesRoom(theirs: seq<Entry>, n: nat) {
    && 1 + n <= POW63
    && forall i | 0 <= i < |theirs| && theirs[i].WellShaped() && HasKey(theirs[i].table) && theirs[i].op == Insert ::
         Pk(theirs[i]) + 1 + n <= POW63
  }

  lemma StartLeavesRoom(t: Name, theirs: seq<Entry>, n: nat)
    requires Shaped(theirs) && KeyedIn(theirs, t) && LeavesRoom(theirs, n)
    ensures 1 <= Start(InfoOf(t, theirs)) && Start(InfoOf(t, theirs)) + n <= POW63
  {
    var k := MaxKey(InfoOf(t, theirs).inserted);
    InfoIff(t, theirs, k);
    if k in InfoOf(t, theirs).inserted {
      var i :| EntryAt(theirs, i, t, Insert, k);
    }
  }

  ghost predicate Bounded(ids: map<int, int>, free: int) {
    forall k | k in ids :: INVALID_FID <= ids[k] < free
  }

  /** Each of our entries takes at most one number. */
  lemma {:induction false} FirstPassBounds(t: Name, ti: TableInfo, es: seq<Entry>)
    requires Shaped(es) && KeyedIn(es, t)
    ensures var m := MappingOf(t, ti, es);
            m.free >= Start(ti) && Bounded(m.ids, m.free) && m.free + |m.unmapped| <= Start(ti) + |es|
    decreases |es|
  {
    if es != [] {
      FirstPassBounds(t, ti, es[..|es| - 1]);
    }
  }

  lemma {:induction false} VisitBounds(m: Mapping, order: seq<int>)
    requires Bounded(m.ids, m.free) && m.free >= 0
    ensures var c := VisitAll(m, order);
            m.free <= c.free <= m.free + |order| && Bounded(c.ids, c.free)
    decreases |order|
  {
    if order != [] {
      VisitBounds(m, order[..|order| - 1]);
    }
  }

  lemma {:induction false} EnumerationSize(order: seq<int>, keys: set<int>)
    requires Enumerates(order, keys)
    ensures |order| == |keys|
    decreases |order|
  {
    if order == [] {
      assert (forall k: int :: k !in keys) ==> keys == {};
    } else {
      var init, k := order[..|order| - 1], order[|order| - 1];
      assert order == init + [k];
      assert k in order && forall l | l in keys - {k} :: l in init;
      EnumerationSize(init, keys - {k});
    }
  }

  ghost predicate Keys64(ids: map<int, int>) {
    forall k | k in ids :: Fits64(Int(ids[k]))
  }

  lemma CascadeKeys64(t: Name, theirs: seq<Entry>, ours: seq<Entry>, orders: Orders)
    requires Shaped(theirs) && KeyedIn(theirs, t) && Shaped(ours) && KeyedIn(ours, t) && LeavesRoom(theirs, |ours|)
    requires Enumerates(orders(t), MappingOf(t, InfoOf(t, theirs), ours).unmapped)
    ensures Keys64(CascadeOf(t, InfoOf(t, theirs), ours, orders).ids)
  {
    var ti := InfoOf(t, theirs);
    var m := MappingOf(t, ti, ours);
    StartLeavesRoom(t, theirs, |ours|);
    FirstPassBounds(t, ti, ours);
    VisitBounds(m, orders(t));
    EnumerationSize(orders(t), m.unmapped);
  }

  // ----- Rewritten entries -----

  ghost predicate Patches64(ti: TableInfo) {
    forall k | k in ti.updated :: WritableRow(ti.updated[k])
  }

  lemma InfoPatches64(t: Name, theirs: seq<Entry>)
    requires Shaped(theirs) && KeyedIn(theirs, t) && forall i | 0 <= i < |theirs| :: WritableEntry(theirs[i])
    ensures Patches64(InfoOf(t, theirs))
  {
    forall k | k in InfoOf(t, theirs).updated ensures WritableRow(InfoOf(t, theirs).updated[k]) {
      InfoIff(t, theirs, k);
    }
  }

  lemma NewKey64(e: Entry, ids: map<int, int>)
    requires e.WellShaped() && HasKey(e.table) && WritableEntry(e) && Keys64(ids)
    ensures Writable(Int(NewKey(ids, Pk(e))))
  {
    assert Writable(e.KeyValues()[KeyColumn(e.table.primaryKeys)]);
  }

  /** An entry as the reader gives it: the lists its operation does not use are empty. */
  ghost predicate Plainly(e: Entry) {
    e.WellShaped() && WritableEntry(e) && e == e.Written()
  }

  lemma RebasedIsWritable(e: Entry, info: Info, maps: KeyMaps)
    requires RebasableEntry(e, info) && Plainly(e)
    requires e.table.name in info ==> Keys64(IdsOf(maps, e.table.name)) && Patches64(info[e.table.name])
    ensures var out := RebaseOne(e, info, maps).entry;
            out.Some? ==> Plainly(out.value) && out.value.table == e.table
  {
    var t := e.table.name;
    if t in info {
      NewKey64(e, IdsOf(maps, t));
    }
  }

  lemma OutputIsWritable(theirs: seq<Entry>, ours: seq<Entry>, orders: Orders, maps: KeyMaps, out: seq<Entry>, src: seq<nat>)
    requires Shaped(theirs) && AllKeyed(theirs) && (forall t | t in InfoFor(theirs) :: KeyedIn(theirs, t))
    requires (forall i | 0 <= i < |theirs| :: Plainly(theirs[i])) && (forall i | 0 <= i < |ours| :: Plainly(ours[i]))
    requires Shaped(ours) && (forall t | t in InfoFor(theirs) :: KeyedIn(ours, t)) && LeavesRoom(theirs, |ours|)
    requires MapsBuilt(InfoFor(theirs), ours, orders, maps)
    requires Rebasable(ours, InfoFor(theirs)) && ListsRebased(ours, InfoFor(theirs), maps, out, src)
    ensures forall j | 0 <= j < |out| :: Plainly(out[j]) && out[j].table == ours[src[j]].table
  {
    forall j | 0 <= j < |out| ensures Plainly(out[j]) && out[j].table == ours[src[j]].table {
      var e := ours[src[j]];
      var t := e.table.name;
      if t in InfoFor(theirs) {
        CascadeKeys64(t, theirs, ours, orders);
        InfoPatches64(t, theirs);
      }
      RebasedIsWritable(e, InfoFor(theirs), maps);
    }
  }

  // ----- Diffs -----

  /** A diff has at most one entry per row of either database. */
  lemma DiffSize(s: Schema, b: Db, m: Db, es: seq<Entry>)
    requires IsDiff(s, b, m, es)
    ensures |es| <= |b| + |m|
  {
    IdsCount(es);
    IdsAreRows(s, b, m, es);
    SubsetSize(Ids(es), b.Keys + m.Keys);
    UnionSize(b.Keys, m.Keys);
  }

  lemma IdsAreRows(s: Schema, b: Db, m: Db, es: seq<Entry>)
    requires IsDiff(s, b, m, es)
    ensures Ids(es) <= b.Keys + m.Keys
  {
  }

  lemma UnionSize<T>(a: set<T>, b: set<T>)
    ensures |a + b| <= |a| + |b|
  {
    assert a + b == a + (b - a);
    SubsetSize(b - a, b);
  }

  ghost function Ids(es: seq<Entry>): set<RowId>
    requires Shaped(es)
  {
    set i | 0 <= i < |es| :: IdOf(es[i])
  }

  lemma {:induction false} IdsCount(es: seq<Entry>)
    requires Shaped(es) && DistinctIds(es)
    ensures |Ids(es)| == |es|
    decreases |es|
  {
    if es != [] {
      var init, e := es[..|es| - 1], es[|es| - 1];
      assert es == init + [e];
      DistinctSnoc(init, e);
      IdsCount(init);
      forall i | 0 <= i < |init| ensures IdOf(init[i]) != IdOf(e) {
        assert IdOf(es[i]) != IdOf(es[|init|]);
      }
      assert Ids(es) == Ids(init) + {IdOf(e)};
    }
  }

  /** Entries of a diff take their values from rows. */
  lemma DiffIsWritable(s: Schema, b: Db, m: Db, es: seq<Entry>)
    requires ValidSchema(s) && IsDiff(s, b, m, es)
    requires (forall id | id in b :: WritableRow(b[id])) && (forall id | id in m :: WritableRow(m[id]))
    ensures forall i | 0 <= i < |es| :: Plainly(es[i])
  {
    forall i | 0 <= i < |es| ensures Plainly(es[i]) {
      assert IsRowDiff(s, b, m, IdOf(es[i]), es[i]);
    }
  }
}
