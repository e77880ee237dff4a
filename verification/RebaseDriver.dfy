/** The three passes of Rebase over state updated in place (driver/rebase.go). */
module RebaseDriver {
  import opened Values
  import opened Rows
  import opened KeyMapping
  import opened RebaseRules
  import opened RebaseKeys

  datatype RebaseError = Unreadable | NoPrimaryKey | FreeIndicesMissing | UnknownKey

  datatype PassResult = Done | Failed(error: RebaseError)

  // ----- Pass 1: record theirs -----

  class DatabaseRebaseInfo {
    var tables: Info

    constructor ()
      ensures tables == map[]
    {
      tables := map[];
    }

    /** Fails exactly when some entry has no key column. */
    method ParseOldChangeset(entries: seq<Entry>) returns (r: PassResult)
      requires Shaped(entries) && tables == map[]
      modifies this
      ensures r == Done || r == Failed(NoPrimaryKey)
      ensures r == Done <==> forall i | 0 <= i < |entries| :: HasKey(entries[i].table)
      ensures r == Done ==> AllKeyed(entries) && tables == InfoFor(entries)
    {
      for n := 0 to |entries|
        invariant forall i | 0 <= i < n :: HasKey(entries[i].table)
        invariant tables == InfoFor(entries[..n])
      {
        var e := entries[n];
        var ti := if e.table.name in tables then tables[e.table.name] else NO_INFO;
        if true !in e.table.primaryKeys {
          return Failed(NoPrimaryKey);
        }
        assert entries[..n + 1][..n] == entries[..n];
        InfoForSnoc(entries, n);
        tables := tables[e.table.name := Record(ti, e)];
      }
      assert entries[..|entries|] == entries;
      r := Done;
    }
  }

  lemma {:induction false} InfoOfAbsent(t: Name, es: seq<Entry>)
    requires Shaped(es) && KeyedIn(es, t) && t !in TableNames(es)
    ensures InfoOf(t, es) == NO_INFO
    decreases |es|
  {
    if es != [] {
      InfoOfAbsent(t, es[..|es| - 1]);
    }
  }

  lemma InfoForSnoc(es: seq<Entry>, n: nat)
    requires Shaped(es) && n < |es| && HasKey(es[n].table) && forall i | 0 <= i < n :: HasKey(es[i].table)
    ensures AllKeyed(es[..n]) && AllKeyed(es[..n + 1])
    ensures var info, e := InfoFor(es[..n]), es[n];
            var ti := if e.table.name in info then info[e.table.name] else NO_INFO;
            InfoFor(es[..n + 1]) == info[e.table.name := Record(ti, e)]
  {
    var e := es[n];
    assert es[..n + 1][..n] == es[..n];
    assert TableNames(es[..n + 1]) == TableNames(es[..n]) + {e.table.name} by {
      assert es[..n + 1] == es[..n] + [e];
      assert e.table.name == es[..n + 1][n].table.name;
      forall t | t in TableNames(es[..n]) ensures t in TableNames(es[..n + 1]) {
        var i :| 0 <= i < n && es[..n][i].table.name == t;
        assert es[..n + 1][i].table.name == t;
      }
    }
    if e.table.name !in TableNames(es[..n]) {
      InfoOfAbsent(e.table.name, es[..n]);
    }
  }

  // ----- Pass 2: map our keys -----

  class RebaseMapping {
    var mapIds: KeyMaps
    var unmappedInsertIds: map<Name, set<int>>

    constructor ()
      ensures mapIds == map[] && unmappedInsertIds == map[]
    {
      mapIds, unmappedInsertIds := map[], map[];
    }

    method AddPkeyMapping(table: Name, oldPk: int, newPk: int)
      modifies this`mapIds
      ensures mapIds == old(mapIds)[table := IdsOf(old(mapIds), table)[oldPk := newPk]]
    {
      if table !in mapIds {
        mapIds := mapIds[table := map[]];
      }
      mapIds := mapIds[table := mapIds[table][oldPk := newPk]];
    }

    method AddUnmapped(table: Name, pk: int)
      modifies this`unmappedInsertIds
      ensures unmappedInsertIds == old(unmappedInsertIds)[table := UnmappedOf(old(unmappedInsertIds), table) + {pk}]
    {
      if table !in unmappedInsertIds {
        unmappedInsertIds := unmappedInsertIds[table := {}];
      }
      unmappedInsertIds := unmappedInsertIds[table := unmappedInsertIds[table] + {pk}];
    }

    function HasOldPkey(table: Name, pk: int): (b: bool)
      reads this
      ensures b <==> pk in IdsOf(mapIds, table)
    {
      table in mapIds && pk in mapIds[table]
    }

    /** An unknown table or key is an internal error. */
    function GetNewPkey(table: Name, pk: int): (r: Option<int>)
      reads this
      ensures HasOldPkey(table, pk) ==> r == Some(IdsOf(mapIds, table)[pk])
      ensures !HasOldPkey(table, pk) ==> r == None
    {
      if table !in mapIds then None
      else if pk !in mapIds[table] then None
      else Some(mapIds[table][pk])
    }
  }

  function UnmappedOf(unmapped: map<Name, set<int>>, t: Name): set<int> {
    if t in unmapped then unmapped[t] else {}
  }

  /** max(inserted) + 1 for every table theirs inserted into. */
  method InitialFreeIndices(info: Info) returns (free: map<Name, int>)
    ensures forall t :: t in free <==> t in info && info[t].inserted != {}
    ensures forall t | t in free :: free[t] == Start(info[t])
  {
    free := map[];
    var todo := info.Keys;
    while todo != {}
      invariant todo <= info.Keys
      invariant forall t :: t in free <==> t in info.Keys - todo && info[t].inserted != {}
      invariant forall t | t in free :: free[t] == Start(info[t])
      decreases todo
    {
      SomeName(todo);
      var t :| t in todo;
      var maxPk := GreatestKey(info[t].inserted);
      if maxPk > 0 || info[t].inserted != {} {
        free := free[t := maxPk + 1];
      }
      todo := todo - {t};
    }
  }

  lemma SomeName(ts: set<Name>)
    requires ts != {}
    ensures exists t :: t in ts
  {
    assert (forall t: Name :: t !in ts) ==> ts == {};
  }

  method GreatestKey(keys: set<int>) returns (m: int)
    ensures m == MaxKey(keys)
  {
    m := 0;
    var todo := keys;
    while todo != {}
      invariant todo <= keys
      invariant IsMaxKey(keys - todo, m)
      decreases todo
    {
      SomeKey(todo);
      var k :| k in todo;
      if k > m {
        m := k;
      }
      assert keys - (todo - {k}) == (keys - todo) + {k};
      todo := todo - {k};
    }
    assert keys - todo == keys;
    MaxKeyUnique(keys, m);
  }

  lemma FirstPassSnoc(info: Info, es: seq<Entry>, n: nat, t: Name)
    requires Shaped(es) && n < |es| && t in info && KeyedIn(es[..n + 1], t)
    ensures KeyedIn(es[..n], t)
    ensures MappingOf(t, info[t], es[..n + 1]) ==
            (var m := MappingOf(t, info[t], es[..n]);
             if es[n].table.name == t then Map(m, info[t], es[n].op, Pk(es[n])) else m)
  {
    assert es[..n + 1][..n] == es[..n];
    assert forall i | 0 <= i < n :: es[..n + 1][i] == es[..n][i];
    assert es[..n + 1][n] == es[n];
  }

  /** State of pass 2 for one table is `m`. */
  ghost predicate TableState(t: Name, ti: TableInfo, m: Mapping, maps: KeyMaps, unmapped: map<Name, set<int>>, free: map<Name, int>) {
    && IdsOf(maps, t) == m.ids
    && UnmappedOf(unmapped, t) == m.unmapped
    && (t in free <==> ti.inserted != {})
    && (t in free ==> free[t] == m.free)
  }

  /** One of our entries in a table theirs touched. */
  method DetectConflict(e: Entry, ti: TableInfo, mapping: RebaseMapping, free0: map<Name, int>, ghost m: Mapping)
    returns (r: PassResult, free: map<Name, int>)
    requires e.WellShaped() && HasKey(e.table)
    requires TableState(e.table.name, ti, m, mapping.mapIds, mapping.unmappedInsertIds, free0)
    modifies mapping
    ensures r == Done
    ensures TableState(e.table.name, ti, Map(m, ti, e.op, Pk(e)), mapping.mapIds, mapping.unmappedInsertIds, free)
    ensures forall u | u != e.table.name ::
              && IdsOf(mapping.mapIds, u) == IdsOf(old(mapping.mapIds), u)
              && UnmappedOf(mapping.unmappedInsertIds, u) == UnmappedOf(old(mapping.unmappedInsertIds), u)
              && (u in mapping.unmappedInsertIds <==> u in old(mapping.unmappedInsertIds))
    ensures free.Keys == free0.Keys && forall u | u in free && u != e.table.name :: free[u] == free0[u]
  {
    free := free0;
    var t, pk := e.table.name, Pk(e);
    match e.op {
      case Insert =>
        if pk in ti.inserted {
          if t !in free {
            assert false;
            return Failed(FreeIndicesMissing), free;
          }
          mapping.AddPkeyMapping(t, pk, free[t]);
          free := free[t := free[t] + 1];
        } else {
          mapping.AddUnmapped(t, pk);
        }
      case _ =>
        if pk in ti.deleted {
          mapping.AddPkeyMapping(t, pk, INVALID_FID);
        }
    }
    r := Done;
  }

  /** State of pass 2 after the entries `es`, before the last loop. */
  ghost predicate FirstPassState(info: Info, es: seq<Entry>, maps: KeyMaps, unmapped: map<Name, set<int>>, free: map<Name, int>)
    requires Shaped(es) && forall t | t in info :: KeyedIn(es, t)
  {
    && (forall t | t in info :: TableState(t, info[t], MappingOf(t, info[t], es), maps, unmapped, free))
    && (forall t | t in free || t in unmapped :: t in info)
  }

  /** First pass over our entries; tables theirs did not touch are skipped. */
  method DetectConflicts(entries: seq<Entry>, info: Info, mapping: RebaseMapping) returns (r: PassResult, free: map<Name, int>)
    requires Shaped(entries) && mapping.mapIds == map[] && mapping.unmappedInsertIds == map[]
    modifies mapping
    ensures r == Done || r == Failed(NoPrimaryKey)
    ensures r == Done <==> forall t | t in info :: KeyedIn(entries, t)
    ensures r == Done ==> FirstPassState(info, entries, mapping.mapIds, mapping.unmappedInsertIds, free)
  {
    free := InitialFreeIndices(info);
    for n := 0 to |entries|
      invariant forall t | t in info :: KeyedIn(entries[..n], t)
      invariant FirstPassState(info, entries[..n], mapping.mapIds, mapping.unmappedInsertIds, free)
    {
      var e := entries[n];
      var t := e.table.name;
      if t in info && true !in e.table.primaryKeys {
        assert !KeyedIn(entries, t);
        return Failed(NoPrimaryKey), free;
      }
      forall u | u in info ensures KeyedIn(entries[..n + 1], u) {
        assert entries[..n + 1] == entries[..n] + [e];
      }
      if t in info {
        r, free := DetectConflict(e, info[t], mapping, free, MappingOf(t, info[t], entries[..n]));
      }
      forall u | u in info
        ensures TableState(u, info[u], MappingOf(u, info[u], entries[..n + 1]), mapping.mapIds, mapping.unmappedInsertIds, free)
      {
        FirstPassSnoc(info, entries, n, u);
      }
    }
    assert entries[..|entries|] == entries;
    r := Done;
  }

  /** The last loop for one table. */
  method RenumberTable(t: Name, ti: TableInfo, ghost m: Mapping, order: seq<int>, mapping: RebaseMapping, free0: map<Name, int>)
    returns (r: PassResult, free: map<Name, int>)
    requires IdsOf(mapping.mapIds, t) == m.ids && (t in free0 ==> free0[t] == m.free)
    requires UsedKeys(m.ids) != {} ==> t in free0
    modifies mapping`mapIds
    ensures r == Done
    ensures IdsOf(mapping.mapIds, t) == VisitAll(m, order).ids
    ensures forall u | u != t :: IdsOf(mapping.mapIds, u) == IdsOf(old(mapping.mapIds), u)
    ensures free.Keys == free0.Keys && forall u | u in free && u != t :: free[u] == free0[u]
  {
    free := free0;
    var used := UsedKeys(IdsOf(mapping.mapIds, t));
    for n := 0 to |order|
      invariant IdsOf(mapping.mapIds, t) == VisitAll(m, order[..n]).ids
      invariant used == VisitAll(m, order[..n]).used
      invariant t in free ==> free[t] == VisitAll(m, order[..n]).free
      invariant used != {} ==> t in free
      invariant forall u | u != t :: IdsOf(mapping.mapIds, u) == IdsOf(old(mapping.mapIds), u)
      invariant free.Keys == free0.Keys && forall u | u in free && u != t :: free[u] == free0[u]
    {
      assert order[..n + 1][..n] == order[..n];
      var pk := order[n];
      if pk in used {
        if t !in free {
          assert false;
          return Failed(FreeIndicesMissing), free;
        }
        mapping.AddPkeyMapping(t, pk, free[t]);
        used := used + {free[t]};
        free := free[t := free[t] + 1];
      }
    }
    assert order[..|order|] == order;
    r := Done;
  }

  /** Only tables theirs inserted into hand out new keys. */
  lemma {:induction false} NewKeysNeedInserts(t: Name, ti: TableInfo, es: seq<Entry>)
    requires Shaped(es) && KeyedIn(es, t) && ti.inserted == {}
    ensures forall k | k in MappingOf(t, ti, es).ids :: MappingOf(t, ti, es).ids[k] == INVALID_FID
    decreases |es|
  {
    if es != [] {
      NewKeysNeedInserts(t, ti, es[..|es| - 1]);
    }
  }

  lemma EmptyOrder(order: seq<int>, keys: set<int>)
    requires Enumerates(order, keys)
    ensures keys == {} ==> order == []
  {
    if order != [] {
      assert order[0] in order && order[0] in keys;
    }
  }

  /**
   Both loops. The tables, and the unmapped keys of each, are visited in
   arbitrary order; the errors for a missing free index are never returned.
   */
  method FindMappingForNewChangeset(entries: seq<Entry>, info: Info, mapping: RebaseMapping, visit: Visit) returns (r: PassResult)
    requires Shaped(entries) && mapping.mapIds == map[] && mapping.unmappedInsertIds == map[] && ValidVisit(visit)
    modifies mapping
    ensures r == Done || r == Failed(NoPrimaryKey)
    ensures r == Done <==> forall t | t in info :: KeyedIn(entries, t)
    ensures r == Done ==> MapsBuilt(info, entries, VisitOrders(visit, info, entries), mapping.mapIds)
  {
    var free;
    r, free := DetectConflicts(entries, info, mapping);
    if r != Done {
      return;
    }
    var todo := mapping.unmappedInsertIds.Keys;
    ghost var unmapped, orders := mapping.unmappedInsertIds, VisitOrders(visit, info, entries);
    while todo != {}
      invariant mapping.unmappedInsertIds == unmapped && r == Done
      invariant LastLoopState(info, entries, orders, mapping.mapIds, unmapped, free, todo)
      decreases todo
    {
      SomeName(todo);
      var t :| t in todo;
      if info[t].inserted == {} {
        NewKeysNeedInserts(t, info[t], entries);
      }
      ghost var maps, freeBefore := mapping.mapIds, free;
      r, free := RenumberTable(t, info[t], MappingOf(t, info[t], entries), visit(t, mapping.unmappedInsertIds[t]), mapping, free);
      LastLoopStep(info, entries, orders, maps, unmapped, freeBefore, todo, t, mapping.mapIds, free);
      todo := todo - {t};
    }
    forall t | t in info ensures IdsOf(mapping.mapIds, t) == CascadeOf(t, info[t], entries, orders).ids {
      if t !in unmapped {
        EmptyOrder(visit(t, {}), {});
        EmptyOrder(orders(t), MappingOf(t, info[t], entries).unmapped);
      }
    }
  }

  /** State of the last loop: the tables of `todo` still have the keys of the first pass, the others their final ones. */
  ghost predicate LastLoopState(info: Info, es: seq<Entry>, orders: Orders, maps: KeyMaps, unmapped: map<Name, set<int>>, free: map<Name, int>, todo: set<Name>)
    requires Shaped(es) && forall t | t in info :: KeyedIn(es, t)
  {
    && todo <= unmapped.Keys
    && (forall t | t in unmapped :: t in info)
    && (forall t | t in info :: UnmappedOf(unmapped, t) == MappingOf(t, info[t], es).unmapped)
    && free.Keys == (set t | t in info && info[t].inserted != {})
    && (forall t | t in info && (t in todo || t !in unmapped) :: IdsOf(maps, t) == MappingOf(t, info[t], es).ids)
    && (forall t | t in todo && t in free :: free[t] == MappingOf(t, info[t], es).free)
    && (forall t | t in unmapped.Keys - todo :: IdsOf(maps, t) == CascadeOf(t, info[t], es, orders).ids)
  }

  lemma LastLoopStep(info: Info, es: seq<Entry>, orders: Orders, maps: KeyMaps, unmapped: map<Name, set<int>>, free: map<Name, int>, todo: set<Name>,
                     t: Name, maps': KeyMaps, free': map<Name, int>)
    requires Shaped(es) && forall u | u in info :: KeyedIn(es, u)
    requires LastLoopState(info, es, orders, maps, unmapped, free, todo) && t in todo
    requires IdsOf(maps', t) == CascadeOf(t, info[t], es, orders).ids && forall u | u != t :: IdsOf(maps', u) == IdsOf(maps, u)
    requires free'.Keys == free.Keys && forall u | u in free && u != t :: free'[u] == free[u]
    ensures LastLoopState(info, es, orders, maps', unmapped, free', todo - {t})
  {
  }
}
