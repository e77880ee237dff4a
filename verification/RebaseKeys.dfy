/** What the recorded changes and the key maps say about the rows of the three databases. */
module RebaseKeys {
  import opened Values
  import opened Rows
  import opened Diff
  import opened KeyMapping
  import opened RebaseRules
  import opened RebaseRows

  /** Base, theirs and ours with the two changesets between them; one integer key per table. */
  datatype Sides = Sides(s: Schema, base: Db, theirs: Db, ours: Db, toTheirs: seq<Entry>, toOurs: seq<Entry>) {
    ghost predicate Valid() {
      && ValidSchema(s)
      && DbOver(s, base) && DbOver(s, theirs) && DbOver(s, ours)
      && IntKeys(s, base) && IntKeys(s, theirs) && IntKeys(s, ours)
      && IsDiff(s, base, theirs, toTheirs)
      && IsDiff(s, base, ours, toOurs)
    }

    ghost predicate Keyed() {
      Valid() && forall t :: KeyedIn(toTheirs, t) && KeyedIn(toOurs, t)
    }
  }

  // ----- Entries of a diff by key -----

  /** The i-th entry is an `op` on key k of table t. */
  ghost predicate EntryAt(es: seq<Entry>, i: int, t: Name, op: Op, k: int)
    requires Shaped(es) && KeyedIn(es, t)
  {
    0 <= i < |es| && es[i].table.name == t && es[i].op == op && Pk(es[i]) == k
  }

  ghost predicate HasEntry(es: seq<Entry>, t: Name, op: Op, k: int)
    requires Shaped(es) && KeyedIn(es, t)
  {
    exists i :: EntryAt(es, i, t, op, k)
  }

  lemma HasEntrySnoc(es: seq<Entry>, t: Name, op: Op, k: int)
    requires Shaped(es) && KeyedIn(es, t) && es != []
    ensures var init, e := es[..|es| - 1], es[|es| - 1];
            HasEntry(es, t, op, k) <==> HasEntry(init, t, op, k) || (e.table.name == t && e.op == op && Pk(e) == k)
  {
    var n := |es| - 1;
    if i :| EntryAt(es[..n], i, t, op, k) {
      assert EntryAt(es, i, t, op, k);
    }
    if i :| EntryAt(es, i, t, op, k) && i < n {
      assert EntryAt(es[..n], i, t, op, k);
    }
    if es[n].table.name == t && es[n].op == op && Pk(es[n]) == k {
      assert EntryAt(es, n, t, op, k);
    }
  }

  lemma {:induction false} InfoIff(t: Name, es: seq<Entry>, k: int)
    requires Shaped(es) && KeyedIn(es, t)
    ensures k in InfoOf(t, es).inserted <==> HasEntry(es, t, Insert, k)
    ensures k in InfoOf(t, es).deleted <==> HasEntry(es, t, Delete, k)
    ensures k in InfoOf(t, es).updated <==> HasEntry(es, t, Update, k)
    ensures k in InfoOf(t, es).updated ==> exists i :: EntryAt(es, i, t, Update, k) && InfoOf(t, es).updated[k] == es[i].newValues
    decreases |es|
  {
    if es != [] {
      var n := |es| - 1;
      InfoIff(t, es[..n], k);
      HasEntrySnoc(es, t, Insert, k);
      HasEntrySnoc(es, t, Delete, k);
      HasEntrySnoc(es, t, Update, k);
      if k in InfoOf(t, es).updated {
        if es[n].table.name == t && es[n].op == Update && Pk(es[n]) == k {
          assert EntryAt(es, n, t, Update, k);
        } else {
          var i :| EntryAt(es[..n], i, t, Update, k) && InfoOf(t, es[..n]).updated[k] == es[i].newValues;
          assert EntryAt(es, i, t, Update, k);
        }
      }
    }
  }

  /** Of several updates of one row the last one is recorded. */
  lemma {:induction false} LastUpdateRecorded(t: Name, es: seq<Entry>, k: int, i: int)
    requires Shaped(es) && KeyedIn(es, t) && EntryAt(es, i, t, Update, k)
    requires forall j | i < j < |es| :: !EntryAt(es, j, t, Update, k)
    ensures k in InfoOf(t, es).updated && InfoOf(t, es).updated[k] == es[i].newValues
    decreases |es|
  {
    var n := |es| - 1;
    if i < n {
      assert !EntryAt(es, n, t, Update, k);
      assert forall j | i <= j < n :: EntryAt(es[..n], j, t, Update, k) <==> EntryAt(es, j, t, Update, k);
      LastUpdateRecorded(t, es[..n], k, i);
    }
  }

  /** A diff of integer-keyed databases: its tables have keys and every entry sits under its key. */
  lemma DiffKeyed(s: Schema, b: Db, m: Db, es: seq<Entry>)
    requires ValidSchema(s) && IntKeys(s, b) && IntKeys(s, m) && IsDiff(s, b, m, es)
    ensures forall i | 0 <= i < |es| :: EntryFits(s, es[i]) && HasKey(es[i].table) && OneKey(es[i].table.primaryKeys)
    ensures forall i | 0 <= i < |es| :: IdOf(es[i]) == KeyId(es[i].table, Pk(es[i]))
    ensures forall t :: KeyedIn(es, t)
  {
    forall i | 0 <= i < |es|
      ensures EntryFits(s, es[i]) && HasKey(es[i].table) && OneKey(es[i].table.primaryKeys)
      ensures IdOf(es[i]) == KeyId(es[i].table, Pk(es[i]))
    {
      EntryKey(s, b, m, es[i]);
    }
  }

  /** The operation between two states of a row. */
  ghost predicate OpBetween(op: Op, b: Option<Row>, m: Option<Row>) {
    match op
    case Insert => b.None? && m.Some?
    case Delete => b.Some? && m.None?
    case Update => b.Some? && m.Some? && b != m
  }

  lemma EntryIsOpBetween(s: Schema, b: Db, m: Db, es: seq<Entry>, t: Name, op: Op, k: int, i: int)
    requires ValidSchema(s) && IntKeys(s, b) && IntKeys(s, m) && IsDiff(s, b, m, es) && t in s
    requires KeyedIn(es, t) && EntryAt(es, i, t, op, k)
    ensures OpBetween(op, Get(b, KeyId(s[t], k)), Get(m, KeyId(s[t], k)))
  {
    DiffKeyed(s, b, m, es);
    var id := KeyId(s[t], k);
    assert IdOf(es[i]) == id;
    IsRowDiffFacts(s, b, m, id, es[i]);
  }

  lemma ChangedRowHasEntry(s: Schema, b: Db, m: Db, es: seq<Entry>, t: Name, op: Op, k: int) returns (i: int)
    requires ValidSchema(s) && IntKeys(s, b) && IntKeys(s, m) && IsDiff(s, b, m, es) && t in s
    requires OpBetween(op, Get(b, KeyId(s[t], k)), Get(m, KeyId(s[t], k)))
    ensures KeyedIn(es, t) && EntryAt(es, i, t, op, k)
  {
    DiffKeyed(s, b, m, es);
    var id := KeyId(s[t], k);
    assert id in Changed(b, m) && Touches(es, id);
    i :| 0 <= i < |es| && IdOf(es[i]) == id;
    assert IsRowDiff(s, b, m, id, es[i]);
    KeyIdInjective(s[t], k, Pk(es[i]));
  }

  /** Which operation a diff has on key k follows from the two states of the row. */
  lemma DiffHasEntry(s: Schema, b: Db, m: Db, es: seq<Entry>, t: Name, op: Op, k: int)
    requires ValidSchema(s) && IntKeys(s, b) && IntKeys(s, m) && IsDiff(s, b, m, es) && t in s
    ensures KeyedIn(es, t)
    ensures HasEntry(es, t, op, k) <==> OpBetween(op, Get(b, KeyId(s[t], k)), Get(m, KeyId(s[t], k)))
  {
    DiffKeyed(s, b, m, es);
    if i :| EntryAt(es, i, t, op, k) {
      EntryIsOpBetween(s, b, m, es, t, op, k, i);
    }
    if OpBetween(op, Get(b, KeyId(s[t], k)), Get(m, KeyId(s[t], k))) {
      var i := ChangedRowHasEntry(s, b, m, es, t, op, k);
    }
  }

  lemma KnowsInserted(d: Sides, t: Name, k: int)
    requires d.Valid() && t in d.s
    ensures KeyedIn(d.toTheirs, t)
    ensures var id := KeyId(d.s[t], k);
            k in InfoOf(t, d.toTheirs).inserted <==> Get(d.base, id).None? && Get(d.theirs, id).Some?
  {
    DiffHasEntry(d.s, d.base, d.theirs, d.toTheirs, t, Insert, k);
    InfoIff(t, d.toTheirs, k);
  }

  lemma KnowsDeleted(d: Sides, t: Name, k: int)
    requires d.Valid() && t in d.s
    ensures KeyedIn(d.toTheirs, t)
    ensures var id := KeyId(d.s[t], k);
            k in InfoOf(t, d.toTheirs).deleted <==> Get(d.base, id).Some? && Get(d.theirs, id).None?
  {
    DiffHasEntry(d.s, d.base, d.theirs, d.toTheirs, t, Delete, k);
    InfoIff(t, d.toTheirs, k);
  }

  lemma KnowsUpdated(d: Sides, t: Name, k: int)
    requires d.Valid() && t in d.s
    ensures KeyedIn(d.toTheirs, t)
    ensures var b, m := Get(d.base, KeyId(d.s[t], k)), Get(d.theirs, KeyId(d.s[t], k));
            k in InfoOf(t, d.toTheirs).updated <==> b.Some? && m.Some? && b != m
  {
    DiffHasEntry(d.s, d.base, d.theirs, d.toTheirs, t, Update, k);
    InfoIff(t, d.toTheirs, k);
  }

  /** The values recorded for an updated row are the new ones of the canonical update. */
  lemma KnowsValues(d: Sides, t: Name, k: int)
    requires d.Valid() && t in d.s && KeyedIn(d.toTheirs, t) && k in InfoOf(t, d.toTheirs).updated
    requires Get(d.base, KeyId(d.s[t], k)).Some? && Get(d.theirs, KeyId(d.s[t], k)).Some?
    ensures var b, m := Get(d.base, KeyId(d.s[t], k)).value, Get(d.theirs, KeyId(d.s[t], k)).value;
            |b| == |m| && InfoOf(t, d.toTheirs).updated[k] == CanonicalNew(b, m)
  {
    var es := d.toTheirs;
    DiffKeyed(d.s, d.base, d.theirs, es);
    InfoIff(t, es, k);
    var i :| EntryAt(es, i, t, Update, k) && InfoOf(t, es).updated[k] == es[i].newValues;
    assert IdOf(es[i]) == KeyId(d.s[t], k);
    assert IsRowDiff(d.s, d.base, d.theirs, KeyId(d.s[t], k), es[i]);
  }

  /** The record of theirs knows every row of the table. */
  lemma InfoKnows(d: Sides, t: Name, k: int)
    requires d.Valid() && t in d.s
    ensures KeyedIn(d.toTheirs, t)
    ensures Knows(InfoOf(t, d.toTheirs), k, Get(d.base, KeyId(d.s[t], k)), Get(d.theirs, KeyId(d.s[t], k)))
  {
    KnowsInserted(d, t, k);
    KnowsDeleted(d, t, k);
    KnowsUpdated(d, t, k);
    if k in InfoOf(t, d.toTheirs).updated {
      KnowsValues(d, t, k);
    }
  }

  lemma InfoFitsTable(d: Sides, t: Name)
    requires d.Valid() && t in d.s
    ensures KeyedIn(d.toTheirs, t) && InfoFits(InfoOf(t, d.toTheirs), d.s[t])
  {
    DiffKeyed(d.s, d.base, d.theirs, d.toTheirs);
    forall k | k in InfoOf(t, d.toTheirs).updated ensures |InfoOf(t, d.toTheirs).updated[k]| == d.s[t].ColumnCount() {
      InfoIff(t, d.toTheirs, k);
    }
  }

  // ----- Our key mapping -----

  ghost function InsKeys(t: Name, es: seq<Entry>): set<int>
    requires Shaped(es) && KeyedIn(es, t)
  {
    set i | 0 <= i < |es| && es[i].table.name == t && es[i].op == Insert :: Pk(es[i])
  }

  ghost function OtherKeys(t: Name, es: seq<Entry>): set<int>
    requires Shaped(es) && KeyedIn(es, t)
  {
    set i | 0 <= i < |es| && es[i].table.name == t && es[i].op != Insert :: Pk(es[i])
  }

  lemma InsKeyAt(t: Name, es: seq<Entry>, k: int) returns (i: int)
    requires Shaped(es) && KeyedIn(es, t) && k in InsKeys(t, es)
    ensures EntryAt(es, i, t, Insert, k)
  {
    i :| 0 <= i < |es| && es[i].table.name == t && es[i].op == Insert && Pk(es[i]) == k;
  }

  ghost predicate KeysOnce(t: Name, es: seq<Entry>)
    requires Shaped(es) && KeyedIn(es, t)
  {
    forall i, j | 0 <= i < j < |es| && es[i].table.name == t && es[j].table.name == t :: Pk(es[i]) != Pk(es[j])
  }

  lemma KeySetsSnoc(t: Name, es: seq<Entry>)
    requires Shaped(es) && KeyedIn(es, t) && KeysOnce(t, es) && es != []
    ensures var init, e := es[..|es| - 1], es[|es| - 1];
            && KeysOnce(t, init)
            && (e.table.name != t ==> InsKeys(t, es) == InsKeys(t, init) && OtherKeys(t, es) == OtherKeys(t, init))
            && (e.table.name == t ==>
                  && Pk(e) !in InsKeys(t, init) + OtherKeys(t, init)
                  && InsKeys(t, es) == InsKeys(t, init) + (if e.op == Insert then {Pk(e)} else {})
                  && OtherKeys(t, es) == OtherKeys(t, init) + (if e.op != Insert then {Pk(e)} else {}))
  {
    var n := |es| - 1;
    assert forall i | 0 <= i < n :: es[..n][i] == es[i];
  }

  lemma OneMoreKey(ti: TableInfo, ins: set<int>, others: set<int>, ins': set<int>, others': set<int>, m: Mapping, op: Op, pk: int)
    requires MapInv(ti, ins, others, m) && pk !in ins + others
    requires ins' == ins + (if op == Insert then {pk} else {}) && others' == others + (if op != Insert then {pk} else {})
    ensures MapInv(ti, ins', others', Map(m, ti, op, pk))
  {
    MapKeepsInv(ti, ins, others, m, op, pk);
    assert ins + {} == ins && others + {} == others;
  }

  lemma {:induction false} FirstPassKeepsInv(t: Name, ti: TableInfo, es: seq<Entry>)
    requires Shaped(es) && KeyedIn(es, t) && KeysOnce(t, es)
    ensures MapInv(ti, InsKeys(t, es), OtherKeys(t, es), MappingOf(t, ti, es))
    decreases |es|
  {
    if es != [] {
      var init, e := es[..|es| - 1], es[|es| - 1];
      KeySetsSnoc(t, es);
      FirstPassKeepsInv(t, ti, init);
      if e.table.name == t {
        OneMoreKey(ti, InsKeys(t, init), OtherKeys(t, init), InsKeys(t, es), OtherKeys(t, es), MappingOf(t, ti, init), e.op, Pk(e));
      }
    }
  }

  /** Taken numbers are replaced in the order of our entries: the first by the one after theirs' greatest, the next by the one after that. */
  lemma {:induction false} NumbersInOrder(t: Name, ti: TableInfo, es: seq<Entry>, i: nat, max: int)
    requires Shaped(es) && KeyedIn(es, t) && KeysOnce(t, es) && IsMaxKey(ti.inserted, max)
    requires i < |es| && es[i].table.name == t && es[i].op == Insert && Pk(es[i]) in ti.inserted
    ensures KeyedIn(es[..i], t)
    ensures var ids := MappingOf(t, ti, es).ids;
            Pk(es[i]) in ids && ids[Pk(es[i])] == max + 1 + |InsKeys(t, es[..i]) * ti.inserted|
    decreases |es|
  {
    var n := |es| - 1;
    if i == n {
      LastNumber(t, ti, es, max);
    } else {
      NumbersInOrder(t, ti, es[..n], i, max);
      assert es[..n][..i] == es[..i];
      KeyStays(t, ti, es, Pk(es[i]));
    }
  }

  lemma LastNumber(t: Name, ti: TableInfo, es: seq<Entry>, max: int)
    requires Shaped(es) && KeyedIn(es, t) && KeysOnce(t, es) && IsMaxKey(ti.inserted, max)
    requires es != [] && es[|es| - 1].table.name == t && es[|es| - 1].op == Insert && Pk(es[|es| - 1]) in ti.inserted
    ensures var init, k := es[..|es| - 1], Pk(es[|es| - 1]);
            && k in MappingOf(t, ti, es).ids && MappingOf(t, ti, es).ids[k] == max + 1 + |InsKeys(t, init) * ti.inserted|
  {
    FirstPassKeepsInv(t, ti, es[..|es| - 1]);
    MaxKeyUnique(ti.inserted, max);
  }

  lemma KeyStays(t: Name, ti: TableInfo, es: seq<Entry>, k: int)
    requires Shaped(es) && KeyedIn(es, t) && es != []
    requires es[|es| - 1].table.name == t ==> Pk(es[|es| - 1]) != k
    ensures var ids, ids' := MappingOf(t, ti, es[..|es| - 1]).ids, MappingOf(t, ti, es).ids;
            k in ids ==> k in ids' && ids'[k] == ids[k]
  {
  }

  lemma DiffKeysOnce(s: Schema, b: Db, m: Db, es: seq<Entry>, t: Name)
    requires ValidSchema(s) && IntKeys(s, b) && IntKeys(s, m) && IsDiff(s, b, m, es)
    ensures KeyedIn(es, t) && KeysOnce(t, es)
  {
    DiffKeyed(s, b, m, es);
    forall i, j | 0 <= i < j < |es| && es[i].table.name == t && es[j].table.name == t ensures Pk(es[i]) != Pk(es[j]) {
      assert IdOf(es[i]) != IdOf(es[j]);
    }
  }

  /** The record of all of theirs' tables. */
  ghost function InfoFor(es: seq<Entry>): Info
    requires Shaped(es) && AllKeyed(es)
  {
    map t | t in TableNames(es) :: InfoOf(t, es)
  }

  /** A visiting order for each table. */
  type Orders = Name -> seq<int>

  /** How the loop over a Go map happens to visit the unmapped keys of a table. */
  type Visit = (Name, set<int>) -> seq<int>

  ghost predicate ValidVisit(visit: Visit) {
    forall t, keys :: Enumerates(visit(t, keys), keys)
  }

  ghost predicate AscendingVisit(visit: Visit) {
    forall t, keys :: Ascending(visit(t, keys))
  }

  /** The visiting orders that arise for our changeset. */
  ghost function VisitOrders(visit: Visit, info: Info, es: seq<Entry>): Orders
    requires Shaped(es)
  {
    t => if t in info && KeyedIn(es, t) then visit(t, MappingOf(t, info[t], es).unmapped) else []
  }

  ghost function CascadeOf(t: Name, ti: TableInfo, es: seq<Entry>, orders: Orders): Cascade
    requires Shaped(es) && KeyedIn(es, t)
  {
    VisitAll(MappingOf(t, ti, es), orders(t))
  }

  /** The key maps the source builds, table by table, visiting unmapped inserts in the given orders. */
  ghost predicate MapsBuilt(info: Info, es: seq<Entry>, orders: Orders, maps: KeyMaps)
    requires Shaped(es) && forall t | t in info :: KeyedIn(es, t)
  {
    forall t | t in info ::
      && Enumerates(orders(t), MappingOf(t, info[t], es).unmapped)
      && IdsOf(maps, t) == CascadeOf(t, info[t], es, orders).ids
  }

  /** All about the keys of one table. */
  lemma TableKeys(d: Sides, t: Name, orders: Orders)
    requires d.Valid() && t in d.s && KeyedIn(d.toTheirs, t) && KeyedIn(d.toOurs, t)
    requires Enumerates(orders(t), MappingOf(t, InfoOf(t, d.toTheirs), d.toOurs).unmapped)
    ensures var ti := InfoOf(t, d.toTheirs);
            var ins, others := InsKeys(t, d.toOurs), OtherKeys(t, d.toOurs);
            var c := CascadeOf(t, ti, d.toOurs, orders);
            && MapInv(ti, ins, others, MappingOf(t, ti, d.toOurs))
            && SoundKeys(ti, ins, others, c.ids, c.free)
            && Block(c.ids, Start(ti), c.free)
            && ins !! others
  {
    DiffKeysOnce(d.s, d.base, d.ours, d.toOurs, t);
    FirstPassKeepsInv(t, InfoOf(t, d.toTheirs), d.toOurs);
    AnyOrderIsSound(InfoOf(t, d.toTheirs), InsKeys(t, d.toOurs), OtherKeys(t, d.toOurs),
                    MappingOf(t, InfoOf(t, d.toTheirs), d.toOurs), orders(t));
  }
}
