/** Three databases that rebase to a changeset theirs refuses. */
module RebaseWitness {
  import opened Values
  import opened Rows
  import opened Diff
  import opened KeyMapping
  import opened KeyRoom
  import opened RebaseRules
  import opened RebaseRows
  import opened RebaseKeys
  import opened RebaseMerge
  import opened RebaseApplies
  import opened RebaseRoom
  import opened Apply
  import opened ApplySkips
  import opened DriverMerge

  /** One table with its integer key as only column. */
  const TABLE := ChangesetTable(Ascii("t"), [true])

  const SCHEMA: Schema := map[TABLE.name := TABLE]

  ghost function Holding(keys: set<int>): Db {
    map id | id in (set k | k in keys :: KeyId(TABLE, k)) :: id.key
  }

  function Inserts(keys: seq<int>): seq<Entry> {
    seq(|keys|, i requires 0 <= i < |keys| => Entry(Insert, [], [Int(keys[i])], TABLE))
  }

  /** Both sides insert into a table that holds the base keys. */
  ghost function Inserting(base: set<int>, theirs: seq<int>, ours: seq<int>): Sides {
    Sides(SCHEMA, Holding(base), Holding(base + Keys(theirs)), Holding(base + Keys(ours)), Inserts(theirs), Inserts(ours))
  }

  ghost function Keys(order: seq<int>): set<int> {
    set k | k in order
  }

  lemma KeyIdIs(k: int)
    ensures KeyId(TABLE, k) == RowId(TABLE.name, [Int(k)])
    ensures KeyColumn(TABLE.primaryKeys) == 0 && OneKey(TABLE.primaryKeys)
  {
    assert KeyId(TABLE, k).key == [Int(k)];
  }

  lemma Holds(keys: set<int>, k: int)
    ensures KeyId(TABLE, k) in Holding(keys) <==> k in keys
    ensures k in keys ==> Holding(keys)[KeyId(TABLE, k)] == [Int(k)]
  {
    KeyIdIs(k);
    if KeyId(TABLE, k) in Holding(keys) {
      var l :| l in keys && KeyId(TABLE, l) == KeyId(TABLE, k);
      KeyIdInjective(TABLE, k, l);
    }
  }

  lemma HoldingFits(keys: set<int>)
    ensures ValidSchema(SCHEMA) && DbOver(SCHEMA, Holding(keys)) && IntKeys(SCHEMA, Holding(keys))
  {
    KeyIdIs(0);
    forall id | id in Holding(keys)
      ensures id.table in SCHEMA && RowFits(id, TABLE, Holding(keys)[id]) && IntKeyed(TABLE, Holding(keys)[id])
    {
      var k :| k in keys && id == KeyId(TABLE, k);
      KeyIdIs(k);
      Holds(keys, k);
    }
  }

  lemma InsertsEntry(base: set<int>, order: seq<int>, i: int)
    requires 0 <= i < |order| && order[i] !in base
    ensures var e := Inserts(order)[i];
            e.WellShaped() && IdOf(e) == KeyId(TABLE, order[i]) && IdOf(e) in Diff.Changed(Holding(base), Holding(base + Keys(order))) &&
            IsRowDiff(SCHEMA, Holding(base), Holding(base + Keys(order)), IdOf(e), e)
  {
    var k := order[i];
    KeyIdIs(k);
    Holds(base, k);
    Holds(base + Keys(order), k);
    HoldingFits(base + Keys(order));
    assert KeyOf(TABLE.primaryKeys, [Int(k)]) == [Int(k)];
  }

  lemma InsertsIsDiff(base: set<int>, order: seq<int>)
    requires Keys(order) !! base && Distinct(order)
    ensures IsDiff(SCHEMA, Holding(base), Holding(base + Keys(order)), Inserts(order))
  {
    var es, b, m := Inserts(order), Holding(base), Holding(base + Keys(order));
    forall i | 0 <= i < |es|
      ensures es[i].WellShaped() && IdOf(es[i]) == KeyId(TABLE, order[i]) && IdOf(es[i]) in Diff.Changed(b, m) && IsRowDiff(SCHEMA, b, m, IdOf(es[i]), es[i])
    {
      assert order[i] in Keys(order);
      InsertsEntry(base, order, i);
    }
    forall i, j | 0 <= i < j < |es| ensures IdOf(es[i]) != IdOf(es[j]) {
      if KeyId(TABLE, order[i]) == KeyId(TABLE, order[j]) {
        KeyIdInjective(TABLE, order[i], order[j]);
      }
    }
    forall id | id in Diff.Changed(b, m) ensures Touches(es, id) {
      var k :| k in base + Keys(order) && id == KeyId(TABLE, k);
      Holds(base, k);
      Holds(base + Keys(order), k);
      assert k in order;
      var i :| 0 <= i < |order| && order[i] == k;
      assert IdOf(es[i]) == id;
    }
  }

  ghost predicate Distinct(order: seq<int>) {
    forall i, j | 0 <= i < j < |order| :: order[i] != order[j]
  }

  lemma InsertingIsKeyed(base: set<int>, theirs: seq<int>, ours: seq<int>)
    requires Keys(theirs) !! base && Distinct(theirs) && Keys(ours) !! base && Distinct(ours)
    ensures Inserting(base, theirs, ours).Keyed() && InsertsFirst(Inserts(ours))
    ensures TABLE.name in TableNames(Inserts(theirs)) <==> theirs != []
  {
    HoldingFits(base);
    HoldingFits(base + Keys(theirs));
    HoldingFits(base + Keys(ours));
    InsertsIsDiff(base, theirs);
    InsertsIsDiff(base, ours);
    KeyIdIs(0);
    if theirs != [] {
      assert Inserts(theirs)[0].table.name in TableNames(Inserts(theirs));
    }
  }

  lemma InsertingKeys(order: seq<int>)
    ensures Shaped(Inserts(order)) && KeyedIn(Inserts(order), TABLE.name)
    ensures InsKeys(TABLE.name, Inserts(order)) == Keys(order) && InfoOf(TABLE.name, Inserts(order)).inserted == Keys(order)
  {
    var es, t := Inserts(order), TABLE.name;
    KeyIdIs(0);
    forall i | 0 <= i < |es| ensures Pk(es[i]) == order[i] && order[i] in Keys(order) {
    }
    forall k ensures k in InfoOf(t, es).inserted <==> k in Keys(order) {
      InfoIff(t, es, k);
      if k in Keys(order) {
        var i :| 0 <= i < |order| && order[i] == k;
        assert EntryAt(es, i, t, Insert, k);
      }
    }
    forall k | k in Keys(order) ensures k in InsKeys(t, es) {
      var i :| 0 <= i < |order| && order[i] == k;
      assert Pk(es[i]) == k;
    }
  }

  /** Theirs inserted `theirs` into the table, and no other; we inserted `ours`. */
  ghost predicate InsertedOnly(d: Sides, theirs: set<int>, ours: set<int>) {
    && d.Keyed() && InsertsFirst(d.toOurs)
    && d.s == SCHEMA && TableNames(d.toTheirs) == {TABLE.name}
    && InfoOf(TABLE.name, d.toTheirs).inserted == theirs && InsKeys(TABLE.name, d.toOurs) == ours
  }

  lemma InsertingOnly(base: set<int>, theirs: seq<int>, ours: seq<int>)
    requires Keys(theirs) !! base && Distinct(theirs) && Keys(ours) !! base && Distinct(ours) && theirs != []
    ensures InsertedOnly(Inserting(base, theirs, ours), Keys(theirs), Keys(ours))
  {
    InsertingIsKeyed(base, theirs, ours);
    InsertingKeys(theirs);
    InsertingKeys(ours);
  }

  /** The numbers of our inserts when theirs inserted 4: renumbering starts at 5, and 4 takes it. */
  lemma FourIsTaken(ti: TableInfo, ins: set<int>)
    requires ti.inserted == {4} && 4 in ins
    ensures Start(ti) == 5 && FirstFree(ti, ins) == 6
    ensures BlockEnd(ti, ins) == if 5 in ins then 7 else 6
  {
    MaxKeyUnique({4}, 4);
    assert ins * ti.inserted == {4};
    assert Start(ti) == 5 && FirstFree(ti, ins) == 6;
    assert Displaced(ti, ins) == if 5 in ins then {5} else {};
  }

  // ----- A row of the base in the way -----

  lemma BlockTaken(p: Plan)
    requires p.Valid() && InsertedOnly(p.d, {4}, {4}) && KeyId(TABLE, 5) in p.d.theirs
    ensures !KeysFree(p)
  {
    FourIsTaken(InfoOf(TABLE.name, p.d.toTheirs), {4});
    assert TABLE.name in p.Info();
    TableRoom(p, TABLE.name);
  }

  lemma NotFreeFails(p: Plan, out: seq<Entry>, src: seq<nat>)
    requires p.Valid() && InsertsFirst(p.d.toOurs) && IsResult(p, out, src)
    ensures Applies(p.d, out) <==> KeysFree(p)
  {
    RebaseAppliesIff(p, out, src);
  }

  ghost function OneInsert(): Sides {
    Inserting({5}, [4], [4])
  }

  lemma OneInsertKeys()
    ensures InsertedOnly(OneInsert(), {4}, {4}) && KeyId(TABLE, 5) in OneInsert().theirs
  {
    InsertingOnly({5}, [4], [4]);
    assert Keys([4]) == {4};
    Holds({5} + Keys([4]), 5);
  }

  /** Base holds 5, both sides insert 4: ours is moved to 5 whatever the order, and theirs refuses it. */
  lemma RowInTheWay() returns (p: Plan, out: seq<Entry>, src: seq<nat>)
    ensures p.d == OneInsert() && IsResult(p, out, src)
    ensures forall q: Plan, result, from | q.d == OneInsert() && IsResult(q, result, from) :: !Applies(q.d, result)
  {
    OneInsertKeys();
    p := PlanOf(OneInsert(), SomeOrders(OneInsert()));
    out, src := SomeResult(p);
    forall q: Plan, result, from | q.d == OneInsert() && IsResult(q, result, from) ensures !Applies(q.d, result) {
      BlockTaken(q);
      NotFreeFails(q, result, from);
    }
  }

  // ----- An order in which two of ours collide -----

  lemma InfoNames(es: seq<Entry>)
    requires Shaped(es) && AllKeyed(es)
    ensures InfoFor(es).Keys == TableNames(es)
  {
  }

  lemma OnlyTable(p: Plan, t: Name)
    requires p.Keyed() && TableNames(p.d.toTheirs) == {t}
    ensures forall u | u in p.Info() :: u == t
  {
    InfoNames(p.d.toTheirs);
  }

  lemma EmptyBaseBounded(p: Plan)
    requires p.Keyed() && p.d.base == map[]
    ensures BaseKeysBounded(p)
  {
  }

  /** Ascending visits of the only table theirs touched, with an empty base. */
  lemma OnlyTableAscending(p: Plan, t: Name)
    requires p.Valid() && p.d.base == map[] && TableNames(p.d.toTheirs) == {t} && Ascending(p.orders(t))
    ensures KeysFree(p)
  {
    EmptyBaseBounded(p);
    OnlyTable(p, t);
    AscendingKeysFree(p);
  }

  lemma DescendingCollides(p: Plan)
    requires p.Valid() && InsertedOnly(p.d, {4}, {4, 5, 6}) && p.orders(TABLE.name) == [6, 5]
    ensures !KeysFree(p)
  {
    var t := TABLE.name;
    var ti := InfoOf(t, p.d.toTheirs);
    FirstPass(p.d, t);
    FourIsTaken(ti, {4, 5, 6});
    assert t in p.Info();
    EarlyVisitCollides(ti, {4, 5, 6}, OtherKeys(t, p.d.toOurs), MappingOf(t, ti, p.d.toOurs), p.orders(t));
  }

  ghost function ThreeInserts(): Sides {
    Inserting({}, [4], [4, 5, 6])
  }

  lemma KeysListed()
    ensures Keys([4]) == {4} && Keys([4, 5, 6]) == {4, 5, 6} && Distinct([4]) && Distinct([4, 5, 6])
    ensures Holding({}) == map[]
  {
  }

  lemma ThreeInsertsKeys()
    ensures InsertedOnly(ThreeInserts(), {4}, {4, 5, 6}) && ThreeInserts().base == map[]
  {
    KeysListed();
    InsertingOnly({}, [4], [4, 5, 6]);
  }

  lemma OrdersOfTwo(order: seq<int>)
    requires order == [5, 6] || order == [6, 5]
    ensures Enumerates(order, {5, 6})
  {
  }

  lemma TwoLeft()
    ensures {4, 5, 6} - {4} == {5, 6}
  {
  }

  lemma TwoUnmapped(d: Sides)
    requires InsertedOnly(d, {4}, {4, 5, 6})
    ensures MappingOf(TABLE.name, InfoOf(TABLE.name, d.toTheirs), d.toOurs).unmapped == {5, 6}
  {
    Unmapped(d, TABLE.name);
    TwoLeft();
  }

  lemma PlanFor(d: Sides, order: seq<int>) returns (p: Plan)
    requires InsertedOnly(d, {4}, {4, 5, 6}) && Enumerates(order, {5, 6})
    ensures p.d == d && p.Valid() && p.orders(TABLE.name) == order
  {
    TwoUnmapped(d);
    p := PlanVisiting(d, TABLE.name, order);
  }

  lemma FreeAlwaysApplies(p: Plan)
    requires p.Valid() && InsertsFirst(p.d.toOurs)
    ensures KeysFree(p) ==> forall out, src | IsResult(p, out, src) :: Applies(p.d, out)
    ensures !KeysFree(p) ==> forall out, src | IsResult(p, out, src) :: !Applies(p.d, out)
  {
    forall out, src | IsResult(p, out, src) ensures Applies(p.d, out) <==> KeysFree(p) {
      NotFreeFails(p, out, src);
    }
  }

  lemma FiveThenSix(p: Plan)
    requires p.Valid() && p.d.base == map[] && TableNames(p.d.toTheirs) == {TABLE.name} && p.orders(TABLE.name) == [5, 6]
    ensures KeysFree(p)
  {
    TwoAscending(p.orders(TABLE.name));
    OnlyTableAscending(p, TABLE.name);
  }

  lemma TwoAscending(order: seq<int>)
    requires order == [5, 6]
    ensures Ascending(order)
  {
  }

  lemma AscendingPlan(d: Sides) returns (p: Plan)
    requires InsertedOnly(d, {4}, {4, 5, 6}) && d.base == map[]
    ensures p.d == d && p.Valid() && p.orders(TABLE.name) == [5, 6] && KeysFree(p)
  {
    OrdersOfTwo([5, 6]);
    p := PlanFor(d, [5, 6]);
    FiveThenSix(p);
  }

  lemma DescendingPlan(d: Sides) returns (p: Plan)
    requires InsertedOnly(d, {4}, {4, 5, 6})
    ensures p.d == d && p.Valid() && p.orders(TABLE.name) == [6, 5] && !KeysFree(p)
  {
    OrdersOfTwo([6, 5]);
    p := PlanFor(d, [6, 5]);
    DescendingCollides(p);
  }

  /** Theirs inserts 4, ours 4, 5 and 6: ours of number 6 keeps it if visited before 5, which then takes it. */
  lemma OrderDecides() returns (ascending: Plan, descending: Plan)
    ensures ascending.d == ThreeInserts() && ascending.Valid() && ascending.orders(TABLE.name) == [5, 6]
    ensures descending.d == ThreeInserts() && descending.Valid() && descending.orders(TABLE.name) == [6, 5]
    ensures forall out, src | IsResult(ascending, out, src) :: Applies(ascending.d, out)
    ensures forall out, src | IsResult(descending, out, src) :: !Applies(descending.d, out)
    ensures (exists out, src :: IsResult(ascending, out, src)) && exists out, src :: IsResult(descending, out, src)
  {
    ThreeInsertsKeys();
    ascending := AscendingPlan(ThreeInserts());
    descending := DescendingPlan(ThreeInserts());
    FreeAlwaysApplies(ascending);
    FreeAlwaysApplies(descending);
    var up, upSrc := SomeResult(ascending);
    var down, downSrc := SomeResult(descending);
  }

  // ----- A row in the way that we deleted -----

  const MOVED := Entry(Insert, [], [Int(4)], TABLE)

  const REMOVED := Entry(Delete, [Int(5)], [], TABLE)

  /** Base holds 5; theirs inserts 4; we insert 4 and delete 5. */
  ghost function Deferring(): Sides {
    Sides(SCHEMA, Holding({5}), Holding({5} + Keys([4])), Holding({4}), Inserts([4]), [MOVED, REMOVED])
  }

  lemma RowOf(b: set<int>, m: set<int>, e: Entry, k: int)
    requires e.WellShaped() && e.KeyValues() == [Int(k)] && e.table == TABLE && e.op != Update
    requires (e.op == Insert && k !in b && k in m && e.oldValues == []) || (e.op == Delete && k in b && k !in m && e.newValues == [])
    ensures IdOf(e) == KeyId(TABLE, k) && IdOf(e) in Diff.Changed(Holding(b), Holding(m))
    ensures IsRowDiff(SCHEMA, Holding(b), Holding(m), IdOf(e), e)
  {
    KeyIdIs(k);
    Holds(b, k);
    Holds(m, k);
    HoldingFits(b);
    HoldingFits(m);
    assert KeyOf(TABLE.primaryKeys, [Int(k)]) == [Int(k)];
  }

  lemma DeferringIsDiff()
    ensures IsDiff(SCHEMA, Holding({5}), Holding({4}), [MOVED, REMOVED])
  {
    var es, b, m := [MOVED, REMOVED], Holding({5}), Holding({4});
    RowOf({5}, {4}, MOVED, 4);
    RowOf({5}, {4}, REMOVED, 5);
    KeyIdIs(4);
    KeyIdIs(5);
    forall id | id in Diff.Changed(b, m) ensures Touches(es, id) {
      var k :| k in {4, 5} && id == KeyId(TABLE, k);
      assert IdOf(es[if k == 4 then 0 else 1]) == id;
    }
  }

  lemma MixedKeyed()
    ensures InsertsFirst([MOVED, REMOVED]) && forall t :: KeyedIn([MOVED, REMOVED], t)
  {
    KeyIdIs(0);
    assert forall i | 0 <= i < 2 :: HasKey([MOVED, REMOVED][i].table);
  }

  lemma SidesKeyed(d: Sides)
    requires d.Valid() && (forall t :: KeyedIn(d.toTheirs, t)) && (forall t :: KeyedIn(d.toOurs, t))
    ensures d.Keyed()
  {
  }

  lemma DeferringValid()
    ensures Deferring().Valid()
  {
    HoldingFits({5});
    HoldingFits({5} + Keys([4]));
    HoldingFits({4});
    InsertsIsDiff({5}, [4]);
    DeferringIsDiff();
  }

  lemma DeferringKeyed()
    ensures Deferring().Keyed() && InsertsFirst(Deferring().toOurs) && TableNames(Deferring().toTheirs) == {TABLE.name}
  {
    InsertingIsKeyed({5}, [4], [4]);
    MixedKeyed();
    DeferringValid();
    SidesKeyed(Deferring());
  }

  lemma DeferringKeys()
    ensures Deferring().Keyed() && TABLE.name in Deferring().s
    ensures InfoOf(TABLE.name, Deferring().toTheirs).inserted == {4} && InsKeys(TABLE.name, Deferring().toOurs) == {4}
    ensures KeyId(TABLE, 5) in Deferring().theirs && KeyId(TABLE, 5) !in Deferring().ours
  {
    DeferringKeyed();
    InsertingKeys([4]);
    assert Keys([4]) == {4};
    MixedKeys();
    Holds({5} + Keys([4]), 5);
    Holds({4}, 5);
  }

  lemma MixedKeys()
    ensures Shaped([MOVED, REMOVED]) && KeyedIn([MOVED, REMOVED], TABLE.name)
    ensures InsKeys(TABLE.name, [MOVED, REMOVED]) == {4}
  {
    var es := [MOVED, REMOVED];
    KeyIdIs(0);
    assert Pk(es[0]) == 4 && es[0].op == Insert && es[1].op == Delete;
  }

  /** Table t alone was touched, both sides inserted 4, and theirs still has the row of 5 that we deleted. */
  ghost predicate FiveInTheWay(d: Sides, t: Name) {
    && d.Keyed() && t in d.s && TableNames(d.toTheirs) == {t}
    && InfoOf(t, d.toTheirs).inserted == {4} && InsKeys(t, d.toOurs) == {4}
    && KeyId(d.s[t], 5) in d.theirs && KeyId(d.s[t], 5) !in d.ours
  }

  lemma FiveIsClear(d: Sides, t: Name)
    requires FiveInTheWay(d, t)
    ensures HasClearRoom(d)
  {
    FourIsSafe(InfoOf(t, d.toTheirs));
    FourIsTaken(InfoOf(t, d.toTheirs), {4});
    BlockOfOne(d, t, 5);
    OneTableClear(d, t);
  }

  lemma BlockOfOne(d: Sides, t: Name, k: int)
    requires d.Keyed() && t in d.s && KeyId(d.s[t], k) !in d.ours
    requires Start(InfoOf(t, d.toTheirs)) == k && BlockEnd(InfoOf(t, d.toTheirs), InsKeys(t, d.toOurs)) == k + 1
    ensures BlockIsClear(d, t)
  {
    forall v | k <= v < k + 1 ensures KeyId(d.s[t], v) !in d.ours {
      assert v == k;
    }
  }

  lemma FourIsSafe(ti: TableInfo)
    requires ti.inserted == {4}
    ensures Safe(ti, {4})
  {
  }

  lemma OneTableClear(d: Sides, t: Name)
    requires d.Keyed() && t in d.s && TableNames(d.toTheirs) == {t}
    requires Safe(InfoOf(t, d.toTheirs), InsKeys(t, d.toOurs)) && BlockIsClear(d, t)
    ensures HasClearRoom(d)
  {
  }

  lemma FiveNotFree(p: Plan, t: Name)
    requires p.Valid() && FiveInTheWay(p.d, t)
    ensures !KeysFree(p)
  {
    FourIsTaken(InfoOf(t, p.d.toTheirs), {4});
    InfoNames(p.d.toTheirs);
    assert t in p.Info();
    TableRoom(p, t);
  }

  /** Our insert of 4 is moved to 5: theirs refuses it strictly in every order, yet the driver defers it until 5 is deleted. */
  lemma DeferredInsert(env: Env, x: Db)
    requires Open(env, SCHEMA) && DbOver(SCHEMA, x)
    ensures var d := Deferring();
            && AlwaysSucceeds(env, d, x)
            && forall p: Plan, out, src | p.d == d && IsResult(p, out, src) :: !Applies(d, out)
  {
    var d := Deferring();
    DeferringKeyed();
    DeferringKeys();
    FiveIsClear(d, TABLE.name);
    EveryVisitSucceedsIff(env, d, x);
    forall p: Plan, out, src | p.d == d && IsResult(p, out, src) ensures !Applies(d, out) {
      FiveNotFree(p, TABLE.name);
      NotFreeFails(p, out, src);
    }
  }
}
