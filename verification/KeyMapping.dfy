/**
 Renumbering our inserted rows around theirs (findMappingForNewChangeset,
 driver/rebase.go).  Everything here is about one table: the source keeps one
 such mapping per table name.
 */
module KeyMapping {
  import opened Values

  const INVALID_FID := -1

  /** What theirs did to one table, by key. */
  datatype TableInfo = TableInfo(inserted: set<int>, deleted: set<int>, updated: map<int, Row>)

  /** Old key to new key, our inserts not renumbered yet, and the next free key. */
  datatype Mapping = Mapping(ids: map<int, int>, unmapped: set<int>, free: int)

  ghost predicate IsMaxKey(keys: set<int>, m: int) {
    && m >= 0
    && (m == 0 || m in keys)
    && forall k | k in keys :: k <= m
  }

  lemma SomeKey(keys: set<int>)
    requires keys != {}
    ensures exists k :: k in keys
  {
    assert (forall k: int :: k !in keys) ==> keys == {};
  }

  /** The greatest key, or 0. */
  ghost function MaxKey(keys: set<int>): (m: int)
    ensures m >= 0 && (m == 0 || m in keys)
    ensures forall k | k in keys :: k <= m
  {
    if keys == {} then 0
    else
      SomeKey(keys);
      var k :| k in keys;
      var rest := MaxKey(keys - {k});
      assert forall l | l in keys :: l == k || l in keys - {k};
      if k > rest then k else rest
  }

  lemma MaxKeyUnique(keys: set<int>, m: int)
    requires IsMaxKey(keys, m)
    ensures m == MaxKey(keys)
  {
  }

  ghost function Start(ti: TableInfo): int {
    MaxKey(ti.inserted) + 1
  }

  ghost function NoMapping(ti: TableInfo): Mapping {
    Mapping(map[], {}, Start(ti))
  }

  // ----- First pass -----

  function Map(m: Mapping, ti: TableInfo, op: Op, pk: int): Mapping {
    match op
    case Insert =>
      if pk in ti.inserted then m.(ids := m.ids[pk := m.free], free := m.free + 1)
      else m.(unmapped := m.unmapped + {pk})
    case _ =>
      if pk in ti.deleted then m.(ids := m.ids[pk := INVALID_FID]) else m
  }

  /** `ins` are our inserted keys so far, `others` our updated and deleted ones. */
  ghost predicate MapInv(ti: TableInfo, ins: set<int>, others: set<int>, m: Mapping) {
    MapKnows(ti, ins, others, m) && m.free == Start(ti) + |ins * ti.inserted|
  }

  ghost predicate MapKnows(ti: TableInfo, ins: set<int>, others: set<int>, m: Mapping) {
    && m.free >= Start(ti)
    && ins !! others
    && m.unmapped == ins - ti.inserted
    && (forall k | k in m.ids && m.ids[k] == INVALID_FID :: k in others * ti.deleted)
    && (forall k | k in m.ids && m.ids[k] != INVALID_FID :: k in ins * ti.inserted && Start(ti) <= m.ids[k] < m.free)
    && (forall k | k in ins * ti.inserted :: k in m.ids)
    && (forall k | k in others * ti.deleted :: k in m.ids)
    && Block(m.ids, Start(ti), m.free)
  }

  /** New keys are distinct and fill [start, free). */
  ghost predicate Block(ids: map<int, int>, start: int, free: int) {
    && (forall k, l | k in ids && l in ids && k != l && ids[k] != INVALID_FID :: ids[k] != ids[l])
    && (forall v | start <= v < free :: HasValue(ids, v))
  }

  ghost predicate HasValue(ids: map<int, int>, v: int) {
    exists k :: k in ids && ids[k] == v
  }

  lemma BlockGrows(ids: map<int, int>, start: int, free: int, k: int)
    requires Block(ids, start, free) && start <= free && 0 <= free
    requires k !in ids && forall l | l in ids && ids[l] != INVALID_FID :: ids[l] < free
    ensures Block(ids[k := free], start, free + 1)
  {
    var ids' := ids[k := free];
    forall v | start <= v < free + 1 ensures HasValue(ids', v) {
      if v == free {
        assert ids'[k] == v;
      } else {
        assert HasValue(ids, v);
        var l :| l in ids && ids[l] == v;
        assert ids'[l] == v;
      }
    }
  }

  lemma BlockKept(ids: map<int, int>, start: int, free: int, k: int)
    requires Block(ids, start, free) && k !in ids
    ensures Block(ids[k := INVALID_FID], start, free)
  {
    var ids' := ids[k := INVALID_FID];
    forall v | start <= v < free ensures HasValue(ids', v) {
      assert HasValue(ids, v);
      var l :| l in ids && ids[l] == v;
      assert ids'[l] == v;
    }
  }

  lemma MapKeepsKnown(ti: TableInfo, ins: set<int>, others: set<int>, m: Mapping, op: Op, pk: int)
    requires MapKnows(ti, ins, others, m) && pk !in ins + others
    ensures op == Insert ==> MapKnows(ti, ins + {pk}, others, Map(m, ti, op, pk))
    ensures op != Insert ==> MapKnows(ti, ins, others + {pk}, Map(m, ti, op, pk))
  {
    if op == Insert && pk in ti.inserted {
      BlockGrows(m.ids, Start(ti), m.free, pk);
    }
    if op != Insert && pk in ti.deleted {
      BlockKept(m.ids, Start(ti), m.free, pk);
    }
  }

  lemma OneMoreCommon(ins: set<int>, theirs: set<int>, pk: int)
    requires pk !in ins
    ensures |(ins + {pk}) * theirs| == |ins * theirs| + if pk in theirs then 1 else 0
  {
    if pk in theirs {
      assert (ins + {pk}) * theirs == ins * theirs + {pk};
    } else {
      assert (ins + {pk}) * theirs == ins * theirs;
    }
  }

  lemma MapKeepsInv(ti: TableInfo, ins: set<int>, others: set<int>, m: Mapping, op: Op, pk: int)
    requires MapInv(ti, ins, others, m) && pk !in ins + others
    ensures op == Insert ==> MapInv(ti, ins + {pk}, others, Map(m, ti, op, pk))
    ensures op != Insert ==> MapInv(ti, ins, others + {pk}, Map(m, ti, op, pk))
  {
    MapKeepsKnown(ti, ins, others, m, op, pk);
    OneMoreCommon(ins, ti.inserted, pk);
  }

  // ----- Last loop -----

  /** State of the cascade: new keys in use grow as inserts are renumbered. */
  datatype Cascade = Cascade(ids: map<int, int>, free: int, used: set<int>)

  function UsedKeys(ids: map<int, int>): set<int> {
    set k | k in ids && ids[k] != INVALID_FID :: ids[k]
  }

  function Visit(c: Cascade, pk: int): Cascade {
    if pk in c.used then Cascade(c.ids[pk := c.free], c.free + 1, c.used + {c.free}) else c
  }

  /** The keys in `order` visited one after the other. */
  function VisitAll(m: Mapping, order: seq<int>): Cascade {
    if order == [] then Cascade(m.ids, m.free, UsedKeys(m.ids))
    else Visit(VisitAll(m, order[..|order| - 1]), order[|order| - 1])
  }

  /** A visiting order of a set, each key once. */
  ghost predicate Enumerates(order: seq<int>, keys: set<int>) {
    && (forall i, j | 0 <= i < j < |order| :: order[i] != order[j])
    && (forall k :: k in keys <==> k in order)
  }

  /** A renumbered key never collides with what theirs inserted: all new keys lie from Start up. */
  ghost predicate CascadeInv(ti: TableInfo, ins: set<int>, others: set<int>, visited: seq<int>, c: Cascade) {
    && c.free >= Start(ti)
    && (forall k | k in c.ids && c.ids[k] == INVALID_FID :: k in others * ti.deleted)
    && (forall k | k in c.ids && c.ids[k] != INVALID_FID ::
          (k in ins * ti.inserted || (k in visited && k in ins)) && Start(ti) <= c.ids[k] < c.free)
    && (forall k | k in ins * ti.inserted :: k in c.ids)
    && (forall k | k in others * ti.deleted :: k in c.ids)
    && c.used == UsedKeys(c.ids)
    && Block(c.ids, Start(ti), c.free)
  }

  lemma UsedIsBlock(ids: map<int, int>, start: int, free: int)
    requires Block(ids, start, free) && 0 <= start
    requires forall k | k in ids && ids[k] != INVALID_FID :: start <= ids[k] < free
    ensures forall v :: v in UsedKeys(ids) <==> start <= v < free
  {
    forall v | start <= v < free ensures v in UsedKeys(ids) {
      assert HasValue(ids, v);
      var l :| l in ids && ids[l] == v;
    }
  }

  lemma {:induction false} CascadeKeepsInv(ti: TableInfo, ins: set<int>, others: set<int>, m: Mapping, order: seq<int>)
    requires MapInv(ti, ins, others, m)
    requires forall i, j | 0 <= i < j < |order| :: order[i] != order[j]
    requires forall k | k in order :: k in m.unmapped
    ensures CascadeInv(ti, ins, others, order, VisitAll(m, order))
    decreases |order|
  {
    if order != [] {
      var init, pk := order[..|order| - 1], order[|order| - 1];
      assert order == init + [pk];
      CascadeKeepsInv(ti, ins, others, m, init);
      var c := VisitAll(m, init);
      assert pk in order && forall k | k in init :: k in order;
      assert pk !in init && pk !in c.ids;
      if pk in c.used {
        BlockGrows(c.ids, Start(ti), c.free, pk);
        UsedGrows(c.ids, pk, c.free);
      }
    }
  }

  lemma UsedGrows(ids: map<int, int>, k: int, free: int)
    requires k !in ids && free != INVALID_FID
    ensures UsedKeys(ids[k := free]) == UsedKeys(ids) + {free}
  {
    var ids' := ids[k := free];
    forall v | v in UsedKeys(ids) + {free} ensures v in UsedKeys(ids') {
      if v == free {
        assert ids'[k] == v;
      } else {
        var l :| l in ids && ids[l] == v && v != INVALID_FID;
        assert ids'[l] == v;
      }
    }
  }

  // ----- The final keys of our inserted rows -----

  function NewKey(ids: map<int, int>, pk: int): int {
    if pk in ids then ids[pk] else pk
  }

  ghost predicate InjectiveOn(ids: map<int, int>, keys: set<int>) {
    forall k, l | k in keys && l in keys && k != l :: NewKey(ids, k) != NewKey(ids, l)
  }

  /** A kept key lies in the block handed out to renumbered ones. */
  ghost predicate KeptInBlock(ti: TableInfo, ins: set<int>, c: Cascade, k: int) {
    k in ins && k !in c.ids && Start(ti) <= k < c.free
  }

  /** For any order, two of our inserts end up with one key exactly when a kept key lies in the block of new keys. */
  lemma CollidesIffKeptInBlock(ti: TableInfo, ins: set<int>, others: set<int>, visited: seq<int>, c: Cascade)
    requires CascadeInv(ti, ins, others, visited, c) && ins !! others
    ensures !InjectiveOn(c.ids, ins) <==> exists k :: KeptInBlock(ti, ins, c, k)
  {
    if k :| KeptInBlock(ti, ins, c, k) {
      assert HasValue(c.ids, k);
      var l :| l in c.ids && c.ids[l] == k;
      assert l in ins && NewKey(c.ids, l) == NewKey(c.ids, k);
    }
    if !InjectiveOn(c.ids, ins) {
      var k, l :| k in ins && l in ins && k != l && NewKey(c.ids, k) == NewKey(c.ids, l);
      assert KeptInBlock(ti, ins, c, k) || KeptInBlock(ti, ins, c, l);
    }
  }

  /** Each kept key of the block was visited before the key that was renumbered to it. */
  ghost predicate TakenLater(order: seq<int>, c: Cascade, a: nat) {
    exists b :: a < b < |order| && order[b] in c.ids && c.ids[order[b]] == order[a]
  }

  lemma {:induction false} KeptWasVisitedFirst(ti: TableInfo, ins: set<int>, others: set<int>, m: Mapping, order: seq<int>)
    requires MapInv(ti, ins, others, m)
    requires forall i, j | 0 <= i < j < |order| :: order[i] != order[j]
    requires forall k | k in order :: k in m.unmapped
    ensures var c := VisitAll(m, order);
            forall a | 0 <= a < |order| && order[a] !in c.ids && Start(ti) <= order[a] < c.free :: TakenLater(order, c, a)
    decreases |order|
  {
    if order != [] {
      var n := |order| - 1;
      var init, pk := order[..n], order[n];
      assert order == init + [pk];
      KeptWasVisitedFirst(ti, ins, others, m, init);
      CascadeKeepsInv(ti, ins, others, m, init);
      var c, d := VisitAll(m, init), VisitAll(m, order);
      UsedIsBlock(c.ids, Start(ti), c.free);
      assert pk !in init;
      assert pk in m.unmapped && pk !in c.ids;
      forall a | 0 <= a < |order| && order[a] !in d.ids && Start(ti) <= order[a] < d.free ensures TakenLater(order, d, a) {
        if order[a] < c.free {
          assert a < n && order[a] == init[a];
          assert TakenLater(init, c, a);
          var b :| a < b < |init| && init[b] in c.ids && c.ids[init[b]] == init[a];
          assert order[b] in d.ids && d.ids[order[b]] == order[a];
        } else {
          assert d.ids[order[n]] == order[a];
        }
      }
    }
  }

  /**
   For any visiting order: our inserts get distinct keys unless some unmapped
   insert was visited, and kept, before the renumbering that takes its number.
   */
  lemma CollidesIffVisitedFirst(ti: TableInfo, ins: set<int>, others: set<int>, m: Mapping, order: seq<int>)
    requires MapInv(ti, ins, others, m) && Enumerates(order, m.unmapped)
    ensures var c := VisitAll(m, order);
            !InjectiveOn(c.ids, ins) <==> exists a :: 0 <= a < |order| && order[a] !in c.ids && TakenLater(order, c, a)
  {
    var c := VisitAll(m, order);
    CascadeKeepsInv(ti, ins, others, m, order);
    KeptWasVisitedFirst(ti, ins, others, m, order);
    CollidesIffKeptInBlock(ti, ins, others, order, c);
    if k :| KeptInBlock(ti, ins, c, k) {
      assert k in m.unmapped && k in order;
      var a :| 0 <= a < |order| && order[a] == k;
      assert TakenLater(order, c, a);
    }
    if a :| 0 <= a < |order| && order[a] !in c.ids && TakenLater(order, c, a) {
      var b :| a < b < |order| && order[b] in c.ids && c.ids[order[b]] == order[a];
      assert order[a] in order && order[b] in order;
      assert KeptInBlock(ti, ins, c, order[a]) by {
        assert order[b] in ins;
      }
    }
  }

  ghost predicate Ascending(order: seq<int>) {
    forall i, j | 0 <= i < j < |order| :: order[i] < order[j]
  }

  lemma {:induction false} AscendingKeepsOutside(ti: TableInfo, ins: set<int>, others: set<int>, m: Mapping, order: seq<int>)
    requires MapInv(ti, ins, others, m) && Ascending(order)
    requires forall k | k in order :: k in m.unmapped
    ensures var c := VisitAll(m, order);
            forall k | k in order && k !in c.ids :: k < Start(ti) || c.free <= k
    decreases |order|
  {
    if order != [] {
      var init, pk := order[..|order| - 1], order[|order| - 1];
      assert order == init + [pk];
      AscendingKeepsOutside(ti, ins, others, m, init);
      CascadeKeepsInv(ti, ins, others, m, init);
      var c := VisitAll(m, init);
      UsedIsBlock(c.ids, Start(ti), c.free);
      assert forall k | k in init :: k < pk;
    }
  }

  /**
   What the final key map of one table promises for any visiting order: our
   inserts avoid theirs, are renumbered only into the block, and only if taken
   or in the block; our other keys map to the invalid key exactly when theirs
   deleted the row.
   */
  ghost predicate SoundKeys(ti: TableInfo, ins: set<int>, others: set<int>, ids: map<int, int>, free: int) {
    && (forall k | k in ins ::
          NewKey(ids, k) !in ti.inserted && (NewKey(ids, k) == k || (Start(ti) <= NewKey(ids, k) < free)))
    && (forall k | k in ins - ti.inserted && (k < Start(ti) || free <= k) :: NewKey(ids, k) == k)
    && (forall k | k in others :: if k in ti.deleted then k in ids && ids[k] == INVALID_FID else k !in ids)
  }

  lemma AnyOrderIsSound(ti: TableInfo, ins: set<int>, others: set<int>, m: Mapping, order: seq<int>)
    requires MapInv(ti, ins, others, m) && Enumerates(order, m.unmapped)
    ensures var c := VisitAll(m, order);
            SoundKeys(ti, ins, others, c.ids, c.free) && Block(c.ids, Start(ti), c.free)
  {
    CascadeKeepsInv(ti, ins, others, m, order);
    CascadeOnlyInside(ti, ins, others, m, order);
  }

  lemma {:induction false} CascadeOnlyInside(ti: TableInfo, ins: set<int>, others: set<int>, m: Mapping, order: seq<int>)
    requires MapInv(ti, ins, others, m)
    requires forall i, j | 0 <= i < j < |order| :: order[i] != order[j]
    requires forall k | k in order :: k in m.unmapped
    ensures var c := VisitAll(m, order);
            forall k | k in m.unmapped && k in c.ids :: Start(ti) <= k < c.free
    decreases |order|
  {
    if order != [] {
      var init, pk := order[..|order| - 1], order[|order| - 1];
      assert order == init + [pk];
      CascadeOnlyInside(ti, ins, others, m, init);
      CascadeKeepsInv(ti, ins, others, m, init);
      var c := VisitAll(m, init);
      UsedIsBlock(c.ids, Start(ti), c.free);
    }
  }

  /** In ascending order no two of our inserts end up with one key. */
  lemma AscendingIsInjective(ti: TableInfo, ins: set<int>, others: set<int>, m: Mapping, order: seq<int>)
    requires MapInv(ti, ins, others, m) && Enumerates(order, m.unmapped) && Ascending(order)
    ensures InjectiveOn(VisitAll(m, order).ids, ins)
  {
    var c := VisitAll(m, order);
    CascadeKeepsInv(ti, ins, others, m, order);
    AscendingKeepsOutside(ti, ins, others, m, order);
    CollidesIffKeptInBlock(ti, ins, others, order, c);
    forall k ensures !KeptInBlock(ti, ins, c, k) {
      if k in ins && k !in c.ids {
        assert k in m.unmapped && k in order;
      }
    }
  }
}
