/**
 The numbers handed out when our inserts are renumbered, told from the two
 changesets alone: which tables keep our rows apart however the loop over the
 unmapped inserts visits them.
 */
module KeyRoom {
  import opened Values
  import opened KeyMapping

  /** The first number left after our inserts that share a number with theirs are renumbered. */
  ghost function FirstFree(ti: TableInfo, ins: set<int>): int {
    Start(ti) + |ins * ti.inserted|
  }

  /** Our other inserts whose number was given away by then. */
  ghost function Displaced(ti: TableInfo, ins: set<int>): set<int> {
    set k | k in ins - ti.inserted && Start(ti) <= k < FirstFree(ti, ins)
  }

  /** Where the block of new keys ends when those are renumbered too. */
  ghost function BlockEnd(ti: TableInfo, ins: set<int>): int {
    FirstFree(ti, ins) + |Displaced(ti, ins)|
  }

  /** No other insert of ours has a number that renumbering the displaced ones takes. */
  ghost predicate Safe(ti: TableInfo, ins: set<int>) {
    forall k | k in ins - ti.inserted :: k < FirstFree(ti, ins) || BlockEnd(ti, ins) <= k
  }

  /** The keys of `order` given a new number. */
  ghost function Renumbered(m: Mapping, order: seq<int>): set<int> {
    set k | k in order && k in VisitAll(m, order).ids
  }

  ghost predicate Visits(m: Mapping, order: seq<int>) {
    && (forall i, j | 0 <= i < j < |order| :: order[i] != order[j])
    && (forall k | k in order :: k in m.unmapped)
  }

  /** One more visit: a key below the next free number, and not below Start, is renumbered. */
  lemma VisitRenumbers(ti: TableInfo, ins: set<int>, others: set<int>, m: Mapping, init: seq<int>, pk: int)
    requires MapInv(ti, ins, others, m) && Visits(m, init + [pk])
    ensures var c, d := VisitAll(m, init), VisitAll(m, init + [pk]);
            if Start(ti) <= pk < c.free
            then d.free == c.free + 1 && Renumbered(m, init + [pk]) == Renumbered(m, init) + {pk} && pk !in Renumbered(m, init)
            else d.free == c.free && Renumbered(m, init + [pk]) == Renumbered(m, init)
  {
    VisitsSnoc(m, init, pk);
    UsedSoFar(ti, ins, others, m, init, pk);
    VisitChanges(m, init, pk);
  }

  /** Before its visit a key has no new number, and it is taken exactly when it lies in the block. */
  lemma UsedSoFar(ti: TableInfo, ins: set<int>, others: set<int>, m: Mapping, init: seq<int>, pk: int)
    requires MapInv(ti, ins, others, m) && Visits(m, init) && pk !in init && pk in m.unmapped
    ensures var c := VisitAll(m, init);
            pk !in c.ids && (pk in c.used <==> Start(ti) <= pk < c.free)
  {
    CascadeKeepsInv(ti, ins, others, m, init);
    UsedIsBlock(VisitAll(m, init).ids, Start(ti), VisitAll(m, init).free);
  }

  lemma VisitsSnoc(m: Mapping, init: seq<int>, pk: int)
    requires Visits(m, init + [pk])
    ensures Visits(m, init) && pk !in init && pk in m.unmapped
    ensures VisitAll(m, init + [pk]) == Visit(VisitAll(m, init), pk)
  {
    var order := init + [pk];
    assert order[..|order| - 1] == init && order[|init|] == pk;
    assert forall i | 0 <= i < |init| :: order[i] == init[i];
    assert pk in order && forall k | k in init :: k in order;
  }

  /** What the visit of a key not mapped yet does to the set of renumbered keys. */
  lemma VisitChanges(m: Mapping, init: seq<int>, pk: int)
    requires pk !in init && pk !in VisitAll(m, init).ids
    requires VisitAll(m, init + [pk]) == Visit(VisitAll(m, init), pk)
    ensures var c, d := VisitAll(m, init), VisitAll(m, init + [pk]);
            if pk in c.used
            then d.free == c.free + 1 && Renumbered(m, init + [pk]) == Renumbered(m, init) + {pk} && pk !in Renumbered(m, init)
            else d.free == c.free && Renumbered(m, init + [pk]) == Renumbered(m, init)
  {
    forall k ensures k in init + [pk] <==> k in init || k == pk {
    }
  }

  /** Every number handed out after the first pass went to one renumbered key. */
  lemma {:induction false} FreeCounts(ti: TableInfo, ins: set<int>, others: set<int>, m: Mapping, order: seq<int>)
    requires MapInv(ti, ins, others, m) && Visits(m, order)
    ensures VisitAll(m, order).free == m.free + |Renumbered(m, order)|
    decreases |order|
  {
    if order != [] {
      var init, pk := order[..|order| - 1], order[|order| - 1];
      assert order == init + [pk];
      FreeCounts(ti, ins, others, m, init);
      VisitRenumbers(ti, ins, others, m, init, pk);
    } else {
      assert Renumbered(m, order) == {};
    }
  }

  /** A displaced key is renumbered whenever it is visited. */
  lemma {:induction false} DisplacedMove(ti: TableInfo, ins: set<int>, others: set<int>, m: Mapping, order: seq<int>)
    requires MapInv(ti, ins, others, m) && Visits(m, order)
    ensures forall k | k in order && k in Displaced(ti, ins) :: k in Renumbered(m, order)
    decreases |order|
  {
    if order != [] {
      var init, pk := order[..|order| - 1], order[|order| - 1];
      assert order == init + [pk];
      DisplacedMove(ti, ins, others, m, init);
      VisitRenumbers(ti, ins, others, m, init, pk);
      FreeCounts(ti, ins, others, m, init);
    }
  }

  /** On a safe table only displaced keys are ever renumbered. */
  lemma {:induction false} OnlyDisplacedMove(ti: TableInfo, ins: set<int>, others: set<int>, m: Mapping, order: seq<int>)
    requires MapInv(ti, ins, others, m) && Visits(m, order) && Safe(ti, ins)
    ensures Renumbered(m, order) <= Displaced(ti, ins)
    ensures VisitAll(m, order).free <= BlockEnd(ti, ins)
    decreases |order|
  {
    if order != [] {
      var init, pk := order[..|order| - 1], order[|order| - 1];
      assert order == init + [pk] && pk in order;
      OnlyDisplacedMove(ti, ins, others, m, init);
      VisitRenumbers(ti, ins, others, m, init, pk);
    }
    FreeCounts(ti, ins, others, m, order);
    SubsetSize(Renumbered(m, order), Displaced(ti, ins));
  }

  /** A key at or above the next free number is kept when it is visited first. */
  lemma {:induction false} FirstKept(ti: TableInfo, ins: set<int>, others: set<int>, m: Mapping, order: seq<int>)
    requires MapInv(ti, ins, others, m) && Visits(m, order) && order != [] && m.free <= order[0]
    ensures order[0] !in VisitAll(m, order).ids
    decreases |order|
  {
    var init, pk := order[..|order| - 1], order[|order| - 1];
    assert order == init + [pk];
    if init == [] {
      assert VisitAll(m, init) == Cascade(m.ids, m.free, UsedKeys(m.ids));
      UsedIsBlock(m.ids, Start(ti), m.free);
      assert pk in order && pk in m.unmapped;
    } else {
      FirstKept(ti, ins, others, m, init);
    }
  }

  /** Some visiting order of a set. */
  ghost function SomeOrder(keys: set<int>): (order: seq<int>)
    ensures Enumerates(order, keys)
  {
    if keys == {} then []
    else
      SomeKey(keys);
      var k :| k in keys;
      [k] + SomeOrder(keys - {k})
  }

  /** A safe table: any order renumbers exactly the displaced keys, and no two of our inserts share a number. */
  lemma SafeOrders(ti: TableInfo, ins: set<int>, others: set<int>, m: Mapping, order: seq<int>)
    requires MapInv(ti, ins, others, m) && Enumerates(order, m.unmapped) && Safe(ti, ins)
    ensures var c := VisitAll(m, order);
            InjectiveOn(c.ids, ins) && Renumbered(m, order) == Displaced(ti, ins) && c.free == BlockEnd(ti, ins)
  {
    OnlyDisplacedMove(ti, ins, others, m, order);
    DisplacedMove(ti, ins, others, m, order);
    FreeCounts(ti, ins, others, m, order);
    assert Renumbered(m, order) == Displaced(ti, ins);
    CascadeKeepsInv(ti, ins, others, m, order);
    CollidesIffKeptInBlock(ti, ins, others, order, VisitAll(m, order));
    forall k | k in ins && k !in VisitAll(m, order).ids ensures k < Start(ti) || VisitAll(m, order).free <= k {
      assert k in m.unmapped && k in order;
    }
  }

  /** Visited first, a key in the way is kept, and its number is handed out all the same. */
  lemma EarlyVisitCollides(ti: TableInfo, ins: set<int>, others: set<int>, m: Mapping, order: seq<int>)
    requires MapInv(ti, ins, others, m) && Enumerates(order, m.unmapped)
    requires order != [] && FirstFree(ti, ins) <= order[0] < BlockEnd(ti, ins)
    ensures !InjectiveOn(VisitAll(m, order).ids, ins)
  {
    FirstKept(ti, ins, others, m, order);
    DisplacedMove(ti, ins, others, m, order);
    FreeCounts(ti, ins, others, m, order);
    SubsetSize(Displaced(ti, ins), Renumbered(m, order));
    CascadeKeepsInv(ti, ins, others, m, order);
    CollidesIffKeptInBlock(ti, ins, others, order, VisitAll(m, order));
    assert order[0] in m.unmapped;
    assert KeptInBlock(ti, ins, VisitAll(m, order), order[0]);
  }

  lemma UnsafeOrder(ti: TableInfo, ins: set<int>, others: set<int>, m: Mapping) returns (order: seq<int>)
    requires MapInv(ti, ins, others, m) && !Safe(ti, ins)
    ensures Enumerates(order, m.unmapped) && !InjectiveOn(VisitAll(m, order).ids, ins)
  {
    var k :| k in m.unmapped && FirstFree(ti, ins) <= k < BlockEnd(ti, ins);
    order := [k] + SomeOrder(m.unmapped - {k});
    EarlyVisitCollides(ti, ins, others, m, order);
  }

  /** Our inserts get distinct keys whatever the order exactly when the table is safe, and then all orders take one block. */
  lemma EveryOrderDistinctIff(ti: TableInfo, ins: set<int>, others: set<int>, m: Mapping)
    requires MapInv(ti, ins, others, m)
    ensures (forall order | Enumerates(order, m.unmapped) :: InjectiveOn(VisitAll(m, order).ids, ins)) <==> Safe(ti, ins)
    ensures Safe(ti, ins) ==> forall order | Enumerates(order, m.unmapped) :: VisitAll(m, order).free == BlockEnd(ti, ins)
  {
    if Safe(ti, ins) {
      forall order | Enumerates(order, m.unmapped)
        ensures InjectiveOn(VisitAll(m, order).ids, ins) && VisitAll(m, order).free == BlockEnd(ti, ins)
      {
        SafeOrders(ti, ins, others, m, order);
      }
    } else {
      var order := UnsafeOrder(ti, ins, others, m);
    }
  }
}
