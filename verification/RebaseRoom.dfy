/** Exactly which inputs rebase to a changeset that applies to theirs, however the unmapped inserts are visited. */
module RebaseRoom {
  import opened Values
  import opened Rows
  import opened Diff
  import opened KeyMapping
  import opened KeyRoom
  import opened RebaseRules
  import opened RebaseRows
  import opened RebaseKeys
  import opened RebaseMerge
  import opened RebaseApplies

  /** Theirs has no row at a number that renumbering our inserts of table t hands out. */
  ghost predicate BlockIsFree(d: Sides, t: Name)
    requires d.Keyed() && t in d.s
  {
    var ti, ins := InfoOf(t, d.toTheirs), InsKeys(t, d.toOurs);
    forall k | Start(ti) <= k < BlockEnd(ti, ins) :: KeyId(d.s[t], k) !in d.theirs
  }

  /** In every table theirs touched, renumbering takes no number of a kept insert of ours or of a row of theirs. */
  ghost predicate HasRoom(d: Sides)
    requires d.Keyed()
  {
    forall t | t in TableNames(d.toTheirs) && t in d.s ::
      Safe(InfoOf(t, d.toTheirs), InsKeys(t, d.toOurs)) && BlockIsFree(d, t)
  }

  /** What the first pass leaves for table t. */
  lemma FirstPass(d: Sides, t: Name)
    requires d.Keyed() && t in d.s
    ensures MapInv(InfoOf(t, d.toTheirs), InsKeys(t, d.toOurs), OtherKeys(t, d.toOurs), MappingOf(t, InfoOf(t, d.toTheirs), d.toOurs))
  {
    DiffKeysOnce(d.s, d.base, d.ours, d.toOurs, t);
    FirstPassKeepsInv(t, InfoOf(t, d.toTheirs), d.toOurs);
  }

  lemma Unmapped(d: Sides, t: Name)
    requires d.Keyed() && t in d.s
    ensures MappingOf(t, InfoOf(t, d.toTheirs), d.toOurs).unmapped == InsKeys(t, d.toOurs) - InfoOf(t, d.toTheirs).inserted
  {
    FirstPass(d, t);
  }

  /** With room every plan has free keys. */
  lemma RoomFreesKeys(p: Plan)
    requires p.Valid() && HasRoom(p.d)
    ensures KeysFree(p)
  {
    forall t | t in p.Info() && t in p.d.s
      ensures InjectiveOn(p.Cascade(t).ids, InsKeys(t, p.d.toOurs))
      ensures p.Cascade(t).free == BlockEnd(InfoOf(t, p.d.toTheirs), InsKeys(t, p.d.toOurs)) && BlockIsFree(p.d, t)
    {
      assert p.Info()[t] == InfoOf(t, p.d.toTheirs);
      TableRoom(p, t);
    }
  }

  lemma TableRoom(p: Plan, t: Name)
    requires p.Valid() && t in p.Info() && t in p.d.s
    requires Safe(InfoOf(t, p.d.toTheirs), InsKeys(t, p.d.toOurs))
    ensures InjectiveOn(p.Cascade(t).ids, InsKeys(t, p.d.toOurs))
    ensures p.Cascade(t).free == BlockEnd(InfoOf(t, p.d.toTheirs), InsKeys(t, p.d.toOurs))
  {
    FirstPass(p.d, t);
    SafeOrders(InfoOf(t, p.d.toTheirs), InsKeys(t, p.d.toOurs), OtherKeys(t, p.d.toOurs),
               MappingOf(t, InfoOf(t, p.d.toTheirs), p.d.toOurs), p.orders(t));
  }

  // ----- Every order is that of some plan, and every plan has an output -----

  ghost predicate OrdersFit(d: Sides, orders: Orders)
    requires d.Keyed()
  {
    forall t | t in InfoFor(d.toTheirs) :: Enumerates(orders(t), MappingOf(t, InfoOf(t, d.toTheirs), d.toOurs).unmapped)
  }

  ghost function PlanOf(d: Sides, orders: Orders): (p: Plan)
    requires d.Keyed() && OrdersFit(d, orders)
    ensures p.d == d && p.orders == orders && p.Valid()
  {
    var info := InfoFor(d.toTheirs);
    Plan(d, orders, map t | t in info :: CascadeOf(t, info[t], d.toOurs, orders).ids)
  }

  ghost function SomeOrders(d: Sides): (orders: Orders)
    requires d.Keyed()
    ensures OrdersFit(d, orders)
  {
    (t: Name) => SomeOrder(MappingOf(t, InfoOf(t, d.toTheirs), d.toOurs).unmapped)
  }

  /** A plan that visits the unmapped inserts of table t in the given order. */
  ghost function PlanVisiting(d: Sides, t: Name, order: seq<int>): (p: Plan)
    requires d.Keyed() && Enumerates(order, MappingOf(t, InfoOf(t, d.toTheirs), d.toOurs).unmapped)
    ensures p.d == d && p.orders(t) == order && p.Valid()
  {
    var rest := SomeOrders(d);
    PlanOf(d, (u: Name) => if u == t then order else rest(u))
  }

  /** The values present, in their order, with their positions. */
  lemma {:induction false} Present<T>(xs: seq<Option<T>>) returns (out: seq<T>, src: seq<nat>)
    ensures |out| == |src|
    ensures forall j | 0 <= j < |src| :: src[j] < |xs| && xs[src[j]] == Some(out[j])
    ensures forall j, k | 0 <= j < k < |src| :: src[j] < src[k]
    ensures forall i | 0 <= i < |xs| && xs[i].Some? :: i in src
    decreases |xs|
  {
    if xs == [] {
      out, src := [], [];
    } else {
      var n: nat := |xs| - 1;
      out, src := Present(xs[..n]);
      if xs[n].Some? {
        out, src := out + [xs[n].value], src + [n];
      }
    }
  }

  ghost predicate IsResult(p: Plan, out: seq<Entry>, src: seq<nat>) {
    p.Valid() && Rewritable(p) && IsOutput(p, out, src)
  }

  ghost predicate Applies(d: Sides, out: seq<Entry>) {
    Shaped(out) && ApplyAll(d.theirs, out).Some?
  }

  /** Whatever the order of the visits, the rebased changeset applies strictly to theirs. */
  ghost predicate AlwaysApplies(d: Sides) {
    forall p: Plan, out, src | p.d == d && IsResult(p, out, src) :: Applies(d, out)
  }

  lemma SomeResult(p: Plan) returns (out: seq<Entry>, src: seq<nat>)
    requires p.Valid()
    ensures IsResult(p, out, src)
  {
    OursRewritable(p);
    var xs := seq(|p.d.toOurs|, i requires 0 <= i < |p.d.toOurs| => Rewritten(p, i));
    out, src := Present(xs);
    forall j | 0 <= j < |src| ensures src[j] < |p.d.toOurs| && Rewritten(p, src[j]) == Some(out[j]) {
      assert xs[src[j]] == Some(out[j]);
    }
    forall i | 0 <= i < |p.d.toOurs| && Rewritten(p, i).Some? ensures i in src {
      assert xs[i].Some?;
    }
  }

  /** A plan whose keys are not free leads to a changeset that does not apply. */
  lemma BadPlanFails(p: Plan)
    requires p.Valid() && InsertsFirst(p.d.toOurs) && !KeysFree(p)
    ensures !AlwaysApplies(p.d)
  {
    var out, src := SomeResult(p);
    RebaseAppliesIff(p, out, src);
    assert IsResult(p, out, src) && !Applies(p.d, out);
  }

  lemma UnsafeTableFails(d: Sides, t: Name)
    requires d.Keyed() && InsertsFirst(d.toOurs) && t in TableNames(d.toTheirs) && t in d.s
    requires !Safe(InfoOf(t, d.toTheirs), InsKeys(t, d.toOurs))
    ensures !AlwaysApplies(d)
  {
    FirstPass(d, t);
    var order := UnsafeOrder(InfoOf(t, d.toTheirs), InsKeys(t, d.toOurs), OtherKeys(t, d.toOurs),
                             MappingOf(t, InfoOf(t, d.toTheirs), d.toOurs));
    var p := PlanVisiting(d, t, order);
    assert t in p.Info();
    BadPlanFails(p);
  }

  lemma TakenBlockFails(d: Sides, t: Name)
    requires d.Keyed() && InsertsFirst(d.toOurs) && t in TableNames(d.toTheirs) && t in d.s
    requires Safe(InfoOf(t, d.toTheirs), InsKeys(t, d.toOurs)) && !BlockIsFree(d, t)
    ensures !AlwaysApplies(d)
  {
    var p := PlanOf(d, SomeOrders(d));
    TableRoom(p, t);
    assert t in p.Info();
    BadPlanFails(p);
  }

  /**
   The condition a caller can check on the two changesets and theirs: the
   rebased changeset applies strictly to theirs, whatever the order of the
   visits, exactly when there is room.
   */
  lemma EveryVisitAppliesIff(d: Sides)
    requires d.Keyed() && InsertsFirst(d.toOurs)
    ensures AlwaysApplies(d) <==> HasRoom(d)
  {
    if HasRoom(d) {
      forall p: Plan, out, src | p.d == d && IsResult(p, out, src) ensures Applies(d, out)
      {
        RoomFreesKeys(p);
        RebaseAppliesIff(p, out, src);
      }
    } else {
      var t :| t in TableNames(d.toTheirs) && t in d.s &&
               !(Safe(InfoOf(t, d.toTheirs), InsKeys(t, d.toOurs)) && BlockIsFree(d, t));
      if Safe(InfoOf(t, d.toTheirs), InsKeys(t, d.toOurs)) {
        TakenBlockFails(d, t);
      } else {
        UnsafeTableFails(d, t);
      }
    }
  }
}
