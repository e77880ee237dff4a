/** Exactly when the driver applies the rebased changeset to theirs, and what it then leaves. */
module DriverMerge {
  import opened Values
  import opened Rows
  import opened Diff
  import opened KeyMapping
  import opened KeyRoom
  import opened RebaseRules
  import opened RebaseRows
  import opened RebaseKeys
  import opened RebaseMerge
  import opened RebaseApplies
  import opened RebaseRoom
  import opened Apply
  import opened ApplySkips
  import opened ApplyRows

  /** New keys of tracked tables are distinct, and one that theirs has is the key of a row we deleted. */
  ghost predicate KeysClear(p: Plan)
    requires p.Keyed()
  {
    forall t | t in p.Info() && t in p.d.s && !SkipGpkgTable(t) :: TableClear(p, t)
  }

  ghost predicate TableClear(p: Plan, t: Name)
    requires p.Keyed() && t in p.d.s
  {
    && InjectiveOn(p.Cascade(t).ids, InsKeys(t, p.d.toOurs))
    && forall k | Start(InfoOf(t, p.d.toTheirs)) <= k < p.Cascade(t).free ::
         KeyId(p.d.s[t], k) in p.d.theirs ==> KeyId(p.d.s[t], k) !in p.d.ours
  }

  lemma FreeIsClear(p: Plan)
    requires p.Keyed() && KeysFree(p)
    ensures KeysClear(p)
  {
  }

  // ----- The output meets the driver's conditions -----

  lemma ChangeMatches(p: Plan, out: seq<Entry>, src: seq<nat>, x: Db, j: int)
    requires IsResult(p, out, src) && 0 <= j < |out| && IsChange(out[j])
    ensures out[j].WellShaped() && RowStep(out[j], Get(Beside(x, p.d.theirs), IdOf(out[j]))).Some?
    ensures p.d.toOurs[src[j]].WellShaped() && IdOf(out[j]) == IdOf(p.d.toOurs[src[j]])
  {
    OutputEntry(p, out, src, j);
    ChangeIsMerged(p, src[j]);
  }

  lemma InsertFits(p: Plan, out: seq<Entry>, src: seq<nat>, j: int)
    requires IsResult(p, out, src) && 0 <= j < |out| && out[j].op == Insert
    ensures out[j].WellShaped() && KeyDefined(out[j].table.primaryKeys, out[j].newValues)
  {
    OutputEntry(p, out, src, j);
    InsertIsMoved(p, src[j]);
  }

  lemma OutputMatches(p: Plan, out: seq<Entry>, src: seq<nat>, x: Db)
    requires IsResult(p, out, src)
    ensures Fits(p.d.s, out) && ChangesMatch(Beside(x, p.d.theirs), out) && KeyedInserts(out)
  {
    OutputFits(p, out, src);
    forall j | 0 <= j < |out| && IsChange(out[j]) ensures RowStep(out[j], Get(Beside(x, p.d.theirs), IdOf(out[j]))).Some? {
      ChangeMatches(p, out, src, x, j);
    }
    forall j, k | 0 <= j < k < |out| && IsChange(out[j]) && IsChange(out[k]) ensures IdOf(out[j]) != IdOf(out[k]) {
      ChangeMatches(p, out, src, x, j);
      ChangeMatches(p, out, src, x, k);
      assert src[j] != src[k];
    }
    forall e | e in out && e.op == Insert ensures KeyDefined(e.table.primaryKeys, e.newValues) {
      var j :| 0 <= j < |out| && out[j] == e;
      InsertFits(p, out, src, j);
    }
  }

  // ----- Clear keys balance the output -----

  /** Our i-th and j-th inserts go to different rows. */
  lemma ClearInsertsApart(p: Plan, i: int, j: int)
    requires p.Valid() && KeysClear(p) && 0 <= i < |p.d.toOurs| && 0 <= j < |p.d.toOurs| && i != j
    requires IsInsert(p.d.toOurs[i]) && IsInsert(p.d.toOurs[j])
    ensures p.d.toOurs[i].WellShaped() && HasKey(p.d.toOurs[i].table) && p.d.toOurs[j].WellShaped() && HasKey(p.d.toOurs[j].table)
    ensures TargetId(p, i) != TargetId(p, j)
  {
    OurEntry(p, i);
    OurEntry(p, j);
    if p.d.toOurs[i].table.name == p.d.toOurs[j].table.name {
      ClearNumbersApart(p, i, j);
      if TargetId(p, i) == TargetId(p, j) {
        KeyIdInjective(p.d.toOurs[i].table, NewNumber(p, i), NewNumber(p, j));
      }
    }
  }

  lemma ClearNumbersApart(p: Plan, i: int, j: int)
    requires p.Valid() && KeysClear(p) && 0 <= i < |p.d.toOurs| && 0 <= j < |p.d.toOurs| && i != j
    requires IsInsert(p.d.toOurs[i]) && IsInsert(p.d.toOurs[j])
    requires p.d.toOurs[i].table.name == p.d.toOurs[j].table.name
    ensures p.d.toOurs[i].WellShaped() && HasKey(p.d.toOurs[i].table) && p.d.toOurs[j].WellShaped() && HasKey(p.d.toOurs[j].table)
    ensures NewNumber(p, i) != NewNumber(p, j)
  {
    var t := p.d.toOurs[i].table.name;
    OurEntry(p, i);
    OurEntry(p, j);
    DiffKeysOnce(p.d.s, p.d.base, p.d.ours, p.d.toOurs, t);
    if t in p.Info() {
      InsertKey(p, i);
      InsertKey(p, j);
      assert TableClear(p, t);
    }
  }

  /** An insert goes to a row of theirs only where we deleted that row. */
  lemma TakenWasDeleted(p: Plan, i: int)
    requires p.Valid() && KeysClear(p) && 0 <= i < |p.d.toOurs| && IsInsert(p.d.toOurs[i])
    ensures p.d.toOurs[i].WellShaped() && HasKey(p.d.toOurs[i].table)
    ensures TargetId(p, i) in p.d.theirs ==> TargetId(p, i) in p.d.base && TargetId(p, i) !in p.d.ours
  {
    var e := p.d.toOurs[i];
    var t := e.table.name;
    OurEntry(p, i);
    if t in p.Info() {
      InsertKey(p, i);
      InfoKnows(p.d, t, NewNumber(p, i));
      assert TableClear(p, t);
    } else {
      UntouchedTable(p.d, IdOf(e));
    }
  }

  /** Our deletion of a row theirs still has is in the output. */
  lemma DeletionListed(p: Plan, out: seq<Entry>, src: seq<nat>, id: RowId) returns (j: int)
    requires IsResult(p, out, src) && id in p.d.base && id in p.d.theirs && id !in p.d.ours
    ensures 0 <= j < |out| && out[j].WellShaped() && Names(out[j], Delete, id)
  {
    assert id in Diff.Changed(p.d.base, p.d.ours) && Touches(p.d.toOurs, id);
    var i :| 0 <= i < |p.d.toOurs| && IdOf(p.d.toOurs[i]) == id;
    OurEntry(p, i);
    ChangeIsMerged(p, i);
    SurvivorListed(p, out, src, i);
    j :| 0 <= j < |out| && src[j] == i && out[j] == Rewritten(p, i).value;
    OutputEntry(p, out, src, j);
  }

  lemma ClearRowBalanced(p: Plan, out: seq<Entry>, src: seq<nat>, x: Db, id: RowId)
    requires IsResult(p, out, src) && KeysClear(p) && Shaped(out) && !SkipGpkgTable(id.table)
    ensures RowBalanced(Beside(x, p.d.theirs), out, id)
  {
    forall j, k | 0 <= j < k < |out| && Names(out[j], Insert, id) ensures !Names(out[k], Insert, id) {
      if Names(out[k], Insert, id) {
        OutputEntry(p, out, src, j);
        OutputEntry(p, out, src, k);
        ClearInsertsApart(p, src[j], src[k]);
      }
    }
    CountAtMostOne(out, Insert, id);
    if j :| 0 <= j < |out| && Names(out[j], Insert, id) {
      OutputEntry(p, out, src, j);
      TakenWasDeleted(p, src[j]);
      if id in p.d.theirs {
        var k := DeletionListed(p, out, src, id);
        CountAtLeast(out, Delete, id, k);
      }
    }
  }

  // ----- A balanced output has clear keys -----

  lemma ApartAt(es: seq<Entry>, i: int, j: int)
    requires Shaped(es) && InsertsApart(es) && 0 <= i < |es| && 0 <= j < |es| && i != j
    requires IsInsert(es[i]) && IsInsert(es[j])
    ensures IdOf(es[i]) != IdOf(es[j])
  {
    if i < j {
      assert IdOf(es[i]) != IdOf(es[j]);
    }
  }

  lemma BalancedNumbersApart(p: Plan, out: seq<Entry>, src: seq<nat>, t: Name, k: int, l: int)
    requires IsResult(p, out, src) && Shaped(out) && InsertsApart(out)
    requires t in p.Info() && t in p.d.s && !SkipGpkgTable(t)
    requires k in InsKeys(t, p.d.toOurs) && l in InsKeys(t, p.d.toOurs) && k != l
    ensures NewKey(p.Cascade(t).ids, k) != NewKey(p.Cascade(t).ids, l)
  {
    var a := InsertLandsAt(p, out, src, t, k);
    var b := InsertLandsAt(p, out, src, t, l);
    assert Pk(p.d.toOurs[src[a]]) != Pk(p.d.toOurs[src[b]]);
    ApartAt(out, a, b);
  }

  /** Rows we kept are not deleted by the output. */
  lemma KeptNotDeleted(p: Plan, out: seq<Entry>, src: seq<nat>, id: RowId)
    requires IsResult(p, out, src) && Shaped(out) && id in p.d.ours
    ensures Count(out, Delete, id) == 0
  {
    forall j | 0 <= j < |out| ensures !Names(out[j], Delete, id) {
      OutputEntry(p, out, src, j);
      OurEntry(p, src[j]);
    }
    CountAtMostOne(out, Delete, id);
  }

  lemma BalancedBlock(p: Plan, out: seq<Entry>, src: seq<nat>, x: Db, t: Name, v: int)
    requires IsResult(p, out, src) && Shaped(out) && Balanced(Beside(x, p.d.theirs), out)
    requires t in p.Info() && t in p.d.s && !SkipGpkgTable(t) && Start(InfoOf(t, p.d.toTheirs)) <= v < p.Cascade(t).free
    ensures KeyId(p.d.s[t], v) in p.d.theirs ==> KeyId(p.d.s[t], v) !in p.d.ours
  {
    var id := KeyId(p.d.s[t], v);
    RenumberedIsOurs(p.d, t, p.orders, v);
    var k :| k in InsKeys(t, p.d.toOurs) && k in p.Cascade(t).ids && p.Cascade(t).ids[k] == v;
    var j := InsertLandsAt(p, out, src, t, k);
    CountAtLeast(out, Insert, id, j);
    assert RowBalanced(Beside(x, p.d.theirs), out, id);
    if id in p.d.ours {
      KeptNotDeleted(p, out, src, id);
    }
  }

  lemma BalancedTableClear(p: Plan, out: seq<Entry>, src: seq<nat>, x: Db, t: Name)
    requires IsResult(p, out, src) && Shaped(out) && InsertsApart(out) && Balanced(Beside(x, p.d.theirs), out)
    requires t in p.Info() && t in p.d.s && !SkipGpkgTable(t)
    ensures TableClear(p, t)
  {
    forall k, l | k in InsKeys(t, p.d.toOurs) && l in InsKeys(t, p.d.toOurs) && k != l
      ensures NewKey(p.Cascade(t).ids, k) != NewKey(p.Cascade(t).ids, l)
    {
      BalancedNumbersApart(p, out, src, t, k, l);
    }
    forall v | Start(InfoOf(t, p.d.toTheirs)) <= v < p.Cascade(t).free && KeyId(p.d.s[t], v) in p.d.theirs
      ensures KeyId(p.d.s[t], v) !in p.d.ours
    {
      BalancedBlock(p, out, src, x, t, v);
    }
  }

  lemma BalancedIffClear(p: Plan, out: seq<Entry>, src: seq<nat>, x: Db)
    requires IsResult(p, out, src) && Shaped(out) && ChangesMatch(Beside(x, p.d.theirs), out)
    ensures Balanced(Beside(x, p.d.theirs), out) <==> KeysClear(p)
  {
    if KeysClear(p) {
      forall id: RowId | !SkipGpkgTable(id.table) ensures RowBalanced(Beside(x, p.d.theirs), out, id) {
        ClearRowBalanced(p, out, src, x, id);
      }
    }
    if Balanced(Beside(x, p.d.theirs), out) {
      BalancedInsertsApart(Beside(x, p.d.theirs), out);
      forall t | t in p.Info() && t in p.d.s && !SkipGpkgTable(t) ensures TableClear(p, t) {
        BalancedTableClear(p, out, src, x, t);
      }
    }
  }

  /**
   On a database that holds theirs, skipped tables aside, the driver applies the
   rebased changeset exactly when the keys are clear; otherwise it reports
   unresolved dependencies and changes nothing.
   */
  lemma RebasedSucceedsIff(env: Env, p: Plan, out: seq<Entry>, src: seq<nat>, x: Db)
    requires IsResult(p, out, src) && Open(env, p.d.s) && DbOver(p.d.s, x)
    ensures Shaped(out)
    ensures var at := Beside(x, p.d.theirs);
            ApplyResult(env, at, out, false) ==
            if KeysClear(p) then (Ended(env, at, out), Success) else (at, Failure(UnresolvedDependencies))
  {
    OutputMatches(p, out, src, x);
    BesideFits(p.d.s, x, p.d.theirs);
    DriverSucceedsIff(env, p.d.s, Beside(x, p.d.theirs), out);
    BalancedIffClear(p, out, src, x);
  }

  // ----- What the driver leaves -----

  /**
   Skipped tables are as they were. In the others our inserted rows stand,
   re-keyed, each in its own place, where theirs has no row or one we deleted;
   every other row is merged cell by cell.
   */
  ghost predicate DriverMerged(p: Plan, before: Db, after: Db)
    requires p.Keyed()
  {
    && (forall id: RowId | SkipGpkgTable(id.table) :: Get(after, id) == Get(before, id))
    && (forall a | a in Moves(p) && !SkipGpkgTable(a.table) :: MovedClear(p, a, after))
    && (forall a, b | a in Moves(p) && b in Moves(p) && a != b && !SkipGpkgTable(a.table) :: Moves(p)[a] != Moves(p)[b])
    && (forall id: RowId | !SkipGpkgTable(id.table) && id !in Moves(p).Values :: RowIsMerged(p.d, id, after))
  }

  ghost predicate MovedClear(p: Plan, a: RowId, after: Db)
    requires p.Keyed() && a in Moves(p)
  {
    && (Moves(p)[a] in p.d.theirs ==> Moves(p)[a] in p.d.base && Moves(p)[a] !in p.d.ours)
    && Moved(p.d, a, Moves(p)[a], after)
  }

  lemma InsertReached(p: Plan, out: seq<Entry>, src: seq<nat>, x: Db, d: Db, a: RowId)
    requires IsResult(p, out, src) && KeysClear(p) && Shaped(out) && Reached(Beside(x, p.d.theirs), out, d)
    requires a in Moves(p) && !SkipGpkgTable(a.table)
    ensures MovedClear(p, a, d)
  {
    var i := InsertOf(p, a);
    OurEntry(p, i);
    NewIdIsNewNumber(p, i);
    TakenWasDeleted(p, i);
    InsertIsMoved(p, i);
    SurvivorListed(p, out, src, i);
    var j :| 0 <= j < |out| && src[j] == i && out[j] == Rewritten(p, i).value;
    assert IsInsert(out[j]);
    RekeyedIsMoved(p.d, a, NewNumber(p, i), d);
  }

  lemma ClearMovesApart(p: Plan, a: RowId, b: RowId)
    requires p.Valid() && KeysClear(p) && a in Moves(p) && b in Moves(p) && a != b && !SkipGpkgTable(a.table)
    ensures Moves(p)[a] != Moves(p)[b]
  {
    var i := InsertOf(p, a);
    var j := InsertOf(p, b);
    OurEntry(p, i);
    OurEntry(p, j);
    NewIdIsNewNumber(p, i);
    NewIdIsNewNumber(p, j);
    if a.table == b.table {
      ClearInsertsApart(p, i, j);
    }
  }

  lemma OtherUninserted(p: Plan, out: seq<Entry>, src: seq<nat>, id: RowId)
    requires IsResult(p, out, src) && Shaped(out) && id !in Moves(p).Values
    ensures Uninserted(out, id)
  {
    forall j | 0 <= j < |out| && IsInsert(out[j]) ensures IdOf(out[j]) != id {
      OutputEntry(p, out, src, j);
      InsertIsAMove(p, src[j]);
    }
  }

  lemma ChangeReached(p: Plan, out: seq<Entry>, src: seq<nat>, x: Db, d: Db, j: int)
    requires IsResult(p, out, src) && Shaped(out) && Reached(Beside(x, p.d.theirs), out, d)
    requires 0 <= j < |out| && IsChange(out[j]) && Uninserted(out, IdOf(out[j]))
    ensures RowIsMerged(p.d, IdOf(out[j]), d)
  {
    OutputEntry(p, out, src, j);
    ChangeIsMerged(p, src[j]);
  }

  lemma OtherReached(p: Plan, out: seq<Entry>, src: seq<nat>, x: Db, d: Db, id: RowId)
    requires IsResult(p, out, src) && Shaped(out) && Reached(Beside(x, p.d.theirs), out, d)
    requires !SkipGpkgTable(id.table) && id !in Moves(p).Values
    ensures RowIsMerged(p.d, id, d)
  {
    OtherUninserted(p, out, src, id);
    if j :| 0 <= j < |out| && IsChange(out[j]) && IdOf(out[j]) == id {
      ChangeReached(p, out, src, x, d, j);
    } else {
      assert Unchanging(out, id);
      StaysTheirs(p, out, src, id);
    }
  }

  /** A row the output does not name merges to theirs. */
  lemma StaysTheirs(p: Plan, out: seq<Entry>, src: seq<nat>, id: RowId)
    requires IsResult(p, out, src) && Shaped(out) && !SkipGpkgTable(id.table) && Uninserted(out, id) && Unchanging(out, id)
    ensures MergesToTheirs(p.d, id)
  {
    forall j | 0 <= j < |out| ensures IdOf(out[j]) != id {
      assert NotSkipped(out[j]) ==> IsInsert(out[j]) || IsChange(out[j]);
    }
    assert !Touches(out, id);
    if Get(p.d.base, id) == Get(p.d.ours, id) {
      UnchangedMergesToTheirs(p.d, id);
    } else {
      UntouchedByOutput(p, out, src, id);
    }
  }

  /** Where the driver succeeds, it leaves the merge. */
  lemma RebasedMerges(env: Env, p: Plan, out: seq<Entry>, src: seq<nat>, x: Db)
    requires IsResult(p, out, src) && Open(env, p.d.s) && DbOver(p.d.s, x) && KeysClear(p)
    ensures Shaped(out) && DriverMerged(p, x, Ended(env, Beside(x, p.d.theirs), out))
  {
    var at := Beside(x, p.d.theirs);
    OutputMatches(p, out, src, x);
    BesideFits(p.d.s, x, p.d.theirs);
    BalancedIffClear(p, out, src, x);
    DriverReaches(env, p.d.s, at, out);
    var d := Ended(env, at, out);
    forall a | a in Moves(p) && !SkipGpkgTable(a.table) ensures MovedClear(p, a, d) {
      InsertReached(p, out, src, x, d, a);
    }
    forall a, b | a in Moves(p) && b in Moves(p) && a != b && !SkipGpkgTable(a.table) ensures Moves(p)[a] != Moves(p)[b] {
      ClearMovesApart(p, a, b);
    }
    forall id: RowId | !SkipGpkgTable(id.table) && id !in Moves(p).Values ensures RowIsMerged(p.d, id, d) {
      OtherReached(p, out, src, x, d, id);
    }
  }

  // ----- Whatever the order of the visits -----

  /** In every tracked table theirs touched, renumbering takes no number of a kept insert of ours, and none of a row both sides kept. */
  ghost predicate HasClearRoom(d: Sides)
    requires d.Keyed()
  {
    forall t | t in TableNames(d.toTheirs) && t in d.s && !SkipGpkgTable(t) ::
      Safe(InfoOf(t, d.toTheirs), InsKeys(t, d.toOurs)) && BlockIsClear(d, t)
  }

  ghost predicate BlockIsClear(d: Sides, t: Name)
    requires d.Keyed() && t in d.s
  {
    forall k | Start(InfoOf(t, d.toTheirs)) <= k < BlockEnd(InfoOf(t, d.toTheirs), InsKeys(t, d.toOurs)) ::
      KeyId(d.s[t], k) in d.theirs ==> KeyId(d.s[t], k) !in d.ours
  }

  lemma ClearRoomClears(p: Plan)
    requires p.Valid() && HasClearRoom(p.d)
    ensures KeysClear(p)
  {
    forall t | t in p.Info() && t in p.d.s && !SkipGpkgTable(t) ensures TableClear(p, t) {
      TableRoom(p, t);
      assert BlockIsClear(p.d, t);
    }
  }

  /** Whatever the order of the visits, the driver applies the rebased changeset to a database that holds theirs. */
  ghost predicate AlwaysSucceeds(env: Env, d: Sides, x: Db) {
    forall p: Plan, out, src | p.d == d && IsResult(p, out, src) :: Succeeds(env, d, x, out)
  }

  ghost predicate Succeeds(env: Env, d: Sides, x: Db, out: seq<Entry>) {
    Shaped(out) && ApplyResult(env, Beside(x, d.theirs), out, false).1.Success?
  }

  lemma UnclearPlanFails(env: Env, p: Plan, x: Db)
    requires p.Valid() && Open(env, p.d.s) && DbOver(p.d.s, x) && !KeysClear(p)
    ensures !AlwaysSucceeds(env, p.d, x)
  {
    var out, src := SomeResult(p);
    RebasedSucceedsIff(env, p, out, src, x);
    assert IsResult(p, out, src) && !Succeeds(env, p.d, x, out);
  }

  lemma UnsafeTableUnclear(d: Sides, t: Name) returns (p: Plan)
    requires d.Keyed() && t in TableNames(d.toTheirs) && t in d.s && !SkipGpkgTable(t)
    requires !Safe(InfoOf(t, d.toTheirs), InsKeys(t, d.toOurs))
    ensures p.d == d && p.Valid() && !KeysClear(p)
  {
    FirstPass(d, t);
    var order := UnsafeOrder(InfoOf(t, d.toTheirs), InsKeys(t, d.toOurs), OtherKeys(t, d.toOurs),
                             MappingOf(t, InfoOf(t, d.toTheirs), d.toOurs));
    p := PlanVisiting(d, t, order);
    assert t in p.Info() && !TableClear(p, t);
  }

  lemma TakenBlockUnclear(d: Sides, t: Name) returns (p: Plan)
    requires d.Keyed() && t in TableNames(d.toTheirs) && t in d.s && !SkipGpkgTable(t)
    requires Safe(InfoOf(t, d.toTheirs), InsKeys(t, d.toOurs)) && !BlockIsClear(d, t)
    ensures p.d == d && p.Valid() && !KeysClear(p)
  {
    p := PlanOf(d, SomeOrders(d));
    TableRoom(p, t);
    assert t in p.Info() && !TableClear(p, t);
  }

  lemma NoClearRoomFails(env: Env, d: Sides, x: Db)
    requires d.Keyed() && Open(env, d.s) && DbOver(d.s, x) && !HasClearRoom(d)
    ensures !AlwaysSucceeds(env, d, x)
  {
    var t :| t in TableNames(d.toTheirs) && t in d.s && !SkipGpkgTable(t) &&
             !(Safe(InfoOf(t, d.toTheirs), InsKeys(t, d.toOurs)) && BlockIsClear(d, t));
    if Safe(InfoOf(t, d.toTheirs), InsKeys(t, d.toOurs)) {
      var p := TakenBlockUnclear(d, t);
      UnclearPlanFails(env, p, x);
    } else {
      var p := UnsafeTableUnclear(d, t);
      UnclearPlanFails(env, p, x);
    }
  }

  /** The driver's condition on the two changesets, theirs and ours, for all visiting orders. */
  lemma EveryVisitSucceedsIff(env: Env, d: Sides, x: Db)
    requires d.Keyed() && Open(env, d.s) && DbOver(d.s, x)
    ensures AlwaysSucceeds(env, d, x) <==> HasClearRoom(d)
  {
    if HasClearRoom(d) {
      forall p: Plan, out, src | p.d == d && IsResult(p, out, src) ensures Succeeds(env, d, x, out) {
        ClearRoomClears(p);
        RebasedSucceedsIff(env, p, out, src, x);
      }
    } else {
      NoClearRoomFails(env, d, x);
    }
  }

  /** A merge of all tables, its skipped tables as before, is what the driver should leave. */
  lemma MergeIsDriven(p: Plan, before: Db, m: Db)
    requires p.Keyed() && IsMerge(p.d, Moves(p), m)
    ensures DriverMerged(p, before, Beside(before, m))
  {
    var after := Beside(before, m);
    forall a | a in Moves(p) && !SkipGpkgTable(a.table) ensures MovedClear(p, a, after) {
      assert Moved(p.d, a, Moves(p)[a], m);
    }
    forall id: RowId | !SkipGpkgTable(id.table) && id !in Moves(p).Values ensures RowIsMerged(p.d, id, after) {
      assert RowIsMerged(p.d, id, m);
    }
  }
}
