/**
 The whole merge: rebaseEx (geodiff/api.go) applies one concatenated changeset,
 RebaseDirect (driver/rebase.go) applies three one after the other.
 */
module Pipeline {
  import opened Values
  import opened Rows
  import opened TableSchemas
  import opened Diff
  import opened Invert
  import opened KeyMapping
  import opened RebaseRules
  import opened RebaseRows
  import opened RebaseKeys
  import opened RebaseMerge
  import opened RebaseApplies
  import opened RebaseRoom
  import opened RebaseDriver
  import opened RebaseOutput
  import opened Apply
  import opened ApplySkips
  import opened ApplyRows
  import opened DriverMerge

  // ----- The plan of a merge -----

  /** Some changeset between two databases. */
  lemma SomeDiff(s: Schema, b: Db, m: Db, ids: set<RowId>) returns (es: seq<Entry>)
    requires ValidSchema(s) && DbOver(s, b) && DbOver(s, m) && ids <= Diff.Changed(b, m)
    ensures DiffOver(s, b, m, es, ids)
    decreases ids
  {
    if ids == {} {
      es := [];
    } else {
      NonEmpty(ids);
      var id :| id in ids;
      es := SomeDiff(s, b, m, ids - {id});
      var e := RowDiff(s[id.table], Get(b, id), Get(m, id)).value;
      DiffOverSnoc(s, b, m, es, ids - {id}, e, id);
      assert ids - {id} + {id} == ids;
      es := es + [e];
    }
  }

  /** Three databases over the tables of `base`, each with one integer key per table. */
  ghost predicate Comparable(base: Side, tables: seq<Name>, schema: map<Name, TableSchema>, ours: Db, theirs: Db) {
    var s := Tracked(base);
    && base.tables == tables
    && (forall t | t in base.tables :: t in base.schema && t in schema && base.schema[t].CompareWithBaseTypes(schema[t]))
    && DbOver(s, theirs)
    && IntKeys(s, base.rows) && IntKeys(s, theirs) && IntKeys(s, ours)
  }

  /** The plan for merging `ours` with `theirs` when unmapped inserts are visited as `visit` says. */
  ghost predicate IsPlan(p: Plan, base: Side, ours: Db, theirs: Db, visit: Visit) {
    && p.d.s == Tracked(base) && p.d.base == base.rows && p.d.ours == ours && p.d.theirs == theirs
    && p.Valid()
    && p.orders == VisitOrders(visit, p.Info(), p.d.toOurs)
  }

  lemma SameTracked(base: Side, mine: Side, theirs: Db)
    requires ValidSide(mine) && Comparable(base, mine.tables, mine.schema, mine.rows, theirs)
    ensures Tracked(mine) == Tracked(base)
  {
    forall t | t in base.tables ensures base.schema[t].Table() == mine.schema[t].Table() {
      ComparableTables(base.schema[t], mine.schema[t]);
    }
  }

  lemma TrackedIsValid(base: Side)
    requires ValidSide(base)
    ensures ValidSchema(Tracked(base)) && DbOver(Tracked(base), base.rows)
  {
  }

  lemma SidesAreValid(base: Side, mine: Side, theirs: Db, toTheirs: seq<Entry>, toOurs: seq<Entry>)
    requires ValidSide(base) && ValidSide(mine) && Comparable(base, mine.tables, mine.schema, mine.rows, theirs)
    requires IsDiff(Tracked(base), base.rows, theirs, toTheirs) && IsDiff(Tracked(base), base.rows, mine.rows, toOurs)
    ensures Tracked(mine) == Tracked(base)
    ensures var d := Sides(Tracked(base), base.rows, theirs, mine.rows, toTheirs, toOurs);
            && d.Valid()
            && (forall t :: KeyedIn(toTheirs, t) && KeyedIn(toOurs, t))
            && Fits(d.s, toTheirs) && Fits(d.s, toOurs) && AllKeyed(toTheirs)
  {
    var s := Tracked(base);
    SameTracked(base, mine, theirs);
    DiffKeyed(s, base.rows, theirs, toTheirs);
    DiffKeyed(s, base.rows, mine.rows, toOurs);
  }

  lemma NoOurKeys(t: Name, ti: TableInfo, orders: Orders)
    requires Enumerates(orders(t), {})
    ensures KeyedIn([], t) && MappingOf(t, ti, []) == NoMapping(ti)
    ensures CascadeOf(t, ti, [], orders).ids == map[] && CascadeOf(t, ti, [], orders).free == Start(ti)
  {
    EmptyOrder(orders(t), {});
  }

  lemma NoOurMaps(info: Info, visit: Visit, orders: Orders)
    requires ValidVisit(visit) && orders == VisitOrders(visit, info, [])
    ensures MapsBuilt(info, [], orders, map[])
    ensures forall t | t in info :: CascadeOf(t, info[t], [], orders).ids == map[] && CascadeOf(t, info[t], [], orders).free == Start(info[t])
  {
    forall t | t in info
      ensures Enumerates(orders(t), MappingOf(t, info[t], []).unmapped)
      ensures CascadeOf(t, info[t], [], orders).ids == map[] && CascadeOf(t, info[t], [], orders).free == Start(info[t])
    {
      assert KeyedIn([], t) && MappingOf(t, info[t], []) == NoMapping(info[t]);
      NoOurKeys(t, info[t], orders);
    }
  }

  lemma NothingMapped(p: Plan, visit: Visit)
    requires p.Keyed() && ValidVisit(visit) && p.d.toOurs == [] && p.maps == map[]
    requires p.orders == VisitOrders(visit, p.Info(), p.d.toOurs)
    ensures p.Valid() && forall t | t in p.Info() :: p.Cascade(t).free == Start(InfoOf(t, p.d.toTheirs))
  {
    NoOurMaps(p.Info(), visit, p.orders);
    forall t | t in p.Info() ensures p.Cascade(t).free == Start(InfoOf(t, p.d.toTheirs)) {
      assert p.Info()[t] == InfoOf(t, p.d.toTheirs);
    }
  }

  lemma NothingTaken(p: Plan)
    requires p.Keyed() && p.d.toOurs == [] && forall t | t in p.Info() :: p.Cascade(t).free == Start(InfoOf(t, p.d.toTheirs))
    ensures KeysFree(p)
  {
    assert forall t :: InsKeys(t, []) == {};
  }

  lemma NothingRebased(info: Info, maps: KeyMaps)
    ensures Rebasable([], info) && ListsRebased([], info, maps, [], []) && ConflictsOf([], info, maps) == []
  {
  }

  /** Without changes on our side there is nothing to map or to write. */
  lemma NothingOfOurs(p: Plan, visit: Visit)
    requires p.Keyed() && ValidVisit(visit) && p.d.toOurs == [] && p.maps == map[]
    requires p.orders == VisitOrders(visit, p.Info(), p.d.toOurs)
    ensures p.Valid() && KeysFree(p) && Rewritable(p) && IsOutput(p, [], [])
    ensures ConflictsOf([], p.Info(), p.maps) == []
  {
    NothingMapped(p, visit);
    NothingTaken(p);
    NothingRebased(p.Info(), p.maps);
  }

  lemma {:induction false} NoConflicts(es: seq<Entry>, maps: KeyMaps)
    requires Rebasable(es, map[])
    ensures ConflictsOf(es, map[], maps) == []
    decreases |es|
  {
    if es != [] {
      NoConflicts(es[..|es| - 1], maps);
    }
  }

  lemma PassesThrough(es: seq<Entry>, maps: KeyMaps)
    requires Shaped(es)
    ensures Rebasable(es, map[]) && ListsRebased(es, map[], maps, es, seq(|es|, i => i)) && ConflictsOf(es, map[], maps) == []
  {
    var src: seq<nat> := seq(|es|, i => i);
    forall i | 0 <= i < |es| ensures i in src {
      assert src[i] == i;
    }
    NoConflicts(es, maps);
  }

  /** Without changes on their side ours pass through. */
  lemma NothingOfTheirs(p: Plan)
    requires p.Keyed() && p.d.toTheirs == []
    ensures p.Valid() && KeysFree(p) && Rewritable(p) && IsOutput(p, p.d.toOurs, seq(|p.d.toOurs|, i => i))
    ensures ConflictsOf(p.d.toOurs, p.Info(), p.maps) == []
  {
    assert p.Info() == map[];
    PassesThrough(p.d.toOurs, p.maps);
  }

  // ----- Undo ours, apply theirs, apply what is left of ours -----

  /** `es` applies strictly to `db` and leads to `m`. */
  ghost predicate Leads(s: Schema, db: Db, es: seq<Entry>, m: Db) {
    Fits(s, es) && ApplyAll(db, es) == Some(m)
  }

  /** Each of the three stages applies strictly; the last ends in the merge. */
  lemma StagesMerge(p: Plan, out: seq<Entry>, src: seq<nat>) returns (m: Db)
    requires p.Valid() && KeysFree(p) && Rewritable(p) && IsOutput(p, out, src)
    ensures Shaped(p.d.toOurs) && Leads(p.d.s, p.d.ours, InverseAll(p.d.toOurs), p.d.base)
    ensures Leads(p.d.s, p.d.base, p.d.toTheirs, p.d.theirs)
    ensures Leads(p.d.s, p.d.theirs, out, m) && IsMerge(p.d, Moves(p), m)
  {
    InvertDiff(p.d.s, p.d.base, p.d.ours, p.d.toOurs);
    DiffApplies(p.d.s, p.d.ours, p.d.base, InverseAll(p.d.toOurs));
    DiffApplies(p.d.s, p.d.base, p.d.theirs, p.d.toTheirs);
    OutputMerges(p, out, src);
    m := ApplyAll(p.d.theirs, out).value;
  }

  lemma LeadsOn(s: Schema, a: Db, es: seq<Entry>, b: Db, fs: seq<Entry>, c: Db)
    requires Leads(s, a, es, b) && Leads(s, b, fs, c)
    ensures Leads(s, a, es + fs, c)
  {
    ApplyAllConcat(a, es, fs);
  }

  /**
   Applied strictly to ours, the raw concatenation of the inverse of
   base->ours, base->theirs and the rebased changeset leads where the three
   stages lead, the three-way merge.
   */
  lemma RawConcatMerges(p: Plan, out: seq<Entry>, src: seq<nat>) returns (m: Db)
    requires p.Valid() && KeysFree(p) && Rewritable(p) && IsOutput(p, out, src)
    ensures Shaped(p.d.toOurs) && Leads(p.d.s, p.d.ours, InverseAll(p.d.toOurs) + p.d.toTheirs + out, m)
    ensures Leads(p.d.s, p.d.theirs, out, m) && IsMerge(p.d, Moves(p), m)
  {
    m := StagesMerge(p, out, src);
    LeadsOn(p.d.s, p.d.ours, InverseAll(p.d.toOurs), p.d.base, p.d.toTheirs, p.d.theirs);
    LeadsOn(p.d.s, p.d.ours, InverseAll(p.d.toOurs) + p.d.toTheirs, p.d.theirs, out, m);
  }

  /** Where our rows go determines the merge. */
  lemma MergeUnique(d: Sides, moves: map<RowId, RowId>, m: Db, n: Db)
    requires ValidSchema(d.s) && IsMerge(d, moves, m) && IsMerge(d, moves, n)
    ensures m == n
  {
    forall id: RowId ensures Get(m, id) == Get(n, id) {
      if id in moves.Values {
        var a :| a in moves && moves[a] == id;
        var t := d.s[a.table];
        var k :| id == KeyId(t, k) && WithKey(t.primaryKeys, d.ours[a], k, m[id]);
        var l :| id == KeyId(t, l) && WithKey(t.primaryKeys, d.ours[a], l, n[id]);
        KeyIdInjective(t, k, l);
        WithKeyUnique(t.primaryKeys, d.ours[a], k, m[id], n[id]);
      } else {
        assert RowIsMerged(d, id, m) && RowIsMerged(d, id, n);
      }
    }
    GetDeterminesDb(m, n);
  }

  // ----- The drivers of the merge -----

  datatype MergeError = CannotDiff(diff: DiffError) | CannotRebase(rebase: RebaseError) | CannotApply(apply: ApplyError)

  datatype MergeResult = MergedWith(conflicts: seq<ConflictFeature>) | MergeFailed(error: MergeError)

  /** The database is the three-way merge, skipped tables aside. */
  ghost predicate EndsMerged(p: Plan, before: Db, after: Db)
    requires p.Keyed()
  {
    exists m: Db :: IsMerge(p.d, Moves(p), m) && after == Beside(before, m)
  }

  ghost predicate MergedAs(p: Plan, before: Db, after: Db, r: MergeResult)
    requires p.Keyed()
  {
    && Rewritable(p)
    && r == MergedWith(ConflictsOf(p.d.toOurs, p.Info(), p.maps))
    && EndsMerged(p, before, after)
  }

  /** The database after a changeset, if it is not empty. */
  ghost function Onto(env: Env, db: Db, es: seq<Entry>): Db
    requires Shaped(es)
  {
    if es == [] then db else ApplyResult(env, db, es, false).0
  }

  /** Applying a changeset unless it is empty. */
  ghost function Called(env: Env, db: Db, es: seq<Entry>): (Db, Result)
    requires Shaped(es)
  {
    if es == [] then (db, Success) else ApplyResult(env, db, es, false)
  }

  /** The last call of a merge decides: its success is the merge's, with these conflicts, and its database is left. */
  ghost predicate Answers(call: (Db, Result), conflicts: seq<ConflictFeature>, db: Db, r: MergeResult) {
    && db == call.0
    && (r.MergedWith? <==> call.1 == Success)
    && (r.MergedWith? ==> r.conflicts == conflicts)
    && (r.MergeFailed? ==> r.error == CannotApply(call.1.error))
  }

  function AsMerge(r: Result, conflicts: seq<ConflictFeature>): MergeResult {
    if r.Success? then MergedWith(conflicts) else MergeFailed(CannotApply(r.error))
  }

  /** The last application of a merge, as the caller sees it. */
  ghost function Final(env: Env, db: Db, entries: seq<Entry>, conflicts: seq<ConflictFeature>): (Db, MergeResult)
    requires Shaped(entries)
  {
    var result := ApplyResult(env, db, entries, false);
    (result.0, AsMerge(result.1, conflicts))
  }

  ghost function FinalUnlessEmpty(env: Env, db: Db, entries: seq<Entry>, conflicts: seq<ConflictFeature>): (Db, MergeResult)
    requires Shaped(entries)
  {
    if entries == [] then (db, MergedWith(conflicts)) else Final(env, db, entries, conflicts)
  }

  lemma InverseOver(s: Schema, es: seq<Entry>)
    requires OverSchema(s, es)
    ensures OverSchema(s, InverseAll(es))
  {
  }

  /** What Rebase promises makes a plan, and its output that plan's output. */
  lemma RebasedIsPlan(p: Plan, visit: Visit, out: seq<Entry>, src: seq<nat>)
    requires p.Keyed() && ValidVisit(visit) && p.orders == VisitOrders(visit, p.Info(), p.d.toOurs)
    requires Rewritable(p) && MapsBuilt(p.Info(), p.d.toOurs, p.orders, p.maps)
    requires ListsRebased(p.d.toOurs, p.Info(), p.maps, out, src)
    ensures p.Valid() && IsOutput(p, out, src)
  {
  }

  lemma KeysAreFree(p: Plan, visit: Visit)
    requires p.Valid() && p.orders == VisitOrders(visit, p.Info(), p.d.toOurs)
    ensures HasRoom(p.d) ==> KeysFree(p)
    ensures AscendingVisit(visit) && BaseKeysBounded(p) ==> KeysFree(p)
    ensures HasClearRoom(p.d) ==> KeysClear(p)
  {
    if HasRoom(p.d) {
      RoomFreesKeys(p);
    }
    if AscendingVisit(visit) && BaseKeysBounded(p) {
      AscendingFrees(p, visit);
    }
    if HasClearRoom(p.d) {
      ClearRoomClears(p);
    }
  }

  lemma AscendingFrees(p: Plan, visit: Visit)
    requires p.Valid() && p.orders == VisitOrders(visit, p.Info(), p.d.toOurs)
    requires AscendingVisit(visit) && BaseKeysBounded(p)
    ensures KeysFree(p)
  {
    AscendingKeysFree(p);
  }

  lemma RunLeads(env: Env, s: Schema, x: Db, db: Db, es: seq<Entry>, m: Db)
    requires ValidSchema(s) && Open(env, s) && DbOver(s, x) && DbOver(s, db) && Leads(s, db, es, m)
    ensures ApplyResult(env, Beside(x, db), es, false) == (Beside(x, m), Success)
  {
    StrictRunSucceeds(env, s, x, db, es);
  }

  /** Situation 1: the database already is the merge. */
  lemma MergedWithoutTheirs(p: Plan)
    requires p.Keyed() && p.d.toTheirs == []
    ensures MergedAs(p, p.d.ours, p.d.ours, MergedWith([]))
  {
    NothingOfTheirs(p);
    DiffApplies(p.d.s, p.d.base, p.d.theirs, p.d.toTheirs);
    DiffApplies(p.d.s, p.d.base, p.d.ours, p.d.toOurs);
    OutputMerges(p, p.d.toOurs, seq(|p.d.toOurs|, i => i));
    BesideItself(p.d.ours);
  }

  /** Situation 2: theirs applied to the unchanged database. */
  lemma MergedWithoutOurs(env: Env, p: Plan, visit: Visit)
    requires p.Keyed() && ValidVisit(visit) && p.d.toOurs == [] && p.maps == map[]
    requires p.orders == VisitOrders(visit, p.Info(), p.d.toOurs) && Open(env, p.d.s)
    ensures p.Valid() && KeysFree(p)
    ensures Shaped(p.d.toTheirs) && ApplyResult(env, p.d.ours, p.d.toTheirs, false).1 == Success
    ensures MergedAs(p, p.d.ours, ApplyResult(env, p.d.ours, p.d.toTheirs, false).0, MergedWith([]))
  {
    NothingOfOurs(p, visit);
    var m := StagesMerge(p, [], []);
    DiffApplies(p.d.s, p.d.base, p.d.ours, []);
    BesideItself(p.d.ours);
    RunLeads(env, p.d.s, p.d.ours, p.d.base, p.d.toTheirs, p.d.theirs);
  }

  /** Situation 3: one changeset undoes ours, applies theirs and what is left of ours. */
  lemma MergedByConcat(env: Env, p: Plan, out: seq<Entry>, src: seq<nat>)
    requires p.Valid() && KeysFree(p) && Rewritable(p) && IsOutput(p, out, src) && Open(env, p.d.s)
    ensures Shaped(p.d.toOurs) && Shaped(InverseAll(p.d.toOurs) + p.d.toTheirs + out)
    ensures var result := ApplyResult(env, p.d.ours, InverseAll(p.d.toOurs) + p.d.toTheirs + out, false);
            result.1 == Success && EndsMerged(p, p.d.ours, result.0)
  {
    var m := RawConcatMerges(p, out, src);
    BesideItself(p.d.ours);
    RunLeads(env, p.d.s, p.d.ours, p.d.ours, InverseAll(p.d.toOurs) + p.d.toTheirs + out, m);
  }

  /** The rebased entries keep to the tables of ours. */
  lemma RebasedOver(s: Schema, es: seq<Entry>, info: Info, maps: KeyMaps, out: seq<Entry>, src: seq<nat>)
    requires OverSchema(s, es) && Rebasable(es, info) && ListsRebased(es, info, maps, out, src)
    ensures OverSchema(s, out)
  {
    forall j | 0 <= j < |out| ensures EntryOver(s, out[j]) {
      assert RebaseOne(es[src[j]], info, maps).entry == Some(out[j]);
    }
  }

  /** The databases can be compared, theirs is where the changeset leads, and only primary keys constrain ours. */
  ghost predicate Setting(base: Side, env: Env, tables: seq<Name>, ours: Db, theirs: Db, base2theirs: seq<Entry>) {
    && ValidSide(base) && ValidSide(Side(tables, env.schema, ours))
    && Comparable(base, tables, env.schema, ours, theirs)
    && Open(env, Tracked(base))
    && IsDiff(Tracked(base), base.rows, theirs, base2theirs)
  }

  /**
   The run succeeds exactly when the keys are clear, and then leaves the merge
   of the tracked tables, with exactly its conflicts.
   */
  ghost predicate Driven(p: Plan, before: Db, after: Db, r: MergeResult)
    requires p.Keyed()
  {
    && Rewritable(p)
    && r == (if KeysClear(p) then MergedWith(ConflictsOf(p.d.toOurs, p.Info(), p.maps))
             else MergeFailed(CannotApply(UnresolvedDependencies)))
    && (KeysClear(p) ==> DriverMerged(p, before, after))
  }

  /**
   The run is driven as its keys allow; with free keys it ends in the merge of
   all tables, skipped ones aside. Keys are free when there is room, and when
   unmapped inserts are visited in ascending order and base keys are bounded;
   they are clear when there is clear room.
   */
  ghost predicate Merges(p: Plan, base: Side, before: Db, theirs: Db, visit: Visit, after: Db, r: MergeResult) {
    && IsPlan(p, base, before, theirs, visit)
    && (HasRoom(p.d) || (AscendingVisit(visit) && BaseKeysBounded(p)) ==> KeysFree(p))
    && (HasClearRoom(p.d) ==> KeysClear(p))
    && (KeysFree(p) ==> MergedAs(p, before, after, r))
    && Driven(p, before, after, r)
  }

  /** In the setting of a merge the run merges. */
  ghost predicate MergesInSetting(p: Plan, base: Side, env: Env, tables: seq<Name>, ours: Db, theirs: Db, toTheirs: seq<Entry>,
                                  visit: Visit, after: Db, r: MergeResult) {
    Setting(base, env, tables, ours, theirs, toTheirs) ==> Merges(p, base, ours, theirs, visit, after, r)
  }

  lemma MergedIsDriven(p: Plan, before: Db, after: Db, r: MergeResult)
    requires p.Valid() && KeysFree(p) && MergedAs(p, before, after, r)
    ensures Driven(p, before, after, r) && KeysClear(p)
  {
    FreeIsClear(p);
    var m: Db :| IsMerge(p.d, Moves(p), m) && after == Beside(before, m);
    MergeIsDriven(p, before, m);
  }

  /** Undoing ours and applying theirs passes in turn; what is left of ours decides. */
  lemma ConcatIsDriven(env: Env, p: Plan, out: seq<Entry>, src: seq<nat>)
    requires IsResult(p, out, src) && Open(env, p.d.s)
    ensures Shaped(p.d.toOurs) && Shaped(InverseAll(p.d.toOurs) + p.d.toTheirs + out)
    ensures var end := Final(env, p.d.ours, InverseAll(p.d.toOurs) + p.d.toTheirs + out, ConflictsOf(p.d.toOurs, p.Info(), p.maps));
            Driven(p, p.d.ours, end.0, end.1)
  {
    UndoneThenTheirs(env, p.d);
    RebasedSucceedsIff(env, p, out, src, p.d.ours);
    ResultAfter(env, p.d.ours, InverseAll(p.d.toOurs) + p.d.toTheirs, out, Beside(p.d.ours, p.d.theirs));
    if KeysClear(p) {
      RebasedMerges(env, p, out, src, p.d.ours);
    }
  }

  lemma UndoneThenTheirs(env: Env, d: Sides)
    requires d.Valid() && Open(env, d.s)
    ensures Shaped(d.toOurs) && Shaped(d.toTheirs) && Shaped(InverseAll(d.toOurs) + d.toTheirs)
    ensures RunPass(env, d.ours, InverseAll(d.toOurs) + d.toTheirs) == Pass(Beside(d.ours, d.theirs), [], 0, None)
  {
    InvertDiff(d.s, d.base, d.ours, d.toOurs);
    DiffApplies(d.s, d.ours, d.base, InverseAll(d.toOurs));
    DiffApplies(d.s, d.base, d.theirs, d.toTheirs);
    LeadsOn(d.s, d.ours, InverseAll(d.toOurs), d.base, d.toTheirs, d.theirs);
    BesideItself(d.ours);
    StrictRunPasses(env, d.s, d.ours, d.ours, InverseAll(d.toOurs) + d.toTheirs);
  }

  lemma LastIsDriven(env: Env, p: Plan, out: seq<Entry>, src: seq<nat>)
    requires IsResult(p, out, src) && Open(env, p.d.s)
    ensures Shaped(out)
    ensures var end := Final(env, Beside(p.d.ours, p.d.theirs), out, ConflictsOf(p.d.toOurs, p.Info(), p.maps));
            Driven(p, p.d.ours, end.0, end.1)
  {
    RebasedSucceedsIff(env, p, out, src, p.d.ours);
    if KeysClear(p) {
      RebasedMerges(env, p, out, src, p.d.ours);
    }
  }

  /** The plan once both changesets and the key maps are known. */
  ghost function PlanFor(base: Side, ours: Db, theirs: Db, toTheirs: seq<Entry>, toOurs: seq<Entry>, visit: Visit, maps: KeyMaps): Plan
    requires Shaped(toTheirs) && AllKeyed(toTheirs) && Shaped(toOurs)
  {
    Plan(Sides(Tracked(base), base.rows, theirs, ours, toTheirs, toOurs), VisitOrders(visit, InfoFor(toTheirs), toOurs), maps)
  }

  lemma PlanIsKeyed(base: Side, env: Env, tables: seq<Name>, ours: Db, theirs: Db, toTheirs: seq<Entry>, toOurs: seq<Entry>, visit: Visit, maps: KeyMaps)
    requires Setting(base, env, tables, ours, theirs, toTheirs) && IsDiff(Tracked(base), base.rows, ours, toOurs)
    ensures Shaped(toTheirs) && AllKeyed(toTheirs) && Shaped(toOurs)
    ensures PlanFor(base, ours, theirs, toTheirs, toOurs, visit, maps).Keyed()
  {
    SidesAreValid(base, Side(tables, env.schema, ours), theirs, toTheirs, toOurs);
  }

  lemma FirstSituation(base: Side, env: Env, tables: seq<Name>, ours: Db, theirs: Db, visit: Visit) returns (p: Plan)
    requires Setting(base, env, tables, ours, theirs, []) && ValidVisit(visit)
    ensures Merges(p, base, ours, theirs, visit, ours, MergedWith([]))
  {
    TrackedIsValid(base);
    SameTracked(base, Side(tables, env.schema, ours), theirs);
    var toOurs := SomeDiff(Tracked(base), base.rows, ours, Diff.Changed(base.rows, ours));
    PlanIsKeyed(base, env, tables, ours, theirs, [], toOurs, visit, map[]);
    p := PlanFor(base, ours, theirs, [], toOurs, visit, map[]);
    NothingOfTheirs(p);
    MergedWithoutTheirs(p);
    MergedIsDriven(p, ours, ours, MergedWith([]));
  }

  lemma SecondSituation(base: Side, env: Env, tables: seq<Name>, ours: Db, theirs: Db, toTheirs: seq<Entry>, visit: Visit) returns (p: Plan)
    requires Setting(base, env, tables, ours, theirs, toTheirs) && ValidVisit(visit)
    requires IsDiff(Tracked(base), base.rows, ours, [])
    ensures Shaped(toTheirs)
    ensures ApplyResult(env, ours, toTheirs, false).1 == Success
    ensures var end := Final(env, ours, toTheirs, []);
            Merges(p, base, ours, theirs, visit, end.0, end.1)
  {
    PlanIsKeyed(base, env, tables, ours, theirs, toTheirs, [], visit, map[]);
    p := PlanFor(base, ours, theirs, toTheirs, [], visit, map[]);
    MergedWithoutOurs(env, p, visit);
    MergedIsDriven(p, ours, ApplyResult(env, ours, toTheirs, false).0, MergedWith([]));
  }

  lemma RebasedPlan(base: Side, env: Env, tables: seq<Name>, ours: Db, theirs: Db, toTheirs: seq<Entry>, toOurs: seq<Entry>,
                    visit: Visit, maps: KeyMaps, out: seq<Entry>, src: seq<nat>) returns (p: Plan)
    requires Setting(base, env, tables, ours, theirs, toTheirs) && ValidVisit(visit)
    requires IsDiff(Tracked(base), base.rows, ours, toOurs)
    requires AllKeyed(toTheirs) && Rebasable(toOurs, InfoFor(toTheirs)) && forall t | t in InfoFor(toTheirs) :: KeyedIn(toOurs, t)
    requires MapsBuilt(InfoFor(toTheirs), toOurs, VisitOrders(visit, InfoFor(toTheirs), toOurs), maps)
    requires ListsRebased(toOurs, InfoFor(toTheirs), maps, out, src)
    ensures p == PlanFor(base, ours, theirs, toTheirs, toOurs, visit, maps)
    ensures IsPlan(p, base, ours, theirs, visit) && Rewritable(p) && IsOutput(p, out, src) && Open(env, p.d.s)
  {
    PlanIsKeyed(base, env, tables, ours, theirs, toTheirs, toOurs, visit, maps);
    p := PlanFor(base, ours, theirs, toTheirs, toOurs, visit, maps);
    RebasedIsPlan(p, visit, out, src);
  }

  lemma ThirdSituation(base: Side, env: Env, ours: Db, theirs: Db, visit: Visit, p: Plan, out: seq<Entry>, src: seq<nat>)
    requires IsPlan(p, base, ours, theirs, visit) && Rewritable(p) && IsOutput(p, out, src) && Open(env, p.d.s)
    ensures Shaped(p.d.toOurs) && Shaped(out)
    ensures var end := Final(env, ours, InverseAll(p.d.toOurs) + p.d.toTheirs + out, ConflictsOf(p.d.toOurs, p.Info(), p.maps));
            Merges(p, base, ours, theirs, visit, end.0, end.1)
  {
    OutputFits(p, out, src);
    KeysAreFree(p, visit);
    ConcatIsDriven(env, p, out, src);
    if KeysFree(p) {
      MergedByConcat(env, p, out, src);
    }
  }

  /** The changeset between two sides keeps to the tables of the base. */
  lemma DiffOverTables(base: Side, s: Schema, m: Db, es: seq<Entry>)
    requires ValidSide(base) && IsDiff(Tracked(base), base.rows, m, es)
    requires forall t | t in Tracked(base) :: t in s && s[t] == Tracked(base)[t]
    ensures OverSchema(s, es)
  {
    TrackedIsValid(base);
    DiffFits(Tracked(base), base.rows, m, es, Diff.Changed(base.rows, m));
  }

  /** What the driver does with the concatenation, when Rebase succeeded. */
  lemma BothMerge(base: Side, env: Env, tables: seq<Name>, ours: Db, theirs: Db, toTheirs: seq<Entry>, toOurs: seq<Entry>,
                  visit: Visit, maps: KeyMaps, out: seq<Entry>, src: seq<nat>) returns (p: Plan)
    requires Setting(base, env, tables, ours, theirs, toTheirs) && ValidVisit(visit)
    requires IsDiff(Tracked(base), base.rows, ours, toOurs)
    requires AllKeyed(toTheirs) && Rebasable(toOurs, InfoFor(toTheirs)) && forall t | t in InfoFor(toTheirs) :: KeyedIn(toOurs, t)
    requires MapsBuilt(InfoFor(toTheirs), toOurs, VisitOrders(visit, InfoFor(toTheirs), toOurs), maps)
    requires ListsRebased(toOurs, InfoFor(toTheirs), maps, out, src) && Shaped(InverseAll(toOurs) + toTheirs + out)
    ensures var end := Final(env, ours, InverseAll(toOurs) + toTheirs + out, ConflictsOf(toOurs, InfoFor(toTheirs), maps));
            Merges(p, base, ours, theirs, visit, end.0, end.1)
  {
    p := RebasedPlan(base, env, tables, ours, theirs, toTheirs, toOurs, visit, maps, out, src);
    ThirdSituation(base, env, ours, theirs, visit, p, out, src);
  }

  lemma SettingIsKeyed(base: Side, env: Env, tables: seq<Name>, ours: Db, theirs: Db, toTheirs: seq<Entry>)
    requires Setting(base, env, tables, ours, theirs, toTheirs)
    ensures AllKeyed(toTheirs)
  {
    DiffKeyed(Tracked(base), base.rows, theirs, toTheirs);
  }

  lemma ConcatOver(s: Schema, a: seq<Entry>, b: seq<Entry>, c: seq<Entry>)
    requires OverSchema(s, a) && OverSchema(s, b) && OverSchema(s, c)
    ensures OverSchema(s, a + b + c)
  {
  }

  // ----- Three changesets one after the other -----

  /** Undoing ours never fails. */
  lemma UndoStage(base: Side, env: Env, tables: seq<Name>, ours: Db, theirs: Db, toOurs: seq<Entry>)
    requires ValidSide(base) && ValidSide(Side(tables, env.schema, ours)) && Open(env, Tracked(base))
    requires Comparable(base, tables, env.schema, ours, theirs) && IsDiff(Tracked(base), base.rows, ours, toOurs)
    ensures Shaped(toOurs) && ApplyResult(env, ours, InverseAll(toOurs), false) == (Beside(ours, base.rows), Success)
    ensures toOurs == [] ==> ours == base.rows == Beside(ours, base.rows)
  {
    var s := Tracked(base);
    TrackedIsValid(base);
    SameTracked(base, Side(tables, env.schema, ours), theirs);
    InvertDiff(s, base.rows, ours, toOurs);
    DiffApplies(s, ours, base.rows, InverseAll(toOurs));
    BesideItself(ours);
    RunLeads(env, s, ours, ours, InverseAll(toOurs), base.rows);
    DiffEmptyIff(s, base.rows, ours, toOurs);
  }

  /** Applying theirs to the undone database never fails. */
  lemma TheirsStage(base: Side, env: Env, tables: seq<Name>, ours: Db, theirs: Db, toTheirs: seq<Entry>)
    requires Setting(base, env, tables, ours, theirs, toTheirs)
    ensures Shaped(toTheirs) && ApplyResult(env, Beside(ours, base.rows), toTheirs, false) == (Beside(ours, theirs), Success)
    ensures toTheirs == [] ==> theirs == base.rows
  {
    var s := Tracked(base);
    TrackedIsValid(base);
    SameTracked(base, Side(tables, env.schema, ours), theirs);
    DiffApplies(s, base.rows, theirs, toTheirs);
    RunLeads(env, s, ours, base.rows, toTheirs, theirs);
    DiffEmptyIff(s, base.rows, theirs, toTheirs);
  }

  /** The last stage, on top of theirs. */
  lemma LastStage(base: Side, env: Env, ours: Db, theirs: Db, visit: Visit, p: Plan, out: seq<Entry>, src: seq<nat>)
    requires IsPlan(p, base, ours, theirs, visit) && Rewritable(p) && IsOutput(p, out, src) && Open(env, p.d.s)
    requires Shaped(p.d.toOurs) && Shaped(out)
    ensures var end := Final(env, Beside(ours, theirs), out, ConflictsOf(p.d.toOurs, p.Info(), p.maps));
            Merges(p, base, ours, theirs, visit, end.0, end.1)
  {
    KeysAreFree(p, visit);
    LastIsDriven(env, p, out, src);
    if KeysFree(p) {
      LastIsMerged(env, p, out, src);
    }
  }

  /** With free keys the last stage applies in turn and ends in the merge. */
  lemma LastIsMerged(env: Env, p: Plan, out: seq<Entry>, src: seq<nat>)
    requires p.Valid() && KeysFree(p) && Rewritable(p) && IsOutput(p, out, src) && Open(env, p.d.s) && Shaped(out)
    ensures var end := Final(env, Beside(p.d.ours, p.d.theirs), out, ConflictsOf(p.d.toOurs, p.Info(), p.maps));
            MergedAs(p, p.d.ours, end.0, end.1)
  {
    var m := StagesMerge(p, out, src);
    RunLeads(env, p.d.s, p.d.ours, p.d.theirs, out, m);
  }

  /** The rebased changeset of RebaseDirect: ours passes through when theirs has no changes. */
  ghost predicate RebasedFrom(toTheirs: seq<Entry>, toOurs: seq<Entry>, visit: Visit, maps: KeyMaps, out: seq<Entry>, src: seq<nat>, conflicts: seq<ConflictFeature>)
    requires Shaped(toTheirs) && AllKeyed(toTheirs) && Shaped(toOurs)
  {
    && Rebasable(toOurs, InfoFor(toTheirs)) && (forall t | t in InfoFor(toTheirs) :: KeyedIn(toOurs, t))
    && MapsBuilt(InfoFor(toTheirs), toOurs, VisitOrders(visit, InfoFor(toTheirs), toOurs), maps)
    && ListsRebased(toOurs, InfoFor(toTheirs), maps, out, src)
    && conflicts == ConflictsOf(toOurs, InfoFor(toTheirs), maps)
  }

  lemma DirectMerge(base: Side, env: Env, tables: seq<Name>, ours: Db, theirs: Db, toTheirs: seq<Entry>, toOurs: seq<Entry>,
                    visit: Visit, maps: KeyMaps, out: seq<Entry>, src: seq<nat>, conflicts: seq<ConflictFeature>) returns (p: Plan)
    requires Setting(base, env, tables, ours, theirs, toTheirs) && ValidVisit(visit)
    requires IsDiff(Tracked(base), base.rows, ours, toOurs)
    requires AllKeyed(toTheirs) && Shaped(toTheirs) && Shaped(toOurs) && Shaped(out)
    requires RebasedFrom(toTheirs, toOurs, visit, maps, out, src, conflicts)
    ensures var end := FinalUnlessEmpty(env, Beside(ours, theirs), out, conflicts);
            Merges(p, base, ours, theirs, visit, end.0, end.1)
  {
    NothingToApply(env, Tracked(base), Beside(ours, theirs), conflicts);
    p := RebasedPlan(base, env, tables, ours, theirs, toTheirs, toOurs, visit, maps, out, src);
    LastStage(base, env, ours, theirs, visit, p, out, src);
  }

  lemma PassedThrough(toOurs: seq<Entry>, visit: Visit)
    requires Shaped(toOurs)
    ensures RebasedFrom([], toOurs, visit, map[], toOurs, seq(|toOurs|, i => i), [])
  {
    assert InfoFor([]) == map[];
    PassesThrough(toOurs, map[]);
  }

  /** Situation 2 of RebaseEx, with the theirs stage already run. */
  lemma DirectWithoutOurs(base: Side, env: Env, tables: seq<Name>, ours: Db, theirs: Db, toTheirs: seq<Entry>, visit: Visit) returns (p: Plan)
    requires Setting(base, env, tables, ours, theirs, toTheirs) && ValidVisit(visit)
    requires IsDiff(Tracked(base), base.rows, ours, [])
    ensures Merges(p, base, ours, theirs, visit, Beside(ours, theirs), MergedWith([]))
  {
    p := SecondSituation(base, env, tables, ours, theirs, toTheirs, visit);
    UndoStage(base, env, tables, ours, theirs, []);
    TheirsStage(base, env, tables, ours, theirs, toTheirs);
  }

  /** An empty result of Rebase is not applied. */
  lemma NothingToApply(env: Env, s: Schema, db: Db, conflicts: seq<ConflictFeature>)
    requires Open(env, s)
    ensures Final(env, db, [], conflicts) == (db, MergedWith(conflicts))
  {
  }
}
