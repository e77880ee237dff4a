/**
 When the driver succeeds although entries collide, told row by row: an INSERT
 that meets a row is deferred, and applies once a DELETE has made room.
 */
module ApplyRows {
  import opened Values
  import opened Rows
  import opened Apply
  import opened ApplySkips

  // ----- Counting entries of a row -----

  /** How many entries of an operation name the row. */
  ghost function Count(es: seq<Entry>, op: Op, id: RowId): nat
    requires Shaped(es)
  {
    if es == [] then 0
    else Count(es[..|es| - 1], op, id) + if Names(es[|es| - 1], op, id) then 1 else 0
  }

  predicate Names(e: Entry, op: Op, id: RowId)
    requires e.WellShaped()
  {
    e.op == op && IdOf(e) == id
  }

  lemma {:induction false} CountAtLeast(es: seq<Entry>, op: Op, id: RowId, i: int)
    requires Shaped(es) && 0 <= i < |es| && Names(es[i], op, id)
    ensures Count(es, op, id) >= 1
    decreases |es|
  {
    var n := |es| - 1;
    if i < n {
      CountAtLeast(es[..n], op, id, i);
    }
  }

  lemma {:induction false} CountTwo(es: seq<Entry>, op: Op, id: RowId, i: int, j: int)
    requires Shaped(es) && 0 <= i < j < |es| && Names(es[i], op, id) && Names(es[j], op, id)
    ensures Count(es, op, id) >= 2
    decreases |es|
  {
    var n := |es| - 1;
    if j < n {
      CountTwo(es[..n], op, id, i, j);
    } else {
      CountAtLeast(es[..n], op, id, i);
    }
  }

  /** Entries of which no two name the row. */
  lemma {:induction false} CountAtMostOne(es: seq<Entry>, op: Op, id: RowId)
    requires Shaped(es)
    requires forall i, j | 0 <= i < j < |es| && Names(es[i], op, id) :: !Names(es[j], op, id)
    ensures Count(es, op, id) <= 1
    ensures (forall i | 0 <= i < |es| :: !Names(es[i], op, id)) ==> Count(es, op, id) == 0
    decreases |es|
  {
    if es != [] {
      var n := |es| - 1;
      CountAtMostOne(es[..n], op, id);
      if Names(es[n], op, id) {
        assert forall i | 0 <= i < n :: !Names(es[..n][i], op, id);
      }
    }
  }

  function Present(db: Db, id: RowId): nat {
    if id in db then 1 else 0
  }

  predicate NotSkipped(e: Entry) {
    !SkipGpkgTable(e.table.name)
  }

  // ----- One entry -----

  /** In an open database a key-keeping entry of a tracked table does what it does to its row. */
  lemma ChangeByRow(env: Env, s: Schema, db: Db, e: Entry)
    requires ValidSchema(s) && Open(env, s) && DbOver(s, db) && EntryFits(s, e)
    ensures var c, r := ApplyChange(env, db, e), RowStep(e, Get(db, IdOf(e)));
            if !NotSkipped(e) then c == SkippedTable
            else if r.Some? then c == Change.Changed(Put(db, IdOf(e), r.value)) && DbOver(s, c.db)
            else c == if e.op == Insert then Conflicted else Unchanged
  {
    StrictIsRowStep(s, db, e);
    OpenAccepts(env, s, db, e);
  }

  lemma PresentAfter(db: Db, e: Entry, id: RowId)
    requires e.WellShaped() && RowStep(e, Get(db, IdOf(e))).Some?
    ensures var d := Put(db, IdOf(e), RowStep(e, Get(db, IdOf(e))).value);
            Present(d, id) + (if Names(e, Delete, id) then 1 else 0) == Present(db, id) + if Names(e, Insert, id) then 1 else 0
  {
  }

  // ----- What a pass conserves -----

  /** A pass over `es` that counted no failure: what it left is inserts. */
  ghost predicate CleanPass(s: Schema, es: seq<Entry>, p: Pass) {
    && p.error.None? && p.unrecoverable == 0
    && DbOver(s, p.db) && Fits(s, p.pending)
    && forall e | e in p.pending :: e in es && e.op == Insert && NotSkipped(e)
  }

  /** For every tracked row: rows now and inserts pending, and deletions made, balance rows before and inserts. */
  ghost predicate Conserves(db: Db, es: seq<Entry>, p: Pass, id: RowId)
    requires Shaped(es) && Shaped(p.pending)
  {
    Present(p.db, id) + Count(p.pending, Insert, id) + Count(es, Delete, id) == Present(db, id) + Count(es, Insert, id)
  }

  lemma PendingOne(pending: seq<Entry>, e: Entry, op: Op, id: RowId)
    requires Shaped(pending) && e.WellShaped()
    ensures Shaped(pending + [e])
    ensures Count(pending + [e], op, id) == Count(pending, op, id) + if Names(e, op, id) then 1 else 0
  {
    assert (pending + [e])[..|pending + [e]| - 1] == pending;
  }

  lemma {:induction false} FailuresStay(env: Env, db: Db, es: seq<Entry>)
    requires Shaped(es) && es != []
    ensures var p, q := RunPass(env, db, es[..|es| - 1]), RunPass(env, db, es);
            q.error.None? && q.unrecoverable == 0 ==> p.error.None? && p.unrecoverable == 0
  {
  }

  lemma {:induction false} PassIsClean(env: Env, s: Schema, db: Db, es: seq<Entry>)
    requires ValidSchema(s) && Open(env, s) && DbOver(s, db) && Fits(s, es)
    requires RunPass(env, db, es).error.None? && RunPass(env, db, es).unrecoverable == 0
    ensures CleanPass(s, es, RunPass(env, db, es))
    decreases |es|
  {
    if es != [] {
      var init := es[..|es| - 1];
      FailuresStay(env, db, es);
      PassIsClean(env, s, db, init);
      CleanStep(env, s, es, RunPass(env, db, init));
    }
  }

  lemma CleanStep(env: Env, s: Schema, es: seq<Entry>, p: Pass)
    requires ValidSchema(s) && Open(env, s) && es != [] && Fits(s, es) && CleanPass(s, es[..|es| - 1], p)
    requires Advance(env, p, es[|es| - 1]).unrecoverable == 0
    ensures CleanPass(s, es, Advance(env, p, es[|es| - 1]))
  {
    ChangeByRow(env, s, p.db, es[|es| - 1]);
  }

  lemma {:induction false} PassConserves(env: Env, s: Schema, db: Db, es: seq<Entry>, id: RowId)
    requires ValidSchema(s) && Open(env, s) && DbOver(s, db) && Fits(s, es) && !SkipGpkgTable(id.table)
    requires RunPass(env, db, es).error.None? && RunPass(env, db, es).unrecoverable == 0
    ensures CleanPass(s, es, RunPass(env, db, es)) && Conserves(db, es, RunPass(env, db, es), id)
    decreases |es|
  {
    PassIsClean(env, s, db, es);
    if es != [] {
      var init := es[..|es| - 1];
      FailuresStay(env, db, es);
      PassConserves(env, s, db, init, id);
      ConservesStep(env, s, db, es, RunPass(env, db, init), id);
    }
  }

  lemma ConservesStep(env: Env, s: Schema, db: Db, es: seq<Entry>, p: Pass, id: RowId)
    requires ValidSchema(s) && Open(env, s) && es != [] && Fits(s, es) && !SkipGpkgTable(id.table)
    requires CleanPass(s, es[..|es| - 1], p) && Conserves(db, es[..|es| - 1], p, id)
    requires Advance(env, p, es[|es| - 1]).unrecoverable == 0
    ensures Shaped(Advance(env, p, es[|es| - 1]).pending) && Conserves(db, es, Advance(env, p, es[|es| - 1]), id)
  {
    var e := es[|es| - 1];
    ChangeByRow(env, s, p.db, e);
    if NotSkipped(e) {
      if RowStep(e, Get(p.db, IdOf(e))).Some? {
        ConservesApplied(db, es, p, Advance(env, p, e), id);
      } else {
        ConservesPending(db, es, p, Advance(env, p, e), id);
      }
    } else {
      ConservesSkipped(db, es, p, id);
    }
  }

  lemma ConservesApplied(db: Db, es: seq<Entry>, p: Pass, q: Pass, id: RowId)
    requires es != [] && Shaped(es) && Shaped(p.pending) && Conserves(db, es[..|es| - 1], p, id)
    requires var e := es[|es| - 1]; RowStep(e, Get(p.db, IdOf(e))).Some? && q.db == Put(p.db, IdOf(e), RowStep(e, Get(p.db, IdOf(e))).value)
    requires q.pending == p.pending
    ensures Conserves(db, es, q, id)
  {
    CountLast(es, Insert, id);
    CountLast(es, Delete, id);
    PresentAfter(p.db, es[|es| - 1], id);
  }

  lemma ConservesPending(db: Db, es: seq<Entry>, p: Pass, q: Pass, id: RowId)
    requires es != [] && Shaped(es) && Shaped(p.pending) && Conserves(db, es[..|es| - 1], p, id)
    requires es[|es| - 1].op == Insert && q.db == p.db && q.pending == p.pending + [es[|es| - 1]]
    ensures Shaped(q.pending) && Conserves(db, es, q, id)
  {
    CountLast(es, Insert, id);
    CountLast(es, Delete, id);
    PendingOne(p.pending, es[|es| - 1], Insert, id);
  }

  lemma ConservesSkipped(db: Db, es: seq<Entry>, p: Pass, id: RowId)
    requires es != [] && Shaped(es) && Shaped(p.pending) && Conserves(db, es[..|es| - 1], p, id)
    requires !NotSkipped(es[|es| - 1]) && !SkipGpkgTable(id.table)
    ensures Conserves(db, es, p, id)
  {
    CountLast(es, Insert, id);
    CountLast(es, Delete, id);
  }

  lemma CountLast(es: seq<Entry>, op: Op, id: RowId)
    requires Shaped(es) && es != []
    ensures Count(es, op, id) == Count(es[..|es| - 1], op, id) + if Names(es[|es| - 1], op, id) then 1 else 0
  {
  }

  // ----- Retrying inserts -----

  ghost predicate AllInserts(s: Schema, es: seq<Entry>) {
    Fits(s, es) && forall e | e in es :: e.op == Insert && NotSkipped(e)
  }

  lemma {:induction false} NoDeletes(es: seq<Entry>, id: RowId)
    requires Shaped(es) && forall e | e in es :: e.op == Insert
    ensures Count(es, Delete, id) == 0
  {
    forall i | 0 <= i < |es| ensures !Names(es[i], Delete, id) {
      assert es[i] in es;
    }
    CountAtMostOne(es, Delete, id);
  }

  /** Passes over inserts count no failure. */
  lemma {:induction false} InsertsNeverFail(env: Env, s: Schema, db: Db, es: seq<Entry>)
    requires ValidSchema(s) && Open(env, s) && DbOver(s, db) && AllInserts(s, es)
    ensures var p := RunPass(env, db, es);
            p.error.None? && p.unrecoverable == 0 && DbOver(s, p.db) && AllInserts(s, p.pending)
    decreases |es|
  {
    if es != [] {
      var init := es[..|es| - 1];
      assert forall x | x in init :: x in es;
      InsertsNeverFail(env, s, db, init);
      InsertNeverFails(env, s, es[|es| - 1], RunPass(env, db, init));
    }
  }

  lemma InsertNeverFails(env: Env, s: Schema, e: Entry, p: Pass)
    requires ValidSchema(s) && Open(env, s) && EntryFits(s, e) && e.op == Insert && NotSkipped(e)
    requires p.error.None? && p.unrecoverable == 0 && DbOver(s, p.db) && AllInserts(s, p.pending)
    ensures var q := Advance(env, p, e);
            q.error.None? && q.unrecoverable == 0 && DbOver(s, q.db) && AllInserts(s, q.pending)
  {
    ChangeByRow(env, s, p.db, e);
  }

  /** If retrying inserts finishes, each of them has become a row. */
  lemma {:induction false} RetryConserves(env: Env, s: Schema, db: Db, es: seq<Entry>, u: nat, id: RowId)
    requires ValidSchema(s) && Open(env, s) && DbOver(s, db) && AllInserts(s, es) && !SkipGpkgTable(id.table)
    ensures !Retry(env, db, es, u).Aborted?
    ensures Retry(env, db, es, u).Finished? ==>
              Retry(env, db, es, u).unrecoverable == u && Present(Retry(env, db, es, u).db, id) == Present(db, id) + Count(es, Insert, id)
    decreases |es|
  {
    if es != [] {
      var p := RunPass(env, db, es);
      InsertsConserve(env, s, db, es, id);
      InsertsRetry(env, s, db, es, u);
      if |p.pending| < |es| {
        RetryConserves(env, s, p.db, p.pending, u, id);
      }
    }
  }

  lemma InsertsRetry(env: Env, s: Schema, db: Db, es: seq<Entry>, u: nat)
    requires ValidSchema(s) && Open(env, s) && DbOver(s, db) && AllInserts(s, es) && es != []
    ensures var p := RunPass(env, db, es);
            Retry(env, db, es, u) == if |p.pending| == |es| then Stuck else Retry(env, p.db, p.pending, u)
  {
    InsertsNeverFail(env, s, db, es);
    RetryStep(env, db, es, u);
  }

  lemma InsertsConserve(env: Env, s: Schema, db: Db, es: seq<Entry>, id: RowId)
    requires ValidSchema(s) && Open(env, s) && DbOver(s, db) && AllInserts(s, es) && !SkipGpkgTable(id.table)
    ensures var p := RunPass(env, db, es);
            && p.error.None? && p.unrecoverable == 0 && DbOver(s, p.db) && AllInserts(s, p.pending)
            && Present(p.db, id) + Count(p.pending, Insert, id) == Present(db, id) + Count(es, Insert, id)
  {
    InsertsNeverFail(env, s, db, es);
    PassConserves(env, s, db, es, id);
    NoDeletes(es, id);
  }

  /** Every tracked row ends up at most once. */
  ghost predicate Balanced(db: Db, es: seq<Entry>)
    requires Shaped(es)
  {
    forall id: RowId | !SkipGpkgTable(id.table) :: RowBalanced(db, es, id)
  }

  ghost predicate RowBalanced(db: Db, es: seq<Entry>, id: RowId)
    requires Shaped(es)
  {
    Present(db, id) + Count(es, Insert, id) <= 1 + Count(es, Delete, id)
  }

  /** Inserts of tracked tables have a proper key. */
  ghost predicate KeyedInserts(es: seq<Entry>)
    requires Shaped(es)
  {
    forall e | e in es && e.op == Insert && NotSkipped(e) :: e.WellShaped() && KeyDefined(e.table.primaryKeys, e.newValues)
  }

  /** Balanced inserts all apply in one pass. */
  lemma {:induction false} BalancedInsertsApply(env: Env, s: Schema, db: Db, es: seq<Entry>)
    requires ValidSchema(s) && Open(env, s) && DbOver(s, db) && AllInserts(s, es) && KeyedInserts(es) && Balanced(db, es)
    ensures RunPass(env, db, es).pending == []
    decreases |es|
  {
    if es != [] {
      var init, e := es[..|es| - 1], es[|es| - 1];
      assert e in es && forall x | x in init :: x in es;
      forall id: RowId | !SkipGpkgTable(id.table) ensures RowBalanced(db, init, id) {
        assert RowBalanced(db, es, id);
        NoDeletes(es, id);
      }
      BalancedInsertsApply(env, s, db, init);
      InsertsNeverFail(env, s, db, init);
      PassConserves(env, s, db, init, IdOf(e));
      NoDeletes(init, IdOf(e));
      NoDeletes(es, IdOf(e));
      assert RowBalanced(db, es, IdOf(e));
      ChangeByRow(env, s, RunPass(env, db, init).db, e);
    }
  }

  /** Retrying inserts finishes exactly when they are balanced. */
  lemma RetryInsertsIff(env: Env, s: Schema, db: Db, es: seq<Entry>, u: nat)
    requires ValidSchema(s) && Open(env, s) && DbOver(s, db) && AllInserts(s, es) && KeyedInserts(es)
    ensures Balanced(db, es) ==> Retry(env, db, es, u) == Finished(RunPass(env, db, es).db, u)
    ensures !Balanced(db, es) ==> Retry(env, db, es, u) == Stuck
  {
    if Balanced(db, es) {
      BalancedInsertsApply(env, s, db, es);
      InsertsNeverFail(env, s, db, es);
    } else {
      var id: RowId :| !SkipGpkgTable(id.table) && !RowBalanced(db, es, id);
      NoDeletes(es, id);
      RetryConserves(env, s, db, es, u, id);
    }
  }

  // ----- The whole call -----

  /** UPDATEs and DELETEs of tracked tables match their rows, and no two name one row. */
  ghost predicate ChangesMatch(db: Db, es: seq<Entry>)
    requires Shaped(es)
  {
    && (forall i | 0 <= i < |es| && IsChange(es[i]) :: RowStep(es[i], Get(db, IdOf(es[i]))).Some?)
    && (forall i, j | 0 <= i < j < |es| && IsChange(es[i]) && IsChange(es[j]) :: IdOf(es[i]) != IdOf(es[j]))
  }

  predicate IsChange(e: Entry) {
    e.op != Insert && NotSkipped(e)
  }

  ghost predicate Unchanging(es: seq<Entry>, id: RowId)
    requires Shaped(es)
  {
    forall i | 0 <= i < |es| && IsChange(es[i]) :: IdOf(es[i]) != id
  }

  /** Rows that are there and that no UPDATE or DELETE names stay as they are. */
  ghost predicate KeepsRows(db: Db, es: seq<Entry>, d: Db)
    requires Shaped(es)
  {
    forall id: RowId | id in db && Unchanging(es, id) :: Get(d, id) == Get(db, id)
  }

  /** The first pass applies every UPDATE and DELETE. */
  lemma {:induction false} PassAppliesChanges(env: Env, s: Schema, db: Db, es: seq<Entry>)
    requires ValidSchema(s) && Open(env, s) && DbOver(s, db) && Fits(s, es) && ChangesMatch(db, es)
    ensures var p := RunPass(env, db, es);
            p.error.None? && p.unrecoverable == 0 && DbOver(s, p.db) && KeepsRows(db, es, p.db)
    decreases |es|
  {
    if es != [] {
      var init, e := es[..|es| - 1], es[|es| - 1];
      assert es == init + [e];
      ChangesOfInit(db, init, e);
      PassAppliesChanges(env, s, db, init);
      ChangeApplies(env, s, db, init, e, RunPass(env, db, init));
    }
  }

  lemma ChangeApplies(env: Env, s: Schema, db: Db, init: seq<Entry>, e: Entry, p: Pass)
    requires ValidSchema(s) && Open(env, s) && Shaped(init) && EntryFits(s, e)
    requires p.error.None? && p.unrecoverable == 0 && DbOver(s, p.db) && KeepsRows(db, init, p.db)
    requires IsChange(e) ==> Unchanging(init, IdOf(e)) && IdOf(e) in db && RowStep(e, Get(db, IdOf(e))).Some?
    ensures Shaped(init + [e])
    ensures var q := Advance(env, p, e);
            q.error.None? && q.unrecoverable == 0 && DbOver(s, q.db) && KeepsRows(db, init + [e], q.db)
  {
    var q := Advance(env, p, e);
    if IsChange(e) {
      assert Get(p.db, IdOf(e)) == Get(db, IdOf(e));
    }
    ChangeByRow(env, s, p.db, e);
    forall id: RowId | id in db && Unchanging(init + [e], id) ensures Get(q.db, id) == Get(db, id) {
      UnchangingInit(init, e, id);
      assert Get(p.db, id) == Get(db, id);
    }
  }

  lemma UnchangingInit(init: seq<Entry>, e: Entry, id: RowId)
    requires Shaped(init + [e]) && Shaped(init) && e.WellShaped()
    ensures Unchanging(init + [e], id) <==> Unchanging(init, id) && (IsChange(e) ==> IdOf(e) != id)
  {
    var es := init + [e];
    assert es[|init|] == e && forall i | 0 <= i < |init| :: es[i] == init[i];
    if Unchanging(es, id) {
      forall i | 0 <= i < |init| && IsChange(init[i]) ensures IdOf(init[i]) != id {
        assert es[i] == init[i];
      }
    }
  }

  lemma ChangesOfInit(db: Db, init: seq<Entry>, e: Entry)
    requires Shaped(init + [e]) && Shaped(init) && e.WellShaped() && ChangesMatch(db, init + [e])
    ensures ChangesMatch(db, init)
    ensures IsChange(e) ==> Unchanging(init, IdOf(e)) && IdOf(e) in db && RowStep(e, Get(db, IdOf(e))).Some?
  {
    var es := init + [e];
    assert es[|init|] == e && forall i | 0 <= i < |init| :: es[i] == init[i];
  }

  lemma PendingBalanced(env: Env, s: Schema, db: Db, es: seq<Entry>)
    requires ValidSchema(s) && Open(env, s) && DbOver(s, db) && Fits(s, es) && ChangesMatch(db, es)
    ensures Shaped(RunPass(env, db, es).pending)
    ensures Balanced(RunPass(env, db, es).db, RunPass(env, db, es).pending) <==> Balanced(db, es)
    ensures CleanPass(s, es, RunPass(env, db, es)) && AllInserts(s, RunPass(env, db, es).pending)
  {
    var p := RunPass(env, db, es);
    PassAppliesChanges(env, s, db, es);
    PassConserves(env, s, db, es, RowId([], []));
    forall id: RowId | !SkipGpkgTable(id.table) ensures RowBalanced(p.db, p.pending, id) <==> RowBalanced(db, es, id) {
      PassConserves(env, s, db, es, id);
      NoDeletes(p.pending, id);
    }
  }

  /** The database a balanced call ends in. */
  ghost function Ended(env: Env, db: Db, es: seq<Entry>): Db
    requires Shaped(es)
  {
    var p := RunPass(env, db, es);
    RunPass(env, p.db, p.pending).db
  }

  /**
   With primary keys as the only constraint, and UPDATEs and DELETEs that match
   their rows, the call succeeds exactly when every tracked row would end up at
   most once: the row that was there, the inserts of it, less its deletion.
   */
  lemma DriverSucceedsIff(env: Env, s: Schema, db: Db, es: seq<Entry>)
    requires ValidSchema(s) && Open(env, s) && DbOver(s, db) && Fits(s, es) && ChangesMatch(db, es) && KeyedInserts(es)
    ensures ApplyResult(env, db, es, false) ==
            if Balanced(db, es) then (Ended(env, db, es), Success) else (db, Failure(UnresolvedDependencies))
  {
    var p := RunPass(env, db, es);
    PassAppliesChanges(env, s, db, es);
    PendingBalanced(env, s, db, es);
    RetryInsertsIff(env, s, p.db, p.pending, 0);
  }

  // ----- What becomes of every row -----

  /** No two inserts of tracked tables name one row. */
  ghost predicate InsertsApart(es: seq<Entry>)
    requires Shaped(es)
  {
    forall i, j | 0 <= i < j < |es| && IsInsert(es[i]) && IsInsert(es[j]) :: IdOf(es[i]) != IdOf(es[j])
  }

  predicate IsInsert(e: Entry) {
    e.op == Insert && NotSkipped(e)
  }

  ghost predicate Uninserted(es: seq<Entry>, id: RowId)
    requires Shaped(es)
  {
    forall i | 0 <= i < |es| && IsInsert(es[i]) :: IdOf(es[i]) != id
  }

  /** A row no entry names stays; one that is only changed is what its entry makes of it; skipped tables stay. */
  ghost predicate OthersDone(db: Db, es: seq<Entry>, d: Db)
    requires Shaped(es)
  {
    && (forall id: RowId | SkipGpkgTable(id.table) || (Uninserted(es, id) && Unchanging(es, id)) :: Get(d, id) == Get(db, id))
    && (forall i | 0 <= i < |es| && IsChange(es[i]) && Uninserted(es, IdOf(es[i])) ::
          RowStep(es[i], Get(db, IdOf(es[i]))) == Some(Get(d, IdOf(es[i]))))
  }

  /** An insert is a row, or still pending, which it is as long as its row is there unchanged. */
  ghost predicate InsertsDone(db: Db, es: seq<Entry>, d: Db, pending: seq<Entry>)
    requires Shaped(es)
  {
    forall i | 0 <= i < |es| && IsInsert(es[i]) :: InsertDone(db, es, i, d, pending)
  }

  ghost predicate InsertDone(db: Db, es: seq<Entry>, i: int, d: Db, pending: seq<Entry>)
    requires Shaped(es) && 0 <= i < |es| && IsInsert(es[i])
  {
    && (es[i] in pending || Get(d, IdOf(es[i])) == Some(Stored(es[i].newValues)))
    && (IdOf(es[i]) in db && Unchanging(es, IdOf(es[i])) ==> es[i] in pending)
  }

  lemma UninsertedInit(init: seq<Entry>, e: Entry, id: RowId)
    requires Shaped(init + [e]) && Shaped(init) && e.WellShaped()
    ensures Uninserted(init + [e], id) <==> Uninserted(init, id) && (IsInsert(e) ==> IdOf(e) != id)
  {
    var es := init + [e];
    assert es[|init|] == e && forall i | 0 <= i < |init| :: es[i] == init[i];
    if Uninserted(es, id) {
      forall i | 0 <= i < |init| && IsInsert(init[i]) ensures IdOf(init[i]) != id {
        assert es[i] == init[i];
      }
    }
  }

  lemma InsertsOfInit(init: seq<Entry>, e: Entry)
    requires Shaped(init + [e]) && Shaped(init) && e.WellShaped() && InsertsApart(init + [e])
    ensures InsertsApart(init) && (IsInsert(e) ==> Uninserted(init, IdOf(e)))
  {
    var es := init + [e];
    assert es[|init|] == e && forall i | 0 <= i < |init| :: es[i] == init[i];
  }

  /** What one entry does to the pass: its own row alone, by RowStep, or nothing. */
  ghost predicate StepOf(e: Entry, p: Pass, q: Pass)
    requires e.WellShaped()
  {
    var r := RowStep(e, Get(p.db, IdOf(e)));
    if NotSkipped(e) && r.Some? then q.db == Put(p.db, IdOf(e), r.value) && q.pending == p.pending
    else q.db == p.db && q.pending == if IsInsert(e) then p.pending + [e] else p.pending
  }

  lemma AdvanceIsStep(env: Env, s: Schema, e: Entry, p: Pass)
    requires ValidSchema(s) && Open(env, s) && EntryFits(s, e) && p.error.None? && DbOver(s, p.db)
    ensures StepOf(e, p, Advance(env, p, e))
  {
    ChangeByRow(env, s, p.db, e);
  }

  lemma OthersStep(db: Db, init: seq<Entry>, e: Entry, p: Pass, q: Pass)
    requires Shaped(init) && e.WellShaped() && StepOf(e, p, q) && OthersDone(db, init, p.db)
    requires IsChange(e) ==> Unchanging(init, IdOf(e)) && RowStep(e, Get(db, IdOf(e))).Some?
    ensures Shaped(init + [e]) && OthersDone(db, init + [e], q.db)
  {
    var es := init + [e];
    forall id: RowId | SkipGpkgTable(id.table) || (Uninserted(es, id) && Unchanging(es, id)) ensures Get(q.db, id) == Get(db, id) {
      UninsertedInit(init, e, id);
      UnchangingInit(init, e, id);
    }
    forall i | 0 <= i < |es| && IsChange(es[i]) && Uninserted(es, IdOf(es[i]))
      ensures RowStep(es[i], Get(db, IdOf(es[i]))) == Some(Get(q.db, IdOf(es[i])))
    {
      UninsertedInit(init, e, IdOf(es[i]));
      if i < |init| {
        assert es[i] == init[i];
        assert IdOf(e) != IdOf(init[i]) || !NotSkipped(e);
      } else {
        assert Get(p.db, IdOf(e)) == Get(db, IdOf(e));
      }
    }
  }

  lemma InsertsStep(db: Db, init: seq<Entry>, e: Entry, p: Pass, q: Pass)
    requires Shaped(init) && e.WellShaped() && StepOf(e, p, q)
    requires InsertsDone(db, init, p.db, p.pending) && KeepsRows(db, init, p.db)
    requires IsChange(e) ==> Unchanging(init, IdOf(e)) && IdOf(e) in db
    requires IsInsert(e) ==> Uninserted(init, IdOf(e)) && KeyDefined(e.table.primaryKeys, e.newValues)
    ensures Shaped(init + [e]) && InsertsDone(db, init + [e], q.db, q.pending)
  {
    var es := init + [e];
    forall i | 0 <= i < |es| && IsInsert(es[i]) ensures InsertDone(db, es, i, q.db, q.pending) {
      UnchangingInit(init, e, IdOf(es[i]));
      if i < |init| {
        assert es[i] == init[i] && InsertDone(db, init, i, p.db, p.pending);
        assert forall x | x in p.pending :: x in q.pending;
      } else if RowStep(e, Get(p.db, IdOf(e))).None? {
        assert q.pending[|p.pending|] == e;
      }
    }
  }

  ghost predicate PassDone(s: Schema, db: Db, es: seq<Entry>, p: Pass)
    requires Shaped(es)
  {
    && p.error.None? && DbOver(s, p.db) && KeepsRows(db, es, p.db)
    && OthersDone(db, es, p.db) && InsertsDone(db, es, p.db, p.pending)
  }

  lemma {:induction false} PassIsDone(env: Env, s: Schema, db: Db, es: seq<Entry>)
    requires ValidSchema(s) && Open(env, s) && DbOver(s, db) && Fits(s, es)
    requires ChangesMatch(db, es) && KeyedInserts(es) && InsertsApart(es)
    ensures PassDone(s, db, es, RunPass(env, db, es))
    decreases |es|
  {
    PassAppliesChanges(env, s, db, es);
    if es != [] {
      var init, e := es[..|es| - 1], es[|es| - 1];
      assert es == init + [e] && e in es;
      ChangesOfInit(db, init, e);
      InsertsOfInit(init, e);
      PassIsDone(env, s, db, init);
      var p := RunPass(env, db, init);
      AdvanceIsStep(env, s, e, p);
      OthersStep(db, init, e, p, RunPass(env, db, es));
      InsertsStep(db, init, e, p, RunPass(env, db, es));
    }
  }

  /** Every insert is a row; every other row is what its UPDATE or DELETE makes of it, or as it was. */
  ghost predicate Reached(db: Db, es: seq<Entry>, d: Db)
    requires Shaped(es)
  {
    OthersDone(db, es, d) && forall i | 0 <= i < |es| && IsInsert(es[i]) :: Get(d, IdOf(es[i])) == Some(Stored(es[i].newValues))
  }

  lemma DeletesMatch(db: Db, es: seq<Entry>, id: RowId)
    requires Shaped(es) && ChangesMatch(db, es) && !SkipGpkgTable(id.table)
    ensures Count(es, Delete, id) <= Present(db, id)
  {
    CountAtMostOne(es, Delete, id);
    if i :| 0 <= i < |es| && Names(es[i], Delete, id) {
      assert IsChange(es[i]) && RowStep(es[i], Get(db, id)).Some?;
    }
  }

  /** In a balanced changeset no two inserts name one row. */
  lemma BalancedInsertsApart(db: Db, es: seq<Entry>)
    requires Shaped(es) && ChangesMatch(db, es) && Balanced(db, es)
    ensures InsertsApart(es)
  {
    forall i, j | 0 <= i < j < |es| && IsInsert(es[i]) && IsInsert(es[j]) ensures IdOf(es[i]) != IdOf(es[j]) {
      var id := IdOf(es[i]);
      assert RowBalanced(db, es, id);
      DeletesMatch(db, es, id);
      if IdOf(es[j]) == id {
        CountTwo(es, Insert, id, i, j);
      }
    }
  }

  lemma InsertsMatch(db: Db, es: seq<Entry>)
    requires Shaped(es) && forall e | e in es :: e.op == Insert
    ensures ChangesMatch(db, es) && forall id :: Unchanging(es, id)
  {
    forall i | 0 <= i < |es| ensures !IsChange(es[i]) {
      assert es[i] in es;
    }
  }

  /** The retry pass leaves alone what the first pass reached, and adds the inserts that were pending. */
  lemma RetryReaches(db: Db, es: seq<Entry>, d1: Db, pending: seq<Entry>, d: Db)
    requires Shaped(es) && Shaped(pending) && InsertsApart(es)
    requires OthersDone(db, es, d1) && InsertsDone(db, es, d1, pending)
    requires forall e | e in pending :: e in es && IsInsert(e)
    requires Reached(d1, pending, d) && forall id :: Unchanging(pending, id)
    ensures Reached(db, es, d)
  {
    forall id: RowId | SkipGpkgTable(id.table) || Uninserted(es, id) ensures Get(d, id) == Get(d1, id) {
      NotPending(es, pending, id);
    }
    forall i | 0 <= i < |es| && IsInsert(es[i]) ensures Get(d, IdOf(es[i])) == Some(Stored(es[i].newValues)) {
      assert InsertDone(db, es, i, d1, pending);
      if es[i] in pending {
        var k :| 0 <= k < |pending| && pending[k] == es[i];
      } else {
        AppliedNotPending(es, pending, i);
      }
    }
  }

  lemma NotPending(es: seq<Entry>, pending: seq<Entry>, id: RowId)
    requires Shaped(es) && Shaped(pending) && forall e | e in pending :: e in es && IsInsert(e)
    ensures Uninserted(es, id) ==> Uninserted(pending, id)
  {
    forall k | 0 <= k < |pending| && Uninserted(es, id) ensures IdOf(pending[k]) != id {
      assert pending[k] in pending;
      var i :| 0 <= i < |es| && es[i] == pending[k];
    }
  }

  lemma AppliedNotPending(es: seq<Entry>, pending: seq<Entry>, i: int)
    requires Shaped(es) && Shaped(pending) && InsertsApart(es) && forall e | e in pending :: e in es && IsInsert(e)
    requires 0 <= i < |es| && IsInsert(es[i]) && es[i] !in pending
    ensures Uninserted(pending, IdOf(es[i]))
  {
    forall k | 0 <= k < |pending| ensures IdOf(pending[k]) != IdOf(es[i]) {
      assert pending[k] in pending;
      var j :| 0 <= j < |es| && es[j] == pending[k];
      assert i < j || j < i;
    }
  }

  lemma PendingReached(env: Env, s: Schema, db: Db, es: seq<Entry>)
    requires ValidSchema(s) && Open(env, s) && DbOver(s, db) && AllInserts(s, es) && KeyedInserts(es) && Balanced(db, es)
    ensures Reached(db, es, RunPass(env, db, es).db)
  {
    InsertsMatch(db, es);
    BalancedInsertsApart(db, es);
    PassIsDone(env, s, db, es);
    BalancedInsertsApply(env, s, db, es);
    forall i | 0 <= i < |es| && IsInsert(es[i]) ensures Get(RunPass(env, db, es).db, IdOf(es[i])) == Some(Stored(es[i].newValues)) {
      assert InsertDone(db, es, i, RunPass(env, db, es).db, []);
    }
  }

  /** Where a balanced call ends. */
  lemma DriverReaches(env: Env, s: Schema, db: Db, es: seq<Entry>)
    requires ValidSchema(s) && Open(env, s) && DbOver(s, db) && Fits(s, es) && ChangesMatch(db, es) && KeyedInserts(es)
    requires Balanced(db, es)
    ensures Reached(db, es, Ended(env, db, es))
  {
    var p := RunPass(env, db, es);
    BalancedInsertsApart(db, es);
    PassIsDone(env, s, db, es);
    PendingBalanced(env, s, db, es);
    InsertsMatch(p.db, p.pending);
    PendingReached(env, s, p.db, p.pending);
    RetryReaches(db, es, p.db, p.pending, Ended(env, db, es));
  }

  // ----- After entries that apply in turn -----

  lemma {:induction false} RunPassConcat(env: Env, db: Db, es: seq<Entry>, fs: seq<Entry>, d: Db)
    requires Shaped(es) && Shaped(fs) && RunPass(env, db, es) == Pass(d, [], 0, None)
    ensures Shaped(es + fs) && RunPass(env, db, es + fs) == RunPass(env, d, fs)
    decreases |fs|
  {
    if fs == [] {
      assert es + fs == es;
    } else {
      var init := fs[..|fs| - 1];
      assert (es + fs)[..|es + fs| - 1] == es + init;
      RunPassConcat(env, db, es, init, d);
    }
  }

  /** A beginning that applies in turn matters to the call only by the state it reaches, except on failure. */
  lemma ResultAfter(env: Env, db: Db, es: seq<Entry>, fs: seq<Entry>, d: Db)
    requires Shaped(es) && Shaped(fs) && RunPass(env, db, es) == Pass(d, [], 0, None)
    ensures Shaped(es + fs)
    ensures var r := ApplyResult(env, d, fs, false);
            ApplyResult(env, db, es + fs, false) == (if r.1.Success? then r.0 else db, r.1)
  {
    RunPassConcat(env, db, es, fs, d);
    AfterPassFrom(env, db, d, RunPass(env, d, fs));
  }

  lemma AfterPassFrom(env: Env, db: Db, d: Db, p: Pass)
    requires Shaped(p.pending)
    ensures var r := AfterPass(env, d, p, false);
            AfterPass(env, db, p, false) == (if r.1.Success? then r.0 else db, r.1)
  {
  }
}
