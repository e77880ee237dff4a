/** RebaseDirect (driver/rebase.go): ours undone, theirs applied, what is left of ours applied, by way of changeset files. */
module RebaseStages {
  import opened Values
  import opened Rows
  import opened Diff
  import opened Invert
  import opened KeyMapping
  import opened RebaseRules
  import opened RebaseKeys
  import opened RebaseMerge
  import opened RebaseDriver
  import opened RebaseWidth
  import opened Apply
  import opened ApplySkips
  import opened Pipeline
  import opened Wire
  import opened Elision
  import opened RebaseFiles

  /** Where stages 1 and 2 can leave the database: ours undone, and theirs applied to that. */
  ghost predicate StageOf(env: Env, base: Side, ours: Db, theirs: Db, toOurs: seq<Entry>, toTheirs: seq<Entry>, db: Db) {
    && IsDiff(Tracked(base), base.rows, ours, toOurs)
    && var undone := Onto(env, ours, InverseAll(toOurs));
       db == undone || (IsDiff(Tracked(base), base.rows, theirs, toTheirs) && db == Onto(env, undone, toTheirs))
  }

  /** A run that failed stopped after one of the stages, with nothing half done. */
  ghost predicate StoppedBetween(env: Env, base: Side, ours: Db, theirs: Db, db: Db) {
    db == ours || exists toOurs, toTheirs :: StageOf(env, base, ours, theirs, toOurs, toTheirs, db)
  }

  lemma StageReached(env: Env, base: Side, ours: Db, theirs: Db, toOurs: seq<Entry>, toTheirs: seq<Entry>, db: Db)
    requires IsDiff(Tracked(base), base.rows, ours, toOurs) && IsDiff(Tracked(base), base.rows, theirs, toTheirs)
    requires db == Onto(env, Onto(env, ours, InverseAll(toOurs)), toTheirs)
    ensures StageOf(env, base, ours, theirs, toOurs, toTheirs, db)
  {
  }

  // ----- What the stages answer, on any input -----

  /** A stage that calls the driver reports the call's failure and leaves what the call leaves. */
  ghost predicate CallReported(call: (Db, Result), error: Option<MergeError>, db: Db) {
    && db == call.0
    && (error.None? <==> call.1 == Success)
    && (error.Some? ==> error == Some(CannotApply(call.1.error)))
  }

  ghost predicate Incomparable(error: Option<MergeError>) {
    error.Some? && error.value.CannotDiff?
  }

  /** Stage 1. */
  ghost predicate RanOne(base: Side, mine: Side, env: Env, toOurs: seq<Entry>, error: Option<MergeError>, db: Db)
    requires ValidSide(base) && ValidSide(mine)
  {
    if !SameTables(base, mine) then Incomparable(error) && db == mine.rows
    else IsDiff(Tracked(base), base.rows, mine.rows, toOurs) && CallReported(Called(env, mine.rows, InverseAll(toOurs)), error, db)
  }

  /** Stage 2, on what stage 1 left. */
  ghost predicate RanTwo(base: Side, theirs: Side, env: Env, undone: Db, toTheirs: seq<Entry>, error: Option<MergeError>, db: Db)
    requires ValidSide(base) && ValidSide(theirs)
  {
    if !SameTables(base, theirs) then Incomparable(error) && db == undone
    else IsDiff(Tracked(base), base.rows, theirs.rows, toTheirs) && CallReported(Called(env, undone, toTheirs), error, db)
  }

  /** What a run worked with: how the first two stages ended, the changesets, and the rebased one. */
  datatype Stages = Stages(undoError: Option<MergeError>, undone: Db, toOurs: seq<Entry>,
                           theirError: Option<MergeError>, reached: Db, toTheirs: seq<Entry>,
                           maps: KeyMaps, out: seq<Entry>, src: seq<nat>)

  /** Stage 3, on what stage 2 left. */
  ghost predicate RanThree(env: Env, visit: Visit, w: Stages, after: Db, r: MergeResult)
    requires Shaped(w.toOurs) && Shaped(w.toTheirs)
  {
    if w.toOurs == [] then r == MergedWith([]) && after == w.reached
    else
      && AllKeyed(w.toTheirs) && Shaped(w.out)
      && exists conflicts ::
           && RebasedFrom(w.toTheirs, w.toOurs, visit, w.maps, w.out, w.src, conflicts)
           && Answers(Called(env, w.reached, w.out), conflicts, after, r)
  }

  ghost predicate RanDirect(base: Side, mine: Side, theirs: Side, env: Env, visit: Visit, w: Stages, after: Db, r: MergeResult)
    requires ValidSide(base) && ValidSide(mine) && ValidSide(theirs)
  {
    && RanOne(base, mine, env, w.toOurs, w.undoError, w.undone)
    && if w.undoError.Some? then r == MergeFailed(w.undoError.value) && after == w.undone
       else RanOnUndone(base, theirs, env, visit, w, after, r)
  }

  ghost predicate RanOnUndone(base: Side, theirs: Side, env: Env, visit: Visit, w: Stages, after: Db, r: MergeResult)
    requires ValidSide(base) && ValidSide(theirs) && Shaped(w.toOurs)
  {
    && RanTwo(base, theirs, env, w.undone, w.toTheirs, w.theirError, w.reached)
    && if w.theirError.Some? then r == MergeFailed(w.theirError.value) && after == w.reached
       else RanThree(env, visit, w, after, r)
  }

  /**
   RebaseDirect reports a merge exactly when both pairs of databases can be
   compared and the driver accepted every stage that has changes.
   */
  lemma DirectSucceedsIff(base: Side, mine: Side, theirs: Side, env: Env, visit: Visit, w: Stages, after: Db, r: MergeResult)
    requires ValidSide(base) && ValidSide(mine) && ValidSide(theirs) && RanDirect(base, mine, theirs, env, visit, w, after, r)
    ensures r.MergedWith? <==> SameTables(base, mine) && SameTables(base, theirs) && StagesTook(env, mine.rows, w).Some?
    ensures r.MergedWith? ==> StagesTook(env, mine.rows, w) == Some(after)
  {
    OneSucceedsIff(base, mine, env, w.toOurs, w.undoError, w.undone);
    if w.undoError.None? {
      UndoneSucceedsIff(base, theirs, env, visit, w, after, r);
    }
  }

  lemma UndoneSucceedsIff(base: Side, theirs: Side, env: Env, visit: Visit, w: Stages, after: Db, r: MergeResult)
    requires ValidSide(base) && ValidSide(theirs) && Shaped(w.toOurs) && RanOnUndone(base, theirs, env, visit, w, after, r)
    ensures r.MergedWith? <==> SameTables(base, theirs) && RestTook(env, w.undone, w).Some?
    ensures r.MergedWith? ==> RestTook(env, w.undone, w) == Some(after)
  {
    TwoSucceedsIff(base, theirs, env, w.undone, w.toTheirs, w.theirError, w.reached);
    if w.theirError.None? {
      ThreeSucceedsIff(env, visit, w, after, r);
    }
  }

  /** What the inverse of the entries, and what the entries, make of a database if the driver accepts them. */
  ghost function UndoTook(env: Env, db: Db, es: seq<Entry>): Option<Db> {
    if Shaped(es) then TakenFrom(Called(env, db, InverseAll(es))) else None
  }

  ghost function ChangesTook(env: Env, db: Db, es: seq<Entry>): Option<Db> {
    if Shaped(es) then TakenFrom(Called(env, db, es)) else None
  }

  lemma OneSucceedsIff(base: Side, mine: Side, env: Env, toOurs: seq<Entry>, error: Option<MergeError>, db: Db)
    requires ValidSide(base) && ValidSide(mine) && RanOne(base, mine, env, toOurs, error, db)
    ensures error.None? <==> SameTables(base, mine) && UndoTook(env, mine.rows, toOurs).Some?
    ensures error.None? ==> UndoTook(env, mine.rows, toOurs) == Some(db)
  {
  }

  lemma TwoSucceedsIff(base: Side, theirs: Side, env: Env, undone: Db, toTheirs: seq<Entry>, error: Option<MergeError>, db: Db)
    requires ValidSide(base) && ValidSide(theirs) && RanTwo(base, theirs, env, undone, toTheirs, error, db)
    ensures error.None? <==> SameTables(base, theirs) && ChangesTook(env, undone, toTheirs).Some?
    ensures error.None? ==> ChangesTook(env, undone, toTheirs) == Some(db)
  {
  }

  lemma ThreeSucceedsIff(env: Env, visit: Visit, w: Stages, after: Db, r: MergeResult)
    requires Shaped(w.toOurs) && Shaped(w.toTheirs) && RanThree(env, visit, w, after, r)
    ensures r.MergedWith? <==> LastTook(env, w.reached, w).Some?
    ensures r.MergedWith? ==> LastTook(env, w.reached, w) == Some(after)
  {
  }

  ghost function LastTook(env: Env, reached: Db, w: Stages): Option<Db> {
    if w.toOurs == [] then Some(reached) else ChangesTook(env, reached, w.out)
  }

  /** What undoing ours, applying theirs and applying the rebased changeset make of ours, if the driver accepts each on what the one before left. */
  ghost function StagesTook(env: Env, ours: Db, w: Stages): Option<Db> {
    match UndoTook(env, ours, w.toOurs)
    case None => None
    case Some(undone) => RestTook(env, undone, w)
  }

  ghost function RestTook(env: Env, undone: Db, w: Stages): Option<Db> {
    match ChangesTook(env, undone, w.toTheirs)
    case None => None
    case Some(reached) => LastTook(env, reached, w)
  }

  lemma OntoChanges(env: Env, db: Db, es: seq<Entry>)
    requires Shaped(es)
    ensures es == [] ==> Onto(env, db, es) == db && Onto(env, db, InverseAll(es)) == db
    ensures es != [] ==> Onto(env, db, es) == ApplyResult(env, db, es, false).0
    ensures es != [] ==> Onto(env, db, InverseAll(es)) == ApplyResult(env, db, InverseAll(es), false).0
  {
    assert |InverseAll(es)| == |es|;
  }

  /** A file that is complete and empty only if it has no entries, applied. */
  method ApplyWhole(ghost s: Schema, driver: SqliteDriver, file: seq<byte>) returns (r: Result)
    requires OverSchema(s, Read(file).entries) && Read(file).complete && (file == [] <==> Read(file).entries == [])
    modifies driver`db
    ensures driver.db == Onto(driver.env, old(driver.db), Read(file).entries)
    ensures (driver.db, r) == Called(driver.env, old(driver.db), Read(file).entries)
  {
    r := ApplyFile(s, driver, file);
    OntoChanges(driver.env, old(driver.db), Read(file).entries);
  }

  /** The last such file of a merge, as the caller sees it. */
  method ApplyLast(ghost s: Schema, driver: SqliteDriver, file: seq<byte>, conflicts: seq<ConflictFeature>) returns (r: MergeResult)
    requires OverSchema(s, Read(file).entries) && Read(file).complete && (file == [] <==> Read(file).entries == [])
    modifies driver`db
    ensures r.MergeFailed? ==> driver.db == old(driver.db)
    ensures (driver.db, r) == FinalUnlessEmpty(driver.env, old(driver.db), Read(file).entries, conflicts)
    ensures Answers(Called(driver.env, old(driver.db), Read(file).entries), conflicts, driver.db, r)
  {
    var applied := ApplyFile(s, driver, file);
    r := AsMerge(applied, conflicts);
  }

  /** Inverts a file that holds changes and applies the inverse. */
  method UndoFile(ghost s: Schema, driver: SqliteDriver, file: seq<byte>) returns (r: Result)
    requires Storable(s, Read(file).entries) && Read(file).complete && Read(file).entries != []
    modifies driver`db
    ensures (driver.db, r) == Called(driver.env, old(driver.db), InverseAll(Read(file).entries))
    ensures driver.db == Onto(driver.env, old(driver.db), InverseAll(Read(file).entries))
  {
    OntoChanges(driver.env, driver.db, Read(file).entries);
    InverseIsStorable(s, Read(file).entries);
    StorableReadsBack(s, InverseAll(Read(file).entries));
    var inverse := InvertChangeset(file);
    EmptyFile();
    r := ApplyFile(s, driver, inverse.value);
  }

  // ----- The stages -----

  /** Stage 1: ours undone. */
  method UndoOurs(base: Side, tables: seq<Name>, driver: SqliteDriver) returns (error: Option<MergeError>, baseOurs: seq<byte>)
    requires ValidSide(base) && ValidSide(Side(tables, driver.env.schema, driver.db))
    requires TablesFit(Tracked(base)) && RowsFit(base.rows) && RowsFit(driver.db)
    modifies driver`db
    ensures RanOne(base, Side(tables, driver.env.schema, old(driver.db)), driver.env, Read(baseOurs).entries, error, driver.db)
    ensures error.None? ==> HoldsDiff(Tracked(base), base, old(driver.db), baseOurs)
  {
    var failed;
    failed, baseOurs := MakeFile(Tracked(base), base, Side(tables, driver.env.schema, driver.db));
    if failed.Some? {
      return Some(CannotDiff(failed.value)), [];
    }
    error := None;
    if baseOurs != [] {
      var undone := UndoFile(Tracked(base), driver, baseOurs);
      if undone.Failure? {
        error := Some(CannotApply(undone.error));
      }
    }
  }

  /** Stage 2: the changeset to theirs, made and applied. */
  method ApplyTheirs(base: Side, theirs: Side, driver: SqliteDriver) returns (error: Option<MergeError>, baseTheirs: seq<byte>)
    requires ValidSide(base) && ValidSide(theirs)
    requires TablesFit(Tracked(base)) && RowsFit(base.rows) && RowsFit(theirs.rows)
    modifies driver`db
    ensures RanTwo(base, theirs, driver.env, old(driver.db), Read(baseTheirs).entries, error, driver.db)
    ensures error.None? ==> HoldsDiff(Tracked(base), base, theirs.rows, baseTheirs)
  {
    var failed;
    failed, baseTheirs := MakeFile(Tracked(base), base, theirs);
    if failed.Some? {
      return Some(CannotDiff(failed.value)), [];
    }
    var applied := ApplyWhole(Tracked(base), driver, baseTheirs);
    error := if applied.Failure? then Some(CannotApply(applied.error)) else None;
  }

  /** The first two stages, as far as they went. */
  ghost predicate RanTwice(base: Side, mine: Side, theirs: Side, env: Env, w: Stages, error: Option<MergeError>, db: Db)
    requires ValidSide(base) && ValidSide(mine) && ValidSide(theirs)
  {
    && RanOne(base, mine, env, w.toOurs, w.undoError, w.undone)
    && if w.undoError.Some? then error == w.undoError && db == w.undone
       else RanTwo(base, theirs, env, w.undone, w.toTheirs, w.theirError, w.reached) && error == w.theirError && db == w.reached
  }

  /** Stages 1 and 2: ours undone, theirs applied, with the files made on the way. */
  method UndoAndApply(base: Side, theirs: Side, tables: seq<Name>, driver: SqliteDriver)
    returns (error: Option<MergeError>, baseOurs: seq<byte>, baseTheirs: seq<byte>, ghost w: Stages)
    requires ValidSide(base) && ValidSide(theirs) && ValidSide(Side(tables, driver.env.schema, driver.db))
    requires TablesFit(Tracked(base)) && RowsFit(base.rows) && RowsFit(driver.db) && RowsFit(theirs.rows)
    modifies driver`db
    ensures RanTwice(base, Side(tables, driver.env.schema, old(driver.db)), theirs, driver.env, w, error, driver.db)
    ensures error.None? ==>
              && HoldsDiff(Tracked(base), base, old(driver.db), baseOurs) && w.toOurs == Read(baseOurs).entries
              && HoldsDiff(Tracked(base), base, theirs.rows, baseTheirs) && w.toTheirs == Read(baseTheirs).entries
    ensures TwiceInSetting(base, theirs, driver.env, tables, old(driver.db), error, driver.db)
  {
    ghost var ours, mine := driver.db, Side(tables, driver.env.schema, driver.db);
    baseTheirs := [];
    error, baseOurs := UndoOurs(base, tables, driver);
    w := Stages(error, driver.db, Read(baseOurs).entries, None, driver.db, [], map[], [], []);
    if error.None? {
      error, baseTheirs := ApplyTheirs(base, theirs, driver);
      w := w.(theirError := error, reached := driver.db, toTheirs := Read(baseTheirs).entries);
    }
    RanTwiceInSetting(base, theirs, driver.env, tables, ours, w, error, driver.db);
  }

  // ----- The stages in the setting of a merge -----

  /** Both pairs of databases can be compared, and only primary keys constrain ours. */
  ghost predicate DirectSetting(base: Side, theirs: Side, env: Env, tables: seq<Name>, ours: Db) {
    && Comparable(base, theirs.tables, theirs.schema, ours, theirs.rows)
    && Comparable(base, tables, env.schema, ours, theirs.rows) && Open(env, Tracked(base))
  }

  lemma DirectIsSetting(base: Side, theirs: Side, env: Env, tables: seq<Name>, ours: Db, toTheirs: seq<Entry>)
    requires ValidSide(base) && ValidSide(theirs) && ValidSide(Side(tables, env.schema, ours))
    requires DirectSetting(base, theirs, env, tables, ours)
    ensures SameTables(base, theirs)
    ensures IsDiff(Tracked(base), base.rows, theirs.rows, toTheirs) ==> Setting(base, env, tables, ours, theirs.rows, toTheirs)
  {
  }

  lemma TheirsApplied(base: Side, theirs: Side, env: Env, tables: seq<Name>, ours: Db, toTheirs: seq<Entry>)
    requires ValidSide(base) && ValidSide(theirs) && ValidSide(Side(tables, env.schema, ours))
    requires DirectSetting(base, theirs, env, tables, ours) && IsDiff(Tracked(base), base.rows, theirs.rows, toTheirs)
    ensures Shaped(toTheirs) && Onto(env, Beside(ours, base.rows), toTheirs) == Beside(ours, theirs.rows)
    ensures toTheirs != [] ==> ApplyResult(env, Beside(ours, base.rows), toTheirs, false).1 == Success
  {
    DirectIsSetting(base, theirs, env, tables, ours, toTheirs);
    TheirsStage(base, env, tables, ours, theirs.rows, toTheirs);
    OntoChanges(env, Beside(ours, base.rows), toTheirs);
  }

  /** In the setting of a merge the first two stages succeed and leave theirs. */
  ghost predicate TwiceInSetting(base: Side, theirs: Side, env: Env, tables: seq<Name>, ours: Db, error: Option<MergeError>, db: Db) {
    DirectSetting(base, theirs, env, tables, ours) ==> error.None? && db == Beside(ours, theirs.rows)
  }

  lemma OursUndone(base: Side, theirs: Side, env: Env, tables: seq<Name>, ours: Db, toOurs: seq<Entry>)
    requires ValidSide(base) && ValidSide(theirs) && ValidSide(Side(tables, env.schema, ours))
    requires DirectSetting(base, theirs, env, tables, ours) && IsDiff(Tracked(base), base.rows, ours, toOurs)
    ensures SameTables(base, Side(tables, env.schema, ours))
    ensures Shaped(toOurs) && Called(env, ours, InverseAll(toOurs)) == (Beside(ours, base.rows), Success)
  {
    UndoStage(base, env, tables, ours, theirs.rows, toOurs);
    OntoChanges(env, ours, toOurs);
  }

  lemma SameAsOurs(base: Side, theirs: Side, env: Env, tables: seq<Name>, ours: Db)
    requires ValidSide(base) && ValidSide(theirs) && ValidSide(Side(tables, env.schema, ours)) && DirectSetting(base, theirs, env, tables, ours)
    ensures SameTables(base, Side(tables, env.schema, ours)) && SameTables(base, theirs)
  {
  }

  lemma RanTwiceInSetting(base: Side, theirs: Side, env: Env, tables: seq<Name>, ours: Db, w: Stages, error: Option<MergeError>, db: Db)
    requires ValidSide(base) && ValidSide(theirs) && ValidSide(Side(tables, env.schema, ours))
    requires RanTwice(base, Side(tables, env.schema, ours), theirs, env, w, error, db)
    ensures TwiceInSetting(base, theirs, env, tables, ours, error, db)
  {
    if DirectSetting(base, theirs, env, tables, ours) {
      SameAsOurs(base, theirs, env, tables, ours);
      OursUndone(base, theirs, env, tables, ours, w.toOurs);
      TheirsApplied(base, theirs, env, tables, ours, w.toTheirs);
    }
  }

  // ----- Stage 3 -----

  /** Tracked tables have keys, so the record of theirs cannot fail. */
  lemma DiffAllKeyed(base: Side, m: Db, es: seq<Entry>)
    requires ValidSide(base) && IsDiff(Tracked(base), base.rows, m, es)
    ensures AllKeyed(es)
  {
    TrackedIsValid(base);
    DiffFits(Tracked(base), base.rows, m, es, Diff.Changed(base.rows, m));
  }

  /** Rebase of a file of ours that has changes; with keys in theirs it does not fail. */
  method RebaseOurs(ghost s: Schema, baseTheirs: seq<byte>, baseOurs: seq<byte>, visit: Visit)
    returns (r: FileRebase, ghost maps: KeyMaps, ghost src: seq<nat>)
    requires Storable(s, Read(baseTheirs).entries) && Storable(s, Read(baseOurs).entries) && ValidVisit(visit)
    requires Read(baseTheirs).complete && Read(baseOurs).complete && Read(baseOurs).entries != []
    requires AllKeyed(Read(baseTheirs).entries) && LeavesRoom(Read(baseTheirs).entries, |Read(baseOurs).entries|)
    ensures r.RebasedFile? && RebasedInto(s, Read(baseTheirs).entries, Read(baseOurs).entries, visit, maps, r.file, src, r.conflicts)
  {
    EmptyFile();
    r, maps, src := RebaseFile(s, baseTheirs, baseOurs, visit);
    if baseTheirs == [] {
      maps, src := map[], seq(|Read(baseOurs).entries|, i => i);
      PassedThrough(Read(baseOurs).entries, visit);
    }
  }

  /** `file` holds the rebased changeset. */
  ghost predicate RebasedInto(s: Schema, theirs: seq<Entry>, ours: seq<Entry>, visit: Visit, maps: KeyMaps,
                              file: seq<byte>, src: seq<nat>, conflicts: seq<ConflictFeature>)
    requires Shaped(theirs) && AllKeyed(theirs) && Shaped(ours)
  {
    && Read(file).complete && Storable(s, Read(file).entries) && (file == [] <==> Read(file).entries == [])
    && RebasedFrom(theirs, ours, visit, maps, Read(file).entries, src, conflicts)
  }

  /** Stage 3: what is left of ours, applied on top of theirs unless the file is empty. */
  method ApplyRebased(ghost base: Side, ghost ours: Db, ghost theirs: Db, driver: SqliteDriver,
                      baseTheirs: seq<byte>, baseOurs: seq<byte>, visit: Visit, ghost w0: Stages)
    returns (r: MergeResult, ghost w: Stages)
    requires ValidSide(base) && ValidVisit(visit)
    requires HoldsDiff(Tracked(base), base, ours, baseOurs) && HoldsDiff(Tracked(base), base, theirs, baseTheirs) && baseOurs != []
    requires LeavesRoom(Read(baseTheirs).entries, |Read(baseOurs).entries|)
    requires w0.reached == driver.db && w0.toOurs == Read(baseOurs).entries && w0.toTheirs == Read(baseTheirs).entries
    modifies driver`db
    ensures w == w0.(maps := w.maps, out := w.out, src := w.src) && RanThree(driver.env, visit, w, driver.db, r)
  {
    DiffAllKeyed(base, theirs, Read(baseTheirs).entries);
    var rebased;
    ghost var maps, src;
    rebased, maps, src := RebaseOurs(Tracked(base), baseTheirs, baseOurs, visit);
    w := w0.(maps := maps, out := Read(rebased.file).entries, src := src);
    r := ApplyLast(Tracked(base), driver, rebased.file, rebased.conflicts);
    ThreeRan(driver.env, visit, w, rebased.conflicts, driver.db, r);
  }

  lemma ThreeRan(env: Env, visit: Visit, w: Stages, conflicts: seq<ConflictFeature>, after: Db, r: MergeResult)
    requires Shaped(w.toOurs) && Shaped(w.toTheirs) && w.toOurs != [] && AllKeyed(w.toTheirs) && Shaped(w.out)
    requires RebasedFrom(w.toTheirs, w.toOurs, visit, w.maps, w.out, w.src, conflicts)
    requires Answers(Called(env, w.reached, w.out), conflicts, after, r)
    ensures RanThree(env, visit, w, after, r)
  {
  }

  /** Renumbering n of our inserts above any key of the database stays within 64 bits. */
  ghost predicate KeysLeaveRoom(s: Schema, db: Db, n: nat) {
    && 1 + n <= POW63
    && forall id | id in db && id.table in s && HasKey(s[id.table]) && |db[id]| == s[id.table].ColumnCount() ::
         AsInt(db[id][KeyColumn(s[id.table].primaryKeys)]) + 1 + n <= POW63
  }

  lemma DiffLeavesRoom(s: Schema, b: Db, m: Db, es: seq<Entry>, n: nat, k: nat)
    requires ValidSchema(s) && IsDiff(s, b, m, es) && KeysLeaveRoom(s, m, n) && k <= n
    ensures LeavesRoom(es, k)
  {
    forall i | 0 <= i < |es| && es[i].WellShaped() && HasKey(es[i].table) && es[i].op == Insert ensures Pk(es[i]) + 1 + k <= POW63 {
      assert IsRowDiff(s, b, m, IdOf(es[i]), es[i]);
    }
  }

  /** After theirs was applied: what is left of ours, if ours has changes. */
  method Finish(ghost base: Side, ghost ours: Db, ghost theirs: Db, driver: SqliteDriver,
                baseTheirs: seq<byte>, baseOurs: seq<byte>, visit: Visit, ghost w0: Stages)
    returns (r: MergeResult, ghost w: Stages)
    requires ValidSide(base) && ValidVisit(visit)
    requires HoldsDiff(Tracked(base), base, ours, baseOurs) && HoldsDiff(Tracked(base), base, theirs, baseTheirs)
    requires KeysLeaveRoom(Tracked(base), theirs, |base.rows| + |ours|)
    requires w0.reached == driver.db && w0.toOurs == Read(baseOurs).entries && w0.toTheirs == Read(baseTheirs).entries
    modifies driver`db
    ensures w == w0.(maps := w.maps, out := w.out, src := w.src) && RanThree(driver.env, visit, w, driver.db, r)
  {
    if baseOurs == [] {
      return MergedWith([]), w0;
    }
    TrackedIsValid(base);
    DiffLeavesRoom(Tracked(base), base.rows, theirs, Read(baseTheirs).entries, |base.rows| + |ours|, |Read(baseOurs).entries|);
    r, w := ApplyRebased(base, ours, theirs, driver, baseTheirs, baseOurs, visit, w0);
  }

  // ----- The merge -----

  /** In the setting of RebaseDirect the run merges. */
  ghost predicate MergesDirectly(p: Plan, base: Side, theirs: Side, env: Env, tables: seq<Name>, ours: Db, visit: Visit, after: Db, r: MergeResult) {
    DirectSetting(base, theirs, env, tables, ours) ==> Merges(p, base, ours, theirs.rows, visit, after, r)
  }

  /** A last stage on top of theirs merges. */
  lemma ThreeMerges(base: Side, theirs: Db, env: Env, tables: seq<Name>, ours: Db, visit: Visit, w: Stages, after: Db, r: MergeResult) returns (p: Plan)
    requires Setting(base, env, tables, ours, theirs, w.toTheirs) && ValidVisit(visit) && IsDiff(Tracked(base), base.rows, ours, w.toOurs)
    requires Shaped(w.toTheirs) && w.reached == Beside(ours, theirs) && RanThree(env, visit, w, after, r)
    ensures Merges(p, base, ours, theirs, visit, after, r)
  {
    if w.toOurs == [] {
      p := DirectWithoutOurs(base, env, tables, ours, theirs, w.toTheirs, visit);
    } else {
      var conflicts :|
        && RebasedFrom(w.toTheirs, w.toOurs, visit, w.maps, w.out, w.src, conflicts)
        && Answers(Called(env, w.reached, w.out), conflicts, after, r);
      p := DirectMerge(base, env, tables, ours, theirs, w.toTheirs, w.toOurs, visit, w.maps, w.out, w.src, conflicts);
      AnswersFinal(env, w.reached, w.out, conflicts, after, r);
    }
  }

  lemma AnswersFinal(env: Env, db: Db, out: seq<Entry>, conflicts: seq<ConflictFeature>, after: Db, r: MergeResult)
    requires Shaped(out) && Answers(Called(env, db, out), conflicts, after, r)
    ensures (after, r) == FinalUnlessEmpty(env, db, out, conflicts)
  {
  }

  lemma DirectMerges(base: Side, theirs: Side, env: Env, tables: seq<Name>, ours: Db, visit: Visit, w: Stages, after: Db, r: MergeResult) returns (p: Plan)
    requires ValidSide(base) && ValidSide(theirs) && ValidSide(Side(tables, env.schema, ours)) && ValidVisit(visit)
    requires RanDirect(base, Side(tables, env.schema, ours), theirs, env, visit, w, after, r)
    ensures MergesDirectly(p, base, theirs, env, tables, ours, visit, after, r)
  {
    p := Plan(Sides(map[], map[], map[], map[], [], []), t => [], map[]);
    if DirectSetting(base, theirs, env, tables, ours) {
      SameAsOurs(base, theirs, env, tables, ours);
      OursUndone(base, theirs, env, tables, ours, w.toOurs);
      TheirsApplied(base, theirs, env, tables, ours, w.toTheirs);
      DirectIsSetting(base, theirs, env, tables, ours, w.toTheirs);
      p := ThreeMerges(base, theirs.rows, env, tables, ours, visit, w, after, r);
    }
  }

  /** What a stage that succeeded left is one of the states a failing run can leave. */
  lemma UndoneIsStage(base: Side, mine: Side, env: Env, theirs: Db, toOurs: seq<Entry>, toTheirs: seq<Entry>, undone: Db)
    requires ValidSide(base) && ValidSide(mine) && RanOne(base, mine, env, toOurs, None, undone)
    ensures Shaped(toOurs) && undone == Onto(env, mine.rows, InverseAll(toOurs))
    ensures StageOf(env, base, mine.rows, theirs, toOurs, toTheirs, undone)
  {
    CalledIsOnto(env, mine.rows, InverseAll(toOurs));
  }

  lemma ReachedIsStage(base: Side, mine: Side, theirs: Side, env: Env, w: Stages)
    requires ValidSide(base) && ValidSide(mine) && ValidSide(theirs)
    requires RanOne(base, mine, env, w.toOurs, None, w.undone) && RanTwo(base, theirs, env, w.undone, w.toTheirs, None, w.reached)
    ensures StageOf(env, base, mine.rows, theirs.rows, w.toOurs, w.toTheirs, w.reached)
  {
    UndoneIsStage(base, mine, env, theirs.rows, w.toOurs, w.toTheirs, w.undone);
    CalledIsOnto(env, w.undone, w.toTheirs);
    StageReached(env, base, mine.rows, theirs.rows, w.toOurs, w.toTheirs, w.reached);
  }

  /** A stage that failed left what it found. */
  lemma StoppedInTwo(base: Side, theirs: Side, env: Env, undone: Db, toTheirs: seq<Entry>, error: Option<MergeError>, db: Db)
    requires ValidSide(base) && ValidSide(theirs) && RanTwo(base, theirs, env, undone, toTheirs, error, db) && error.Some?
    ensures db == undone
  {
    if SameTables(base, theirs) {
      CalledIsOnto(env, undone, toTheirs);
    }
  }

  lemma StoppedInThree(env: Env, visit: Visit, w: Stages, after: Db, r: MergeResult)
    requires Shaped(w.toOurs) && Shaped(w.toTheirs) && RanThree(env, visit, w, after, r) && r.MergeFailed?
    ensures after == w.reached
  {
    CalledIsOnto(env, w.reached, w.out);
  }

  /** A run that failed stopped between stages. */
  lemma DirectStops(base: Side, mine: Side, theirs: Side, env: Env, visit: Visit, w: Stages, after: Db, r: MergeResult)
    requires ValidSide(base) && ValidSide(mine) && ValidSide(theirs) && RanDirect(base, mine, theirs, env, visit, w, after, r)
    ensures r.MergeFailed? ==> StoppedBetween(env, base, mine.rows, theirs.rows, after)
  {
    if r.MergeFailed? && w.undoError.None? {
      UndoneIsStage(base, mine, env, theirs.rows, w.toOurs, w.toTheirs, w.undone);
      if w.theirError.Some? {
        StoppedInTwo(base, theirs, env, w.undone, w.toTheirs, w.theirError, w.reached);
      } else {
        ReachedIsStage(base, mine, theirs, env, w);
        StoppedInThree(env, visit, w, after, r);
      }
    }
  }

  lemma CalledIsOnto(env: Env, db: Db, es: seq<Entry>)
    requires Shaped(es)
    ensures Called(env, db, es).0 == Onto(env, db, es) && (Called(env, db, es).1 != Success ==> Called(env, db, es).0 == db)
  {
  }

  /**
   RebaseDirect. What it answers and leaves is that of its stages; a failure
   leaves the database as one of the stages left it; in the setting of a merge
   it merges.
   */
  method RebaseDirect(base: Side, theirs: Side, tables: seq<Name>, driver: SqliteDriver, visit: Visit)
    returns (r: MergeResult, ghost p: Plan, ghost w: Stages)
    requires ValidSide(base) && ValidSide(theirs) && ValidSide(Side(tables, driver.env.schema, driver.db)) && ValidVisit(visit)
    requires TablesFit(Tracked(base)) && RowsFit(base.rows) && RowsFit(driver.db) && RowsFit(theirs.rows)
    requires KeysLeaveRoom(Tracked(base), theirs.rows, |base.rows| + |driver.db|)
    modifies driver`db
    ensures RanDirect(base, Side(tables, driver.env.schema, old(driver.db)), theirs, driver.env, visit, w, driver.db, r)
    ensures r.MergeFailed? ==> StoppedBetween(driver.env, base, old(driver.db), theirs.rows, driver.db)
    ensures MergesDirectly(p, base, theirs, driver.env, tables, old(driver.db), visit, driver.db, r)
  {
    ghost var ours, mine := driver.db, Side(tables, driver.env.schema, driver.db);
    var error, baseOurs, baseTheirs;
    error, baseOurs, baseTheirs, w := UndoAndApply(base, theirs, tables, driver);
    if error.Some? {
      r := MergeFailed(error.value);
    } else {
      r, w := Finish(base, ours, theirs.rows, driver, baseTheirs, baseOurs, visit, w);
    }
    p := DirectMerges(base, theirs, driver.env, tables, ours, visit, w, driver.db, r);
    DirectStops(base, mine, theirs, driver.env, visit, w, driver.db, r);
  }
}
